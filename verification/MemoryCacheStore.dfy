/** lib/cache/memory-cache-store.js: a cache of responses under a size and a count limit, least recently
used URL first out. The original keeps a Map from URL to variants; a Map remembers the order in
which its keys were set, and so does the list of buckets here. */
module MemoryCacheStore {
  import opened Wrappers

  /** A header: missing, a string, or an array of strings. */
  datatype HeaderValue = Missing | One(value: string) | Many(values: seq<string>)

  datatype CacheKey = CacheKey(origin: string, path: string, method': string, headers: map<string, HeaderValue>)

  /** A stored response; `id` is the identity of the object. */
  datatype Entry = Entry(
    id: nat, key: CacheKey, vary: Option<map<string, HeaderValue>>, deleteAt: int, body: seq<string>, size: nat)

  datatype Bucket = Bucket(url: string, entries: seq<Entry>)

  function Url(key: CacheKey): string {
    key.origin + ":" + key.path
  }

  /** headerValueEquals: whatever the kinds of the two, it is plain equality. */
  predicate HeaderValueEquals(lhs: HeaderValue, rhs: HeaderValue): (same: bool)
    ensures same <==> lhs == rhs
  {
    if lhs.Missing? && rhs.Missing? then true
    else if lhs.Missing? != rhs.Missing? then false
    else if lhs.Many? && rhs.Many? then lhs.values == rhs.values
    else lhs == rhs
  }

  function HeaderOf(headers: map<string, HeaderValue>, name: string): HeaderValue {
    if name in headers then headers[name] else Missing
  }

  /** varyMatches: the request has what the stored response varies on. */
  predicate VaryMatches(key: CacheKey, entry: Entry) {
    entry.vary.Some? ==>
      forall name :: name in entry.vary.value ==> HeaderValueEquals(HeaderOf(key.headers, name), entry.vary.value[name])
  }

  /** The request carries each header that the stored response varies on with the value it had then, and
      lacks each one that was lacking then. */
  ghost predicate SameVariant(headers: map<string, HeaderValue>, vary: Option<map<string, HeaderValue>>) {
    vary.Some? ==>
      forall name :: name in vary.value ==>
        if name in headers then headers[name] == vary.value[name] else vary.value[name] == Missing
  }

  /** `now` is missing for a search whatever the age. */
  predicate Matches(key: CacheKey, entry: Entry, now: Option<int>): (match': bool)
    ensures match' <==> (now == None || entry.deleteAt > now.value) && entry.key.method' == key.method'
                        && SameVariant(key.headers, entry.vary)
  {
    (now.Some? ==> entry.deleteAt > now.value) && entry.key.method' == key.method' && VaryMatches(key, entry)
  }

  /** findEntry: the first match; the number of entries if there is none. */
  function FindEntry(key: CacheKey, entries: seq<Entry>, now: Option<int>): (i: nat)
    ensures i <= |entries|
    ensures i < |entries| ==> Matches(key, entries[i], now)
    ensures forall j :: 0 <= j < i ==> !Matches(key, entries[j], now)
  {
    if entries == [] || Matches(key, entries[0], now) then 0 else 1 + FindEntry(key, entries[1..], now)
  }

  /** All entries, oldest first. */
  function Flatten(buckets: seq<Bucket>): seq<Entry> {
    if buckets == [] then [] else Flatten(buckets[..|buckets| - 1]) + buckets[|buckets| - 1].entries
  }

  function Sum(entries: seq<Entry>): nat {
    if entries == [] then 0 else entries[0].size + Sum(entries[1..])
  }

  lemma {:induction false} SumConcat(a: seq<Entry>, b: seq<Entry>)
    ensures Sum(a + b) == Sum(a) + Sum(b)
  {
    if a == [] {
      assert a + b == b;
    } else {
      assert (a + b)[1..] == a[1..] + b;
      SumConcat(a[1..], b);
    }
  }

  lemma {:induction false} FlattenConcat(a: seq<Bucket>, b: seq<Bucket>)
    ensures Flatten(a + b) == Flatten(a) + Flatten(b)
  {
    if b == [] {
      assert a + b == a;
    } else {
      var k := |b| - 1;
      assert (a + b)[..|a + b| - 1] == a + b[..k];
      FlattenConcat(a, b[..k]);
    }
  }

  lemma FlattenOne(bucket: Bucket)
    ensures Flatten([bucket]) == bucket.entries
  {
    assert [bucket][..0] == [];
  }

  /** `entries` without the one to keep. */
  function Others(entries: seq<Entry>, keep: nat): seq<Entry> {
    if entries == [] then []
    else (if entries[0].id == keep then [] else [entries[0]]) + Others(entries[1..], keep)
  }

  /** The store is over one of its targets, half of each limit. */
  predicate Over(size: int, count: int, maxSize: nat, maxCount: nat) {
    2 * size > maxSize || 2 * count > maxCount
  }

  /** Eviction on the flat list: drop the oldest, but not the one to keep, until both targets hold. */
  function Survivors(entries: seq<Entry>, keep: nat, size: int, count: int, maxSize: nat, maxCount: nat): seq<Entry> {
    if entries == [] || !Over(size, count, maxSize, maxCount) then entries
    else if entries[0].id == keep then [entries[0]] + Survivors(entries[1..], keep, size, count, maxSize, maxCount)
    else Survivors(entries[1..], keep, size - entries[0].size, count - 1, maxSize, maxCount)
  }

  /** Dropping the `dropped` oldest is as much as it takes, and no more. */
  ghost predicate JustEnough(others: seq<Entry>, dropped: nat, size: int, count: int, maxSize: nat, maxCount: nat) {
    && dropped <= |others|
    && (forall j :: 0 <= j < dropped ==> 2 * (size - Sum(others[..j])) > maxSize || 2 * (count - j) > maxCount)
    && (dropped < |others| ==> 2 * (size - Sum(others[..dropped])) <= maxSize && 2 * (count - dropped) <= maxCount)
  }

  lemma JustEnoughOneMore(head: Entry, rest: seq<Entry>, d: nat, size: int, count: int, maxSize: nat, maxCount: nat)
    requires Over(size, count, maxSize, maxCount)
    requires JustEnough(rest, d, size - head.size, count - 1, maxSize, maxCount)
    ensures JustEnough([head] + rest, d + 1, size, count, maxSize, maxCount)
  {
    forall j | 0 <= j <= d + 1
      ensures Sum(([head] + rest)[..j]) == if j == 0 then 0 else head.size + Sum(rest[..j - 1])
    {
      if j > 0 {
        assert ([head] + rest)[..j] == [head] + rest[..j - 1];
      }
    }
  }

  /** What survives besides the one to keep is the newest part; nothing goes once both targets hold, and
      something goes while one does not. */
  lemma {:induction false} SurvivorsAreNewest(entries: seq<Entry>, keep: nat, size: int, count: int, maxSize: nat, maxCount: nat)
      returns (dropped: nat)
    ensures JustEnough(Others(entries, keep), dropped, size, count, maxSize, maxCount)
    ensures Others(Survivors(entries, keep, size, count, maxSize, maxCount), keep) == Others(entries, keep)[dropped..]
  {
    if entries == [] || !Over(size, count, maxSize, maxCount) {
      dropped := 0;
    } else if entries[0].id == keep {
      dropped := SurvivorsAreNewest(entries[1..], keep, size, count, maxSize, maxCount);
      assert Others(entries, keep) == Others(entries[1..], keep);
    } else {
      var rest := Others(entries[1..], keep);
      var d := SurvivorsAreNewest(entries[1..], keep, size - entries[0].size, count - 1, maxSize, maxCount);
      dropped := d + 1;
      JustEnoughOneMore(entries[0], rest, d, size, count, maxSize, maxCount);
      assert ([entries[0]] + rest)[dropped..] == rest[d..];
    }
  }

  ghost predicate Distinct(entries: seq<Entry>) {
    forall i, j :: 0 <= i < j < |entries| ==> entries[i].id != entries[j].id
  }

  lemma {:induction false} OthersAbsent(entries: seq<Entry>, keep: nat)
    requires forall i :: 0 <= i < |entries| ==> entries[i].id != keep
    ensures Others(entries, keep) == entries
  {
    if entries != [] {
      OthersAbsent(entries[1..], keep);
    }
  }

  lemma {:induction false} OthersAt(entries: seq<Entry>, i: nat)
    requires i < |entries| && Distinct(entries)
    ensures Others(entries, entries[i].id) == entries[..i] + entries[i + 1..]
  {
    if i == 0 {
      OthersAbsent(entries[1..], entries[0].id);
    } else {
      OthersAt(entries[1..], i - 1);
      assert entries[..i] + entries[i + 1..] == [entries[0]] + (entries[1..][..i - 1] + entries[1..][i..]);
    }
  }

  lemma OthersAccount(entries: seq<Entry>, keep: Entry) returns (i: nat)
    requires Distinct(entries) && keep in entries
    ensures Sum(entries) == Sum(Others(entries, keep.id)) + keep.size && |entries| == |Others(entries, keep.id)| + 1
    ensures i < |entries| && entries[i] == keep && Others(entries, keep.id) == entries[..i] + entries[i + 1..]
  {
    i :| 0 <= i < |entries| && entries[i] == keep;
    OthersAt(entries, i);
    SumWithout(entries, i);
  }

  lemma {:induction false} SurvivorsAreSome(entries: seq<Entry>, keep: nat, size: int, count: int, maxSize: nat, maxCount: nat)
    requires Distinct(entries)
    ensures var s := Survivors(entries, keep, size, count, maxSize, maxCount);
            && Distinct(s) && (forall e :: e in s ==> e in entries)
            && (forall e :: e in entries && e.id == keep ==> e in s)
  {
    if entries != [] && Over(size, count, maxSize, maxCount) {
      var rest := entries[1..];
      assert entries == [entries[0]] + rest;
      if entries[0].id == keep {
        SurvivorsAreSome(rest, keep, size, count, maxSize, maxCount);
        assert forall e :: e in rest ==> e.id != entries[0].id;
      } else {
        SurvivorsAreSome(rest, keep, size - entries[0].size, count - 1, maxSize, maxCount);
      }
    }
  }

  /** What #evict leaves of a list that holds the entry to keep. */
  function Evicted(entries: seq<Entry>, keep: Entry, maxSize: nat, maxCount: nat): seq<Entry> {
    var s := Survivors(entries, keep.id, Sum(entries), |entries|, maxSize, maxCount);
    if Sum(s) > maxSize || |s| > maxCount then Others(s, keep.id) else s
  }

  /** Once enough has been dropped, what is left with the one to keep is within the targets, unless that is all. */
  lemma JustEnoughSum(others: seq<Entry>, dropped: nat, kept: nat, size: int, count: int, maxSize: nat, maxCount: nat)
    requires JustEnough(others, dropped, size, count, maxSize, maxCount)
    requires size == Sum(others) + kept && count == |others| + 1
    ensures dropped <= |others|
    ensures if dropped == |others| then Sum(others[dropped..]) == 0
            else !Over(Sum(others[dropped..]) + kept, |others[dropped..]| + 1, maxSize, maxCount)
  {
    SumConcat(others[..dropped], others[dropped..]);
    assert others[..dropped] + others[dropped..] == others;
  }

  /** Eviction brings the store within its limits; it gives up the new entry if and only if that entry
      alone breaks one, and otherwise drops the oldest entries, as many as it takes and no more. */
  lemma EvictedWithinLimits(entries: seq<Entry>, keep: Entry, maxSize: nat, maxCount: nat) returns (dropped: nat)
    requires Distinct(entries) && keep in entries
    ensures var left := Evicted(entries, keep, maxSize, maxCount);
            && Sum(left) <= maxSize && |left| <= maxCount && Distinct(left)
            && (keep in left <==> keep.size <= maxSize && maxCount >= 1)
            && JustEnough(Others(entries, keep.id), dropped, Sum(entries), |entries|, maxSize, maxCount)
            && Others(left, keep.id) == Others(entries, keep.id)[dropped..]
  {
    hide Survivors, Others, JustEnough, Sum, Distinct;
    var others := Others(entries, keep.id);
    var s := Survivors(entries, keep.id, Sum(entries), |entries|, maxSize, maxCount);
    dropped := SurvivorsAreNewest(entries, keep.id, Sum(entries), |entries|, maxSize, maxCount);
    SurvivorsAreSome(entries, keep.id, Sum(entries), |entries|, maxSize, maxCount);
    var _ := OthersAccount(entries, keep);
    var k := OthersAccount(s, keep);
    OthersTwice(s, k);
    JustEnoughSum(others, dropped, keep.size, Sum(entries), |entries|, maxSize, maxCount);
  }

  /** Without the one to keep, there is nothing more to leave out, and no trace of it. */
  lemma OthersTwice(entries: seq<Entry>, i: nat)
    requires i < |entries| && Distinct(entries)
    ensures var others := Others(entries, entries[i].id);
            Others(others, entries[i].id) == others && Distinct(others) && entries[i] !in others
  {
    OthersAt(entries, i);
    CutAt(entries, i);
    OthersAbsent(entries[..i] + entries[i + 1..], entries[i].id);
  }

  lemma CutAt(entries: seq<Entry>, i: nat)
    requires i < |entries| && Distinct(entries)
    ensures var others := entries[..i] + entries[i + 1..];
            Distinct(others) && forall k :: 0 <= k < |others| ==> others[k].id != entries[i].id
  {
    var others := entries[..i] + entries[i + 1..];
    assert forall k :: 0 <= k < |others| ==> others[k] == if k < i then entries[k] else entries[k + 1];
  }

  ghost predicate Homes(bucket: Bucket) {
    bucket.entries != [] && forall k :: 0 <= k < |bucket.entries| ==> Url(bucket.entries[k].key) == bucket.url
  }

  /** One bucket for each URL, and in it only entries of that URL. */
  ghost predicate Keyed(buckets: seq<Bucket>) {
    && (forall i, j :: 0 <= i < j < |buckets| ==> buckets[i].url != buckets[j].url)
    && (forall i :: 0 <= i < |buckets| ==> Homes(buckets[i]))
  }

  lemma InBucket(buckets: seq<Bucket>, b: nat)
    requires b < |buckets| && Keyed(buckets)
    ensures buckets[b].entries != []
    ensures forall k :: 0 <= k < |buckets[b].entries| ==> Url(buckets[b].entries[k].key) == buckets[b].url
  {
    assert Homes(buckets[b]);
  }

  lemma FlattenFrom(buckets: seq<Bucket>, b: nat)
    requires b < |buckets|
    ensures Flatten(buckets[b..]) == buckets[b].entries + Flatten(buckets[b + 1..])
  {
    hide Flatten;
    FlattenOne(buckets[b]);
    assert buckets[b..] == [buckets[b]] + buckets[b + 1..];
    FlattenConcat([buckets[b]], buckets[b + 1..]);
  }

  lemma FlattenAt(buckets: seq<Bucket>, b: nat)
    requires b < |buckets|
    ensures Flatten(buckets) == Flatten(buckets[..b]) + buckets[b].entries + Flatten(buckets[b + 1..])
    ensures Flatten(buckets[b..]) == buckets[b].entries + Flatten(buckets[b + 1..])
  {
    hide Flatten;
    FlattenFrom(buckets, b);
    FlattenConcat(buckets[..b], buckets[b..]);
    assert buckets[..b] + buckets[b..] == buckets;
  }

  /** Another list of entries in one bucket; an empty one takes the bucket with it. */
  function Replaced(buckets: seq<Bucket>, b: nat, left: seq<Entry>): seq<Bucket>
    requires b < |buckets|
  {
    if left == [] then buckets[..b] + buckets[b + 1..] else buckets[b := Bucket(buckets[b].url, left)]
  }

  lemma ReplacedFacts(buckets: seq<Bucket>, b: nat, left: seq<Entry>)
    requires b < |buckets| && Keyed(buckets)
    requires forall k :: 0 <= k < |left| ==> Url(left[k].key) == buckets[b].url
    ensures var buckets' := Replaced(buckets, b, left); var b' := if left == [] then b else b + 1;
            && Keyed(buckets') && b' <= |buckets'| && buckets'[b'..] == buckets[b + 1..]
            && Flatten(buckets'[..b']) == Flatten(buckets[..b]) + left
            && Sum(Flatten(buckets')) == Sum(Flatten(buckets)) - Sum(buckets[b].entries) + Sum(left)
            && |Flatten(buckets')| == |Flatten(buckets)| - |buckets[b].entries| + |left|
  {
    hide Flatten, Sum, Keyed, Replaced;
    KeyedReplaced(buckets, b, left);
    FlattenReplaced(buckets, b, left);
    FlattenAt(buckets, b);
    SumExchanged(Flatten(buckets[..b]), buckets[b].entries, left, Flatten(buckets[b + 1..]));
  }

  lemma FlattenReplaced(buckets: seq<Bucket>, b: nat, left: seq<Entry>)
    requires b < |buckets|
    ensures var buckets' := Replaced(buckets, b, left); var b' := if left == [] then b else b + 1;
            && b' <= |buckets'| && buckets'[b'..] == buckets[b + 1..]
            && Flatten(buckets'[..b']) == Flatten(buckets[..b]) + left
            && Flatten(buckets') == Flatten(buckets[..b]) + left + Flatten(buckets[b + 1..])
  {
    hide Flatten;
    var buckets' := Replaced(buckets, b, left);
    var b' := if left == [] then b else b + 1;
    if left == [] {
      assert buckets'[..b'] == buckets[..b] && Flatten(buckets[..b]) + left == Flatten(buckets[..b]);
    } else {
      assert buckets'[..b'] == buckets[..b] + [Bucket(buckets[b].url, left)];
      FlattenConcat(buckets[..b], [Bucket(buckets[b].url, left)]);
      FlattenOne(Bucket(buckets[b].url, left));
    }
    assert buckets' == buckets'[..b'] + buckets[b + 1..];
    FlattenConcat(buckets'[..b'], buckets[b + 1..]);
  }

  lemma SumExchanged(before: seq<Entry>, was: seq<Entry>, now: seq<Entry>, after: seq<Entry>)
    ensures Sum(before + now + after) == Sum(before + was + after) - Sum(was) + Sum(now)
  {
    hide Sum;
    SumConcat(before + was, after);
    SumConcat(before, was);
    SumConcat(before + now, after);
    SumConcat(before, now);
  }

  lemma KeyedReplaced(buckets: seq<Bucket>, b: nat, left: seq<Entry>)
    requires b < |buckets| && Keyed(buckets)
    requires forall k :: 0 <= k < |left| ==> Url(left[k].key) == buckets[b].url
    ensures Keyed(Replaced(buckets, b, left))
  {
    var buckets' := Replaced(buckets, b, left);
    forall i | 0 <= i < |buckets'|
      ensures Homes(buckets'[i])
    {
      assert Homes(buckets[if left == [] && i >= b then i + 1 else i]);
    }
  }

  /** The variants stored for a URL. */
  function Lookup(buckets: seq<Bucket>, url: string): seq<Entry> {
    if buckets == [] then []
    else if buckets[|buckets| - 1].url == url then buckets[|buckets| - 1].entries
    else Lookup(buckets[..|buckets| - 1], url)
  }

  lemma {:induction false} LookupAt(buckets: seq<Bucket>, b: nat)
    requires b < |buckets| && Keyed(buckets)
    ensures Lookup(buckets, buckets[b].url) == buckets[b].entries
  {
    if b < |buckets| - 1 {
      KeyedPrefix(buckets, |buckets| - 1);
      LookupAt(buckets[..|buckets| - 1], b);
    }
  }

  lemma {:induction false} LookupNone(buckets: seq<Bucket>, url: string)
    requires forall b :: 0 <= b < |buckets| ==> buckets[b].url != url
    ensures Lookup(buckets, url) == []
  {
    if buckets != [] {
      LookupNone(buckets[..|buckets| - 1], url);
    }
  }

  lemma KeyedPrefix(buckets: seq<Bucket>, n: nat)
    requires Keyed(buckets) && n <= |buckets|
    ensures Keyed(buckets[..n])
  {
    forall i | 0 <= i < n
      ensures Homes(buckets[..n][i])
    {
      assert Homes(buckets[i]);
    }
  }

  /** Delete and set again: the bucket, with a new list, becomes the most recent one. */
  function Moved(buckets: seq<Bucket>, b: nat, entries: seq<Entry>): seq<Bucket>
    requires b < |buckets|
  {
    buckets[..b] + buckets[b + 1..] + [Bucket(buckets[b].url, entries)]
  }

  lemma MovedFacts(buckets: seq<Bucket>, b: nat, entries: seq<Entry>)
    requires b < |buckets| && Keyed(buckets) && entries != []
    requires forall k :: 0 <= k < |entries| ==> Url(entries[k].key) == buckets[b].url
    ensures var rest := Flatten(buckets[..b] + buckets[b + 1..]);
            && Keyed(Moved(buckets, b, entries))
            && Flatten(Moved(buckets, b, entries)) == rest + entries
            && rest == Flatten(buckets[..b]) + Flatten(buckets[b + 1..])
            && Sum(rest) + Sum(buckets[b].entries) == Sum(Flatten(buckets))
            && |rest| + |buckets[b].entries| == |Flatten(buckets)|
  {
    KeyedMoved(buckets, b, entries);
    hide Flatten, Sum, Keyed;
    var before, old', after := Flatten(buckets[..b]), buckets[b].entries, Flatten(buckets[b + 1..]);
    FlattenConcat(buckets[..b] + buckets[b + 1..], [Bucket(buckets[b].url, entries)]);
    FlattenOne(Bucket(buckets[b].url, entries));
    FlattenConcat(buckets[..b], buckets[b + 1..]);
    FlattenAt(buckets, b);
    SumConcat(before + old', after);
    SumConcat(before, old');
    SumConcat(before, after);
  }

  lemma KeyedMoved(buckets: seq<Bucket>, b: nat, entries: seq<Entry>)
    requires b < |buckets| && Keyed(buckets) && entries != []
    requires forall k :: 0 <= k < |entries| ==> Url(entries[k].key) == buckets[b].url
    ensures Keyed(Moved(buckets, b, entries))
  {
    var buckets' := Moved(buckets, b, entries);
    forall i | 0 <= i < |buckets'|
      ensures Homes(buckets'[i])
    {
      if i < |buckets| - 1 {
        assert Homes(buckets[if i < b then i else i + 1]);
      }
    }
  }

  /** What a move does to lookups: nothing, but for the URL that moved. */
  lemma LookupMoved(buckets: seq<Bucket>, b: nat, entries: seq<Entry>, url: string)
    requires b < |buckets| && Keyed(buckets) && entries != []
    requires forall k :: 0 <= k < |entries| ==> Url(entries[k].key) == buckets[b].url
    ensures Lookup(Moved(buckets, b, entries), url) == if url == buckets[b].url then entries else Lookup(buckets, url)
  {
    var buckets' := Moved(buckets, b, entries);
    KeyedMoved(buckets, b, entries);
    hide Lookup;
    if url == buckets[b].url {
      LookupAt(buckets', |buckets'| - 1);
    } else if i :| 0 <= i < |buckets| && buckets[i].url == url {
      LookupAt(buckets, i);
      LookupAt(buckets', if i < b then i else i - 1);
    } else {
      LookupNone(buckets, url);
      LookupNone(buckets', url);
    }
  }

  lemma Rotated(x: seq<Entry>, m: seq<Entry>, y: seq<Entry>)
    ensures Distinct(x + m + y) ==> Distinct(x + y + m)
    ensures forall e :: e in x + y + m <==> e in x + m + y
  {
    var s, t := x + m + y, x + y + m;
    assert forall k :: 0 <= k < |t| ==> t[k] == s[if k < |x| then k else if k < |x| + |y| then k + |m| else k - |y|];
  }

  /** What a search in a list of variants returns. */
  function FirstMatch(variants: seq<Entry>, key: CacheKey, now: Option<int>): Option<Entry> {
    var i := FindEntry(key, variants, now);
    if i < |variants| then Some(variants[i]) else None
  }

  /** No older variant of the same URL stands before `entry` and hides it from a search for its own key. */
  ghost predicate Shielded(entries: seq<Entry>, entry: Entry) {
    forall i, j :: 0 <= i < j < |entries| && entries[j] == entry && Url(entries[i].key) == Url(entry.key) ==>
      !Matches(entry.key, entries[i], None)
  }

  lemma {:induction false} SurvivorsShielded(entries: seq<Entry>, entry: Entry, keep: nat, size: int, count: int, maxSize: nat, maxCount: nat)
    requires Distinct(entries) && Shielded(entries, entry)
    ensures Shielded(Survivors(entries, keep, size, count, maxSize, maxCount), entry)
  {
    if entries != [] && Over(size, count, maxSize, maxCount) {
      var head, rest := entries[0], entries[1..];
      if head.id == keep {
        SurvivorsShielded(rest, entry, keep, size, count, maxSize, maxCount);
        SurvivorsAreSome(rest, keep, size, count, maxSize, maxCount);
        var s := Survivors(rest, keep, size, count, maxSize, maxCount);
        forall i, j | 0 <= i < j < |[head] + s| && ([head] + s)[j] == entry && Url(([head] + s)[i].key) == Url(entry.key)
          ensures !Matches(entry.key, ([head] + s)[i], None)
        {
          if i == 0 {
            assert s[j - 1] in rest;
            var k :| 0 <= k < |rest| && rest[k] == s[j - 1];
            assert entries[k + 1] == entry;
          } else {
            assert s[j - 1] == entry && s[i - 1] == ([head] + s)[i];
          }
        }
      } else {
        SurvivorsShielded(rest, entry, keep, size - head.size, count - 1, maxSize, maxCount);
      }
    }
  }

  /** The list of variants after a write: the first match is replaced where it stands. */
  function Placed(variants: seq<Entry>, entry: Entry): seq<Entry> {
    var i := FindEntry(entry.key, variants, None);
    if i < |variants| then variants[i := entry] else variants + [entry]
  }

  lemma PlacedFacts(before: seq<Entry>, variants: seq<Entry>, entry: Entry)
    requires Distinct(before + variants) && forall e :: e in before + variants ==> e.id < entry.id
    requires forall k :: 0 <= k < |before| ==> Url(before[k].key) != Url(entry.key)
    ensures var all := before + Placed(variants, entry);
            && Distinct(all) && entry in all && Shielded(all, entry)
            && forall e :: e in all ==> e == entry || e in before || e in variants
  {
    var i := FindEntry(entry.key, variants, None);
    var placed := Placed(variants, entry);
    var all := before + placed;
    assert forall k :: 0 <= k < |variants| ==> (before + variants)[|before| + k] == variants[k];
    assert forall k :: 0 <= k < |placed| && k != i ==> placed[k] == variants[k];
    assert placed[i] == entry && all[|before| + i] == entry;
    forall a, b | 0 <= a < b < |all|
      ensures all[a].id != all[b].id
    {
      var old' := before + variants;
      assert a != |before| + i ==> all[a] == old'[a] && old'[a] in old';
      assert b != |before| + i ==> all[b] == old'[b] && old'[b] in old';
    }
  }

  /** An entry is no larger than the list it is in. */
  lemma {:induction false} Sizes(entries: seq<Entry>, entry: Entry)
    requires entry in entries
    ensures entry.size <= Sum(entries) && |entries| >= 1
  {
    if entries[0] != entry {
      assert entries == [entries[0]] + entries[1..];
      Sizes(entries[1..], entry);
    }
  }

  lemma EvictedIsPart(entries: seq<Entry>, entry: Entry, maxSize: nat, maxCount: nat)
    requires Distinct(entries) && entry in entries && Shielded(entries, entry)
    ensures var left := Evicted(entries, entry, maxSize, maxCount);
            (forall e :: e in left ==> e in entries) && (entry in left ==> Shielded(left, entry))
  {
    SurvivorsAreSome(entries, entry.id, Sum(entries), |entries|, maxSize, maxCount);
    SurvivorsShielded(entries, entry, entry.id, Sum(entries), |entries|, maxSize, maxCount);
    var s := Survivors(entries, entry.id, Sum(entries), |entries|, maxSize, maxCount);
    var k := OthersAccount(s, entry);
    OthersTwice(s, k);
  }

  /** Where the bucket of a URL stands; |buckets| if there is none. */
  function BucketIndex(buckets: seq<Bucket>, url: string): (b: nat)
    ensures b <= |buckets| && (b < |buckets| ==> buckets[b].url == url)
    ensures forall i :: 0 <= i < b ==> buckets[i].url != url
  {
    if buckets == [] || buckets[0].url == url then 0 else 1 + BucketIndex(buckets[1..], url)
  }

  /** The buckets once `entry` is stored, before any eviction. */
  function Written(buckets: seq<Bucket>, entry: Entry): seq<Bucket> {
    var url := Url(entry.key);
    var b := BucketIndex(buckets, url);
    if b < |buckets| then Moved(buckets, b, Placed(buckets[b].entries, entry))
    else buckets + [Bucket(url, [entry])]
  }

  lemma {:induction false} OtherUrls(buckets: seq<Bucket>, url: string)
    requires Keyed(buckets) && forall i :: 0 <= i < |buckets| ==> buckets[i].url != url
    ensures forall k :: 0 <= k < |Flatten(buckets)| ==> Url(Flatten(buckets)[k].key) != url
  {
    if buckets != [] {
      var n := |buckets| - 1;
      KeyedPrefix(buckets, n);
      OtherUrls(buckets[..n], url);
      assert Homes(buckets[n]);
    }
  }

  lemma KeyedRest(buckets: seq<Bucket>, b: nat)
    requires b < |buckets| && Keyed(buckets)
    ensures var rest := buckets[..b] + buckets[b + 1..];
            Keyed(rest) && forall i :: 0 <= i < |rest| ==> rest[i].url != buckets[b].url
  {
    var rest := buckets[..b] + buckets[b + 1..];
    forall i | 0 <= i < |rest|
      ensures Homes(rest[i])
    {
      assert Homes(buckets[if i < b then i else i + 1]);
    }
  }

  /** What a write makes of the buckets: the counters' new values, and the entry where a search finds it. */
  lemma WrittenFacts(buckets: seq<Bucket>, entry: Entry)
    requires Keyed(buckets) && Distinct(Flatten(buckets)) && forall e :: e in Flatten(buckets) ==> e.id < entry.id
    ensures var all, all' := Flatten(buckets), Flatten(Written(buckets, entry));
            var b := BucketIndex(buckets, Url(entry.key));
            var variants := if b < |buckets| then buckets[b].entries else [];
            var i := FindEntry(entry.key, variants, None);
            && Keyed(Written(buckets, entry)) && Distinct(all') && entry in all' && Shielded(all', entry)
            && (forall e :: e in all' ==> e.id <= entry.id)
            && Sum(all') == Sum(all) + entry.size - (if i < |variants| then variants[i].size else 0)
            && |all'| == |all| + (if i < |variants| then 0 else 1)
  {
    hide Flatten, Sum, Shielded, Keyed, Distinct;
    var b := BucketIndex(buckets, Url(entry.key));
    if b < |buckets| {
      var variants := buckets[b].entries;
      var rest := buckets[..b] + buckets[b + 1..];
      InBucket(buckets, b);
      MovedFacts(buckets, b, variants);
      MovedFacts(buckets, b, Placed(variants, entry));
      FlattenAt(buckets, b);
      Rotated(Flatten(buckets[..b]), variants, Flatten(buckets[b + 1..]));
      KeyedRest(buckets, b);
      OtherUrls(rest, Url(entry.key));
      PlacedFacts(Flatten(rest), variants, entry);
      SumConcat(Flatten(rest), Placed(variants, entry));
      SumPlaced(variants, entry);
    } else {
      var last := [Bucket(Url(entry.key), [entry])];
      KeyedAppend(buckets, entry);
      FlattenConcat(buckets, last);
      FlattenOne(last[0]);
      OtherUrls(buckets, Url(entry.key));
      assert Flatten(buckets) + [] == Flatten(buckets) && Placed([], entry) == [] + [entry] == [entry];
      PlacedFacts(Flatten(buckets), [], entry);
      SumConcat(Flatten(buckets), [entry]);
      SumOne(entry);
    }
  }

  lemma KeyedAppend(buckets: seq<Bucket>, entry: Entry)
    requires Keyed(buckets) && forall i :: 0 <= i < |buckets| ==> buckets[i].url != Url(entry.key)
    ensures Keyed(buckets + [Bucket(Url(entry.key), [entry])])
  {
    forall i | 0 <= i < |buckets|
      ensures Homes((buckets + [Bucket(Url(entry.key), [entry])])[i])
    {
      assert Homes(buckets[i]);
    }
  }

  lemma SumPlaced(variants: seq<Entry>, entry: Entry)
    ensures var i := FindEntry(entry.key, variants, None);
            Sum(Placed(variants, entry)) == Sum(variants) + entry.size - (if i < |variants| then variants[i].size else 0)
  {
    hide Sum;
    var i := FindEntry(entry.key, variants, None);
    SumOne(entry);
    if i < |variants| {
      SumOne(variants[i]);
      SumUpdated(variants, i, entry);
    } else {
      SumConcat(variants, [entry]);
    }
  }

  lemma SumOne(entry: Entry)
    ensures Sum([entry]) == entry.size && Sum([]) == 0
  {
  }

  lemma {:induction false} SumUpdated(entries: seq<Entry>, i: nat, entry: Entry)
    requires i < |entries|
    ensures Sum(entries[i := entry]) == Sum(entries) - entries[i].size + entry.size
  {
    if i > 0 {
      SumUpdated(entries[1..], i - 1, entry);
      assert entries[i := entry][1..] == entries[1..][i - 1 := entry];
    } else {
      assert entries[0 := entry][1..] == entries[1..];
    }
  }

  /** While a stored entry is unshielded by none, a search for its own key finds exactly it if and only if it
      is fresh and what it varies on is what its own request had. */
  lemma ReadYourWrite(buckets: seq<Bucket>, entry: Entry, now: int)
    requires Keyed(buckets) && Distinct(Flatten(buckets)) && entry in Flatten(buckets) && Shielded(Flatten(buckets), entry)
    ensures FirstMatch(Lookup(buckets, Url(entry.key)), entry.key, Some(now)) == Some(entry)
            <==> entry.deleteAt > now && SameVariant(entry.key.headers, entry.vary)
  {
    var b := BucketOf(buckets, entry);
    LookupAt(buckets, b);
    var variants := buckets[b].entries;
    var i :| 0 <= i < |variants| && variants[i] == entry;
    FlattenAt(buckets, b);
    InBucket(buckets, b);
    OwnBucket(Flatten(buckets[..b]), variants, Flatten(buckets[b + 1..]), i);
    var f := FindEntry(entry.key, variants, Some(now));
    if Matches(entry.key, entry, Some(now)) {
      assert forall k :: 0 <= k < i ==> !Matches(entry.key, variants[k], None);
      assert f == i;
    } else if f < |variants| {
      assert f != i;
    }
  }

  lemma OwnBucket(before: seq<Entry>, variants: seq<Entry>, after: seq<Entry>, i: nat)
    requires i < |variants| && Shielded(before + variants + after, variants[i]) && Distinct(before + variants + after)
    requires forall k :: 0 <= k < |variants| ==> Url(variants[k].key) == Url(variants[i].key)
    ensures forall k :: 0 <= k < i ==> !Matches(variants[i].key, variants[k], None)
    ensures forall k :: 0 <= k < |variants| && k != i ==> variants[k] != variants[i]
  {
    var all := before + variants + after;
    assert forall k :: 0 <= k < |variants| ==> all[|before| + k] == variants[k];
    forall k | 0 <= k < |variants| && k != i
      ensures variants[k] != variants[i]
    {
      assert all[|before| + k].id != all[|before| + i].id;
    }
    forall k | 0 <= k < i
      ensures !Matches(variants[i].key, variants[k], None)
    {
      assert all[|before| + k] == variants[k] && all[|before| + i] == variants[i];
    }
  }

  /** What is stored for the URL of a bucket is what stands in it. */
  lemma InFlat(buckets: seq<Bucket>, b: nat)
    requires b < |buckets| && Keyed(buckets)
    ensures forall e :: e in Flatten(buckets) && Url(e.key) == buckets[b].url <==> e in buckets[b].entries
  {
    FlattenAt(buckets, b);
    InBucket(buckets, b);
    forall e | e in Flatten(buckets) && Url(e.key) == buckets[b].url
      ensures e in buckets[b].entries
    {
      var c := BucketOf(buckets, e);
      assert c == b;
    }
  }

  class MemoryCacheStore {
    const maxCount: nat
    const maxSize: nat
    const maxEntrySize: nat
    var size: int
    var count: int
    var entries: seq<Bucket>
    var nextId: nat

    constructor (maxCount: nat, maxSize: nat, maxEntrySize: nat)
      ensures Valid() && entries == []
      ensures this.maxCount == maxCount && this.maxSize == maxSize && this.maxEntrySize == maxEntrySize
    {
      this.maxCount, this.maxSize, this.maxEntrySize := maxCount, maxSize, maxEntrySize;
      size, count, entries, nextId := 0, 0, [], 0;
    }

    ghost function All(): seq<Entry>
      reads this
    {
      Flatten(entries)
    }

    /** The counters are what they count. */
    ghost predicate Accounted()
      reads this
    {
      size == Sum(All()) && count == |All()|
    }

    ghost predicate Valid()
      reads this
    {
      && Accounted() && Keyed(entries)
      && Distinct(All()) && (forall e :: e in All() ==> e.id < nextId)
      && size <= maxSize && count <= maxCount
    }

    /** The inner loop of #evict over one bucket; `after` are the entries of the later ones. */
    method EvictFrom(bucket: seq<Entry>, keep: Entry, ghost after: seq<Entry>) returns (left: seq<Entry>)
      modifies this`size, this`count
      ensures left + Survivors(after, keep.id, size, count, maxSize, maxCount)
              == Survivors(bucket + after, keep.id, old(size), old(count), maxSize, maxCount)
      ensures size == old(size) - Sum(bucket) + Sum(left) && count == old(count) - |bucket| + |left|
      ensures forall k :: 0 <= k < |left| ==> left[k] in bucket
    {
      hide Survivors, Sum;
      left := bucket;
      var i := 0;
      while i < |left| && Over(size, count, maxSize, maxCount)
        invariant i <= |left|
        invariant left[..i] + Survivors(left[i..] + after, keep.id, size, count, maxSize, maxCount)
                  == Survivors(bucket + after, keep.id, old(size), old(count), maxSize, maxCount)
        invariant size == old(size) - Sum(bucket) + Sum(left) && count == old(count) - |bucket| + |left|
        invariant forall k :: 0 <= k < |left| ==> left[k] in bucket
        decreases |left| - i
      {
        var entry := left[i];
        SurvivorsStep(left, i, after, keep.id, size, count, maxSize, maxCount);
        SumWithout(left, i);
        if entry.id == keep.id {
          i := i + 1;
        } else {
          left := left[..i] + left[i + 1..];
          size := size - entry.size;
          count := count - 1;
        }
      }
      if i == |left| {
        assert left[..i] == left && left[i..] + after == after;
      } else {
        SurvivorsAll(left[i..] + after, keep.id, size, count, maxSize, maxCount);
        SurvivorsAll(after, keep.id, size, count, maxSize, maxCount);
        assert left[..i] + (left[i..] + after) == left + after;
      }
    }

    /** The outer loop of #evict at bucket `b`. */
    method EvictBucket(b: nat, keep: Entry) returns (b': nat)
      requires b < |entries| && Accounted() && Keyed(entries)
      modifies this`size, this`count, this`entries
      ensures Accounted() && Keyed(entries)
      ensures b' <= |entries| && entries[b'..] == old(entries)[b + 1..]
      ensures Flatten(entries[..b']) + Survivors(Flatten(entries[b'..]), keep.id, size, count, maxSize, maxCount)
              == Flatten(old(entries)[..b]) + Survivors(Flatten(old(entries)[b..]), keep.id, old(size), old(count), maxSize, maxCount)
    {
      hide Flatten, Sum, Survivors, Keyed;
      var bucket := entries[b];
      FlattenAt(entries, b);
      InBucket(entries, b);
      var left := EvictFrom(bucket.entries, keep, Flatten(entries[b + 1..]));
      ReplacedFacts(entries, b, left);
      if left == [] {
        entries := entries[..b] + entries[b + 1..];
        b' := b;
      } else {
        entries := entries[b := Bucket(bucket.url, left)];
        b' := b + 1;
      }
    }

    /** #evict */
    method Evict(keep: Entry)
      requires Accounted() && Keyed(entries) && Distinct(All()) && keep in All()
      modifies this`size, this`count, this`entries
      ensures Accounted() && Keyed(entries)
      ensures All() == Evicted(old(All()), keep, maxSize, maxCount)
    {
      hide Flatten, Sum, Survivors, Keyed;
      SurvivorsAreSome(All(), keep.id, size, count, maxSize, maxCount);
      EvictBuckets(keep);
      if size > maxSize || count > maxCount {
        Remove(keep);
      }
    }

    /** The loop over the buckets, from the oldest on. */
    method EvictBuckets(keep: Entry)
      requires Accounted() && Keyed(entries) && Distinct(All()) && keep in All()
      modifies this`size, this`count, this`entries
      ensures Accounted() && Keyed(entries)
      ensures All() == Survivors(old(All()), keep.id, old(size), old(count), maxSize, maxCount)
    {
      hide Flatten, Sum, Survivors, Keyed;
      ghost var all, size0, count0 := All(), size, count;
      var b: nat := 0;
      assert Flatten(entries[..0]) + Survivors(Flatten(entries[0..]), keep.id, size, count, maxSize, maxCount)
          == Survivors(all, keep.id, size0, count0, maxSize, maxCount) by {
        NothingFirst(entries);
      }
      while b < |entries|
        invariant b <= |entries| && Accounted() && Keyed(entries)
        invariant Flatten(entries[..b]) + Survivors(Flatten(entries[b..]), keep.id, size, count, maxSize, maxCount)
                  == Survivors(all, keep.id, size0, count0, maxSize, maxCount)
        decreases |entries| - b
      {
        b := EvictBucket(b, keep);
        if !Over(size, count, maxSize, maxCount) {
          break;
        }
      }
      DoneAt(entries, b, keep.id, size, count, maxSize, maxCount);
    }

    /** An entry is taken out of its bucket, and with the last one its bucket. */
    method Remove(keep: Entry)
      requires Accounted() && Keyed(entries) && Distinct(All()) && keep in All()
      modifies this`size, this`count, this`entries
      ensures Accounted() && Keyed(entries)
      ensures All() == Others(old(All()), keep.id)
    {
      hide Sum, Survivors;
      var b, i := Locate(keep);
      var bucket := entries[b].entries;
      RemovedAt(entries, b, i);
      SumWithout(bucket, i);
      InBucket(entries, b);
      var left := bucket[..i] + bucket[i + 1..];
      ReplacedFacts(entries, b, left);
      size := size - keep.size;
      count := count - 1;
      if |left| == 0 {
        entries := entries[..b] + entries[b + 1..];
      } else {
        entries := entries[b := Bucket(entries[b].url, left)];
      }
    }

    /** #entries.get(topLevelKey), and indexOf in it. */
    method Locate(keep: Entry) returns (b: nat, i: nat)
      requires Keyed(entries) && keep in All()
      ensures b < |entries| && i < |entries[b].entries| && entries[b].entries[i] == keep
    {
      ghost var home := BucketOf(entries, keep);
      b := 0;
      while entries[b].url != Url(keep.key)
        invariant b <= home
        decreases home - b
      {
        b := b + 1;
      }
      i := 0;
      while entries[b].entries[i] != keep
        invariant i < |entries[b].entries| && keep in entries[b].entries[i..]
        decreases |entries[b].entries| - i
      {
        i := i + 1;
      }
    }

    /** #entries.get: the bucket of a URL; |entries| if there is none. */
    method FindBucket(url: string) returns (b: nat)
      ensures b == BucketIndex(entries, url)
    {
      b := 0;
      while b < |entries| && entries[b].url != url
        invariant b <= BucketIndex(entries, url)
      {
        b := b + 1;
      }
    }

    /** findEntry */
    method Find(key: CacheKey, variants: seq<Entry>, now: Option<int>) returns (i: nat)
      ensures i == FindEntry(key, variants, now)
    {
      i := 0;
      while i < |variants| && !Matches(key, variants[i], now)
        invariant i <= FindEntry(key, variants, now)
      {
        i := i + 1;
      }
    }

    /** The `final` of a write stream: the response is stored as the most recent one, in place of the first
        variant that matched its request, and if a limit is passed the oldest ones go. */
    method Store(entry: Entry)
      requires Valid() && entry.id == nextId
      modifies this`size, this`count, this`entries, this`nextId
      ensures Valid() && nextId == old(nextId) + 1
      ensures var all := Flatten(Written(old(entries), entry));
              All() == if Sum(all) > maxSize || |all| > maxCount then Evicted(all, entry, maxSize, maxCount) else all
      ensures entry in All() <==> entry.size <= maxSize && maxCount >= 1
      ensures entry in All() ==> Shielded(All(), entry)
    {
      hide Flatten, Sum, Survivors, Shielded, Keyed, Written;
      WrittenFacts(entries, entry);
      ghost var all := Flatten(Written(entries, entry));
      Sizes(all, entry);
      Place(entry);
      nextId := nextId + 1;
      if size > maxSize || count > maxCount {
        var _ := EvictedWithinLimits(all, entry, maxSize, maxCount);
        EvictedIsPart(all, entry, maxSize, maxCount);
        Evict(entry);
      }
    }

    /** The entry takes its place in the bucket of its URL, and the bucket becomes the most recent one. */
    method Place(entry: Entry)
      modifies this`size, this`count, this`entries
      ensures entries == Written(old(entries), entry)
      ensures var b := BucketIndex(old(entries), Url(entry.key));
              var variants := if b < |old(entries)| then old(entries)[b].entries else [];
              var i := FindEntry(entry.key, variants, None);
              && size == old(size) + entry.size - (if i < |variants| then variants[i].size else 0)
              && count == old(count) + (if i < |variants| then 0 else 1)
    {
      var url := Url(entry.key);
      var b := FindBucket(url);
      var variants := if b < |entries| then entries[b].entries else [];
      var i := Find(entry.key, variants, None);
      ghost var placed := Placed(variants, entry);
      if i < |variants| {
        size := size - variants[i].size;
        variants := variants[i := entry];
      } else {
        variants := variants + [entry];
        count := count + 1;
      }
      assert variants == placed;
      if b < |entries| {
        entries := entries[..b] + entries[b + 1..] + [Bucket(url, variants)];
      } else {
        assert variants == [entry];
        entries := entries + [Bucket(url, variants)];
      }
      size := size + entry.size;
    }

    /** get: the first fresh variant that matches; a hit makes its URL the most recent one, and changes
        nothing that is stored. */
    method Get(key: CacheKey, now: int) returns (r: Option<Entry>)
      requires Valid()
      modifies this`entries
      ensures Valid()
      ensures r == FirstMatch(Lookup(old(entries), Url(key)), key, Some(now))
      ensures r.Some? ==>
                && r.value in old(All()) && r.value.key.origin + ":" + r.value.key.path == key.origin + ":" + key.path
                && r.value.deleteAt > now && r.value.key.method' == key.method'
                && SameVariant(key.headers, r.value.vary)
      ensures r.None? ==>
                forall e :: e in old(All()) && e.key.origin + ":" + e.key.path == key.origin + ":" + key.path ==>
                  e.deleteAt <= now || e.key.method' != key.method' || !SameVariant(key.headers, e.vary)
      ensures r.None? ==> entries == old(entries)
      ensures forall url :: Lookup(entries, url) == Lookup(old(entries), url)
      ensures forall e :: e in All() <==> e in old(All())
      ensures r.Some? ==> entries[|entries| - 1].url == Url(key) && r.value in entries[|entries| - 1].entries
    {
      hide Flatten, Sum, Lookup;
      var b := FindBucket(Url(key));
      if b == |entries| {
        LookupNone(entries, Url(key));
        OtherUrls(entries, Url(key));
        return None;
      }
      LookupAt(entries, b);
      var variants := entries[b].entries;
      var i := Find(key, variants, Some(now));
      InBucket(entries, b);
      InFlat(entries, b);
      if i == |variants| {
        return None;
      }
      MovedFacts(entries, b, variants);
      FlattenAt(entries, b);
      ghost var x, y := Flatten(entries[..b]), Flatten(entries[b + 1..]);
      Rotated(x, variants, y);
      SumConcat(x + y, variants);
      forall url
        ensures Lookup(Moved(entries, b, variants), url) == Lookup(entries, url)
      {
        LookupMoved(entries, b, variants, url);
      }
      entries := entries[..b] + entries[b + 1..] + [entries[b]];
      return Some(variants[i]);
    }

    /** delete: everything stored for a URL, and nothing else. */
    method Delete(key: CacheKey)
      requires Valid()
      modifies this`size, this`count, this`entries
      ensures Valid()
      ensures var b := BucketIndex(old(entries), Url(key));
              entries == if b < |old(entries)| then old(entries)[..b] + old(entries)[b + 1..] else old(entries)
    {
      hide Flatten, Sum, Keyed;
      var b := FindBucket(Url(key));
      if b == |entries| {
        return;
      }
      var variants := entries[b].entries;
      ReplacedFacts(entries, b, []);
      FlattenAt(entries, b);
      MovedApart(Flatten(entries[..b]), variants, Flatten(entries[b + 1..]));
      FlattenConcat(entries[..b], entries[b + 1..]);
      SumNil();
      Subtract(variants);
      entries := entries[..b] + entries[b + 1..];
    }

    /** The loop of `delete`. */
    method Subtract(variants: seq<Entry>)
      modifies this`size, this`count
      ensures size == old(size) - Sum(variants) && count == old(count) - |variants|
    {
      for i := 0 to |variants|
        invariant size == old(size) - Sum(variants[..i]) && count == old(count) - i
      {
        assert variants[..i + 1] == variants[..i] + [variants[i]];
        SumConcat(variants[..i], [variants[i]]);
        assert Sum([variants[i]]) == variants[i].size;
        size := size - variants[i].size;
        count := count - 1;
      }
      assert variants[..|variants|] == variants;
    }
  }

  lemma SumNil()
    ensures Sum([]) == 0
  {
  }

  lemma MovedApart(x: seq<Entry>, m: seq<Entry>, y: seq<Entry>)
    requires Distinct(x + m + y)
    ensures Distinct(x + y) && forall e :: e in x + y ==> e in x + m + y
  {
    var s, t := x + m + y, x + y;
    assert forall k :: 0 <= k < |t| ==> t[k] == s[if k < |x| then k else k + |m|];
  }

  /** The bytes of a body. */
  function Length(chunks: seq<string>): nat {
    if chunks == [] then 0 else Length(chunks[..|chunks| - 1]) + |chunks[|chunks| - 1]|
  }

  /** createWriteStream: collects a body, and gives up once it is too long for one entry. */
  class WriteStream {
    const store: MemoryCacheStore
    const key: CacheKey
    const vary: Option<map<string, HeaderValue>>
    const deleteAt: int
    var body: seq<string>
    var size: nat
    var destroyed: bool

    constructor (store: MemoryCacheStore, key: CacheKey, vary: Option<map<string, HeaderValue>>, deleteAt: int)
      ensures this.store == store && this.key == key && this.vary == vary && this.deleteAt == deleteAt
      ensures Valid() && body == [] && !destroyed
    {
      this.store, this.key, this.vary, this.deleteAt := store, key, vary, deleteAt;
      body, size, destroyed := [], 0, false;
    }

    ghost predicate Valid()
      reads this
    {
      !destroyed ==> size == Length(body) <= store.maxEntrySize
    }

    method Write(chunk: string)
      requires Valid() && !destroyed
      modifies this
      ensures Valid() && destroyed == (old(size) + |chunk| > store.maxEntrySize)
      ensures !destroyed ==> body == old(body) + [chunk]
    {
      size := size + |chunk|;
      if size > store.maxEntrySize {
        destroyed := true;
      } else {
        assert (body + [chunk])[..|body|] == body;
        body := body + [chunk];
      }
    }

    /** final */
    method Final() returns (entry: Entry)
      requires Valid() && !destroyed && store.Valid()
      modifies store
      ensures store.Valid() && entry == Entry(old(store.nextId), key, vary, deleteAt, body, size)
      ensures var all := Flatten(Written(old(store.entries), entry));
              Sum(all) <= store.maxSize && |all| <= store.maxCount ==> store.All() == all
      ensures entry in store.All() <==> size <= store.maxSize && store.maxCount >= 1
      ensures entry in store.All() ==> Shielded(store.All(), entry)
    {
      entry := Entry(store.nextId, key, vary, deleteAt, body, size);
      store.Store(entry);
    }
  }

  /** A response written and asked for again under its own key, whatever else the store holds and whatever
      other variants share its URL: if its body fits the limits, it comes back exactly if it is fresh and
      what it varies on is what its own request had. */
  method WriteThenGet(store: MemoryCacheStore, key: CacheKey, vary: Option<map<string, HeaderValue>>, deleteAt: int,
                      chunks: seq<string>, now: int) returns (r: Option<Entry>, ghost entry: Entry)
    requires store.Valid()
    modifies store
    ensures store.Valid()
    ensures Length(chunks) <= store.maxEntrySize && Length(chunks) <= store.maxSize && store.maxCount >= 1 ==>
              && entry.body == chunks && entry.vary == vary && entry.deleteAt == deleteAt
              && (r == Some(entry) <==> deleteAt > now && SameVariant(key.headers, vary))
  {
    var stream := new WriteStream(store, key, vary, deleteAt);
    entry := Entry(0, key, vary, deleteAt, [], 0);
    for i := 0 to |chunks|
      invariant stream.Valid() && !stream.destroyed && stream.body == chunks[..i] && store.Valid()
      invariant fresh(stream)
    {
      assert chunks[..i + 1][..i] == chunks[..i];
      LengthGrows(chunks, i + 1);
      stream.Write(chunks[i]);
      assert chunks[..i] + [chunks[i]] == chunks[..i + 1];
      if stream.destroyed {
        return None, entry;
      }
    }
    assert chunks[..|chunks|] == chunks;
    entry := stream.Final();
    if Length(chunks) <= store.maxSize && store.maxCount >= 1 {
      ReadYourWrite(store.entries, entry, now);
    }
    r := store.Get(key, now);
  }

  /** A page kept gzipped, and varying on that: who accepts gzip gets it, who accepts br does not. */
  method OtherEncoding() returns (gzip: Option<Entry>, br: Option<Entry>)
    ensures gzip.Some? && gzip.value.body == ["zip"] && br.None?
  {
    hide Flatten, Sum, Survivors, Shielded, Keyed, Written, Distinct;
    var store := new MemoryCacheStore(1024, 1000000, 500000);
    var accepts, vary := map["accept-encoding" := One("gzip")], Some(map["accept-encoding" := One("gzip")]);
    var key := CacheKey("http://a", "/", "GET", accepts);
    assert accepts["accept-encoding"] == One("gzip") && |"gzip"| != |"br"|;
    var stream := new WriteStream(store, key, vary, 10);
    stream.Write("zip");
    WrittenFirst(Entry(store.nextId, key, vary, 10, stream.body, stream.size));
    var entry := stream.Final();
    gzip := store.Get(key, 5);
    br := store.Get(key.(headers := map["accept-encoding" := One("br")]), 5);
  }

  lemma WrittenFirst(entry: Entry)
    ensures Flatten(Written([], entry)) == [entry] && Sum([entry]) == entry.size
  {
    FlattenOne(Bucket(Url(entry.key), [entry]));
    SumOne(entry);
  }

  lemma {:induction false} LengthGrows(chunks: seq<string>, n: nat)
    requires n <= |chunks|
    ensures Length(chunks[..n]) <= Length(chunks)
  {
    if n < |chunks| {
      var init := chunks[..|chunks| - 1];
      assert chunks[..n] == init[..n];
      LengthGrows(init, n);
    } else {
      assert chunks[..n] == chunks;
    }
  }

  lemma NothingFirst(buckets: seq<Bucket>)
    ensures Flatten(buckets[..0]) + Flatten(buckets[0..]) == Flatten(buckets) && Flatten(buckets[..0]) == []
    ensures buckets[0..] == buckets
  {
    assert buckets[..0] == [];
  }

  /** When both targets hold or the buckets are used up, what is left is what survives. */
  lemma DoneAt(buckets: seq<Bucket>, b: nat, keep: nat, size: int, count: int, maxSize: nat, maxCount: nat)
    requires b <= |buckets|
    requires b == |buckets| || !Over(size, count, maxSize, maxCount)
    ensures Flatten(buckets[..b]) + Survivors(Flatten(buckets[b..]), keep, size, count, maxSize, maxCount) == Flatten(buckets)
  {
    FlattenConcat(buckets[..b], buckets[b..]);
    assert buckets == buckets[..b] + buckets[b..];
  }

  lemma {:induction false} BucketOf(buckets: seq<Bucket>, e: Entry) returns (b: nat)
    requires Keyed(buckets) && e in Flatten(buckets)
    ensures b < |buckets| && e in buckets[b].entries && buckets[b].url == Url(e.key)
  {
    b := |buckets| - 1;
    if e in buckets[b].entries {
      assert Homes(buckets[b]);
    } else {
      assert Keyed(buckets[..b]) by {
        forall i | 0 <= i < b
          ensures Homes(buckets[..b][i])
        {
          assert Homes(buckets[i]);
        }
      }
      b := BucketOf(buckets[..b], e);
    }
  }

  /** Taking one position out of one bucket is leaving one entry out of the flat list. */
  lemma RemovedAt(buckets: seq<Bucket>, b: nat, i: nat)
    requires b < |buckets| && i < |buckets[b].entries| && Distinct(Flatten(buckets)) && Keyed(buckets)
    ensures var bucket := buckets[b].entries;
            Flatten(Replaced(buckets, b, bucket[..i] + bucket[i + 1..])) == Others(Flatten(buckets), bucket[i].id)
  {
    hide Flatten;
    var bucket := buckets[b].entries;
    var before, after := Flatten(buckets[..b]), Flatten(buckets[b + 1..]);
    var left := bucket[..i] + bucket[i + 1..];
    FlattenAt(buckets, b);
    var all, k := Flatten(buckets), |Flatten(buckets[..b])| + i;
    OthersAt(all, k);
    assert all[..k] + all[k + 1..] == before + left + after;
    InBucket(buckets, b);
    ReplacedFacts(buckets, b, left);
    var buckets' := Replaced(buckets, b, left);
    var b' := if left == [] then b else b + 1;
    assert buckets' == buckets'[..b'] + buckets'[b'..];
    FlattenConcat(buckets'[..b'], buckets'[b'..]);
  }

  lemma SurvivorsAll(entries: seq<Entry>, keep: nat, size: int, count: int, maxSize: nat, maxCount: nat)
    requires !Over(size, count, maxSize, maxCount)
    ensures Survivors(entries, keep, size, count, maxSize, maxCount) == entries
  {
  }

  lemma SurvivorsHead(head: Entry, tail: seq<Entry>, keep: nat, size: int, count: int, maxSize: nat, maxCount: nat)
    requires Over(size, count, maxSize, maxCount)
    ensures Survivors([head] + tail, keep, size, count, maxSize, maxCount) ==
            if head.id == keep then [head] + Survivors(tail, keep, size, count, maxSize, maxCount)
            else Survivors(tail, keep, size - head.size, count - 1, maxSize, maxCount)
  {
    assert ([head] + tail)[1..] == tail;
  }

  /** One turn of the loop is one step of the specification. */
  lemma SurvivorsStep(left: seq<Entry>, i: nat, after: seq<Entry>, keep: nat, size: int, count: int, maxSize: nat, maxCount: nat)
    requires i < |left| && Over(size, count, maxSize, maxCount)
    ensures var next := left[..i] + left[i + 1..];
            left[..i] + Survivors(left[i..] + after, keep, size, count, maxSize, maxCount) ==
            if left[i].id == keep then left[..i + 1] + Survivors(left[i + 1..] + after, keep, size, count, maxSize, maxCount)
            else next[..i] + Survivors(next[i..] + after, keep, size - left[i].size, count - 1, maxSize, maxCount)
  {
    var tail := left[i + 1..] + after;
    SurvivorsHead(left[i], tail, keep, size, count, maxSize, maxCount);
    hide Survivors;
    assert left[i..] + after == [left[i]] + tail;
    assert (left[..i] + left[i + 1..])[..i] == left[..i] && (left[..i] + left[i + 1..])[i..] == left[i + 1..];
    assert left[..i] + [left[i]] == left[..i + 1];
    if left[i].id == keep {
      var s := Survivors(tail, keep, size, count, maxSize, maxCount);
      assert left[..i] + ([left[i]] + s) == left[..i] + [left[i]] + s;
    }
  }

  lemma SumWithout(entries: seq<Entry>, i: nat)
    requires i < |entries|
    ensures Sum(entries[..i] + entries[i + 1..]) == Sum(entries) - entries[i].size
  {
    hide Sum;
    SumOne(entries[i]);
    assert entries == entries[..i] + [entries[i]] + entries[i + 1..];
    SumConcat(entries[..i] + [entries[i]], entries[i + 1..]);
    SumConcat(entries[..i], [entries[i]]);
    SumConcat(entries[..i], entries[i + 1..]);
  }
}
