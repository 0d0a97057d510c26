/** lib/dispatcher/round-robin-pool.js, with the parts of pool-base.js it uses: rotation over clients of which
some expire while they are looked through. */
module RoundRobinPool {
  import opened Wrappers

  /** `ttl` is when the client connected, if the pool sets a time to live. */
  datatype Client = Client(id: nat, ttl: Option<nat>, needDrain: bool, closed: bool, destroyed: bool) {
    /** 0 counts as no time. */
    predicate Expired(clientTtl: Option<int>, now: nat) {
      && clientTtl.Some? && clientTtl.value > 0
      && ttl.Some? && ttl.value != 0 && now - ttl.value > clientTtl.value
    }

    /** It connected longer ago than a client may live. */
    ghost predicate Overdue(clientTtl: Option<int>, now: nat) {
      clientTtl.Some? && clientTtl.value > 0 && ttl.Some? && ttl.value > 0 && ttl.value + clientTtl.value < now
    }

    predicate Free() {
      !needDrain && !closed && !destroyed
    }
  }

  /** The clients that have not expired, in order. */
  function Fresh(s: seq<Client>, clientTtl: Option<int>, now: nat): seq<Client> {
    if s == [] then []
    else Fresh(s[..|s| - 1], clientTtl, now) + if s[|s| - 1].Expired(clientTtl, now) then [] else [s[|s| - 1]]
  }

  /** The first client that may be used; |s| if there is none. */
  function FirstUsable(s: seq<Client>, clientTtl: Option<int>, now: nat): (k: nat)
    ensures k <= |s|
  {
    if s == [] || (!s[0].Expired(clientTtl, now) && !s[0].needDrain) then 0 else 1 + FirstUsable(s[1..], clientTtl, now)
  }

  /** It may be used, and those before it may not. */
  lemma {:induction false} FirstUsableIsFirst(s: seq<Client>, clientTtl: Option<int>, now: nat)
    ensures var k := FirstUsable(s, clientTtl, now);
            && (k < |s| ==> !s[k].Expired(clientTtl, now) && !s[k].needDrain)
            && forall i :: 0 <= i < k ==> s[i].Expired(clientTtl, now) || s[i].needDrain
  {
    if s != [] && (s[0].Expired(clientTtl, now) || s[0].needDrain) {
      FirstUsableIsFirst(s[1..], clientTtl, now);
      assert forall i :: 1 <= i < |s| ==> s[i] == s[1..][i - 1];
    }
  }

  /** The list as it comes round, from position k on. */
  function Rotated<T>(s: seq<T>, k: nat): (r: seq<T>)
    requires k <= |s|
    ensures |r| == |s|
  {
    s[k..] + s[..k]
  }

  /** The position after `index`, round the list. */
  function NextIndex(index: int, n: nat): (next: nat)
    requires n > 0 && -1 <= index
    ensures next < n
    ensures index < n ==> next == if index + 1 < n then index + 1 else 0
  {
    (index + 1) % n
  }

  class RoundRobinPool {
    const connections: Option<nat>
    const clientTtl: Option<int>
    var clients: seq<Client>
    var index: int
    var needDrain: bool
    /** Taken out of rotation, and closing. */
    var retiring: seq<Client>
    var created: nat

    /** `connections || null`: no limit for 0. */
    constructor (connections: Option<nat>, clientTtl: Option<int>)
      ensures Valid() && clients == [] && index == -1 && retiring == [] && !needDrain && created == 0
      ensures this.connections == if connections == Some(0) then None else connections
      ensures this.clientTtl == clientTtl
    {
      this.connections := if connections == Some(0) then None else connections;
      this.clientTtl := clientTtl;
      clients, index, needDrain, retiring, created := [], -1, false, [], 0;
    }

    ghost predicate Valid()
      reads this
      ensures Valid() ==> -1 <= index
    {
      && connections != Some(0) && -1 <= index
      && (forall i, j :: 0 <= i < j < |clients| ==> clients[i].id != clients[j].id)
      && (forall i :: 0 <= i < |clients| ==> clients[i].id < created)
    }

    predicate AtLimit()
      reads this
    {
      connections.Some? && |clients| >= connections.value
    }

    /** kRetireClient, for the client at a position. The index stays where it is, perhaps past the end. */
    method Retire(i: nat)
      requires Valid() && i < |clients|
      modifies this`clients, this`retiring
      ensures Valid() && clients == old(clients)[..i] + old(clients)[i + 1..]
      ensures retiring == old(retiring) + if old(clients)[i].destroyed || old(clients)[i] in old(retiring) then [] else [old(clients)[i]]
    {
      var client := clients[i];
      clients := clients[..i] + clients[i + 1..];
      if client.destroyed || client in retiring {
        return;
      }
      retiring := retiring + [client];
    }

    /** kRemoveClient: it retires, and the pool needs drain if no client is left free. */
    method RemoveAt(i: nat)
      requires Valid() && i < |clients|
      modifies this`clients, this`retiring, this`needDrain
      ensures Valid() && clients == old(clients)[..i] + old(clients)[i + 1..]
      ensures retiring == old(retiring) + if old(clients)[i].destroyed || old(clients)[i] in old(retiring) then [] else [old(clients)[i]]
      ensures needDrain <==> forall k :: 0 <= k < |clients| ==> clients[k].needDrain || clients[k].closed || clients[k].destroyed
    {
      Retire(i);
      needDrain := !(exists k :: 0 <= k < |clients| && clients[k].Free());
    }

    /** The factory's new client. */
    method AddClient() returns (client: Client)
      requires Valid()
      modifies this`clients, this`created
      ensures Valid() && clients == old(clients) + [client] && client == Client(old(created), None, false, false, false)
      ensures created == old(created) + 1
    {
      client := Client(created, None, false, false, false);
      clients := clients + [client];
      created := created + 1;
    }

    /** The client at the index is expired and leaves. */
    method Drop(ghost ahead: seq<Client>, ghost behind: seq<Client>)
      requires Valid() && 0 <= index < |clients| && ahead != [] && Rotated(clients, index) == ahead + behind
      modifies this`clients, this`index, this`retiring, this`needDrain
      ensures Valid() && index < |clients| && |clients| == |old(clients)| - 1
      ensures Rotated(clients, index + 1) == ahead[1..] + behind
    {
      hide Rotated;
      RotatedRemove(clients, index, ahead, behind);
      RemoveAt(index);
      index := index - 1;
    }

    /** A turn of the loop of kGetDispatcher: the next client in the rotation is taken, leaves, or is passed over. */
    method Look(now: nat, ghost ahead: seq<Client>, ghost behind: seq<Client>, ghost first: bool) returns (found: bool, expired: bool)
      requires Valid() && clients != [] && ahead != [] && |ahead| + |behind| == |clients|
      requires if first then behind == [] && Rotated(clients, NextIndex(index, |clients|)) == ahead
               else index < |clients| && Rotated(clients, index + 1) == ahead + behind
      modifies this`clients, this`index, this`retiring, this`needDrain
      ensures Valid() && expired == ahead[0].Expired(clientTtl, now) && (found <==> !expired && !ahead[0].needDrain)
      ensures found ==> 0 <= index < |clients| && clients[index] == ahead[0] && Rotated(clients, index) == ahead + behind
      ensures !found ==> index < |clients| && |clients| == |old(clients)| - (if expired then 1 else 0)
                         && Rotated(clients, index + 1) == ahead[1..] + if expired then behind else behind + [ahead[0]]
    {
      hide NextIndex, Rotated;
      NextInTurn(clients, index, ahead, behind, first);
      index := NextIndex(index, |clients|);
      var client := clients[index];
      if client.Expired(clientTtl, now) {
        Drop(ahead, behind);
        return false, true;
      }
      if !client.needDrain {
        return true, false;
      }
      RotatedNext(clients, index, ahead, behind);
      return false, false;
    }

    /** The loop of kGetDispatcher over the rotation `r`, with how far it came: up to a client that may be used, or all
        the way round. Those passed over have expired and left, or stand last now, in order. */
    method Scan(now: nat, ghost r: seq<Client>) returns (found: bool, ghost v: nat)
      requires Valid() && clients != [] && r == Rotated(clients, NextIndex(index, |clients|))
      modifies this`clients, this`index, this`retiring, this`needDrain
      ensures Valid() && v == FirstUsable(r, clientTtl, now) && (found <==> v < |r|)
      ensures found ==> 0 <= index < |clients| && clients[index] == r[v]
                        && Rotated(clients, index) == r[v..] + Fresh(r[..v], clientTtl, now)
      ensures !found ==> index < |clients| && Rotated(clients, index + 1) == Fresh(r, clientTtl, now)
    {
      hide Valid, Fresh, NextIndex, FirstUsable, Rotated, Turned;
      var checked := 0;
      ghost var seen := [];
      Begun(r, now);
      while checked < |clients|
        invariant Valid() && |seen| <= |r| && Turned(r, seen, checked, now)
        decreases |clients| - checked
      {
        var expired;
        found, expired := Turn(now, r, seen, checked);
        if found {
          return true, |seen|;
        }
        seen := r[..|seen| + 1];
        if !expired {
          checked := checked + 1;
        }
      }
      Ended(r, seen, checked, now);
      return false, |r|;
    }

    /** The list and the index, when the clients in `seen` have been looked at and `checked` of them are still there. */
    ghost predicate Turned(r: seq<Client>, seen: seq<Client>, checked: nat, now: nat)
      reads `clients, `index
    {
      && -1 <= index && seen <= r && PassedOver(seen, clientTtl, now) && checked == |Fresh(seen, clientTtl, now)|
      && |r| - |seen| + checked == |clients|
      && if seen == [] then clients != [] && r == Rotated(clients, NextIndex(index, |clients|))
         else index < |clients| && Rotated(clients, index + 1) == r[|seen|..] + Fresh(seen, clientTtl, now)
    }

    lemma Begun(r: seq<Client>, now: nat)
      requires -1 <= index && clients != [] && r == Rotated(clients, NextIndex(index, |clients|))
      ensures Turned(r, [], 0, now)
    {
    }

    lemma Ended(r: seq<Client>, seen: seq<Client>, checked: nat, now: nat)
      requires Turned(r, seen, checked, now) && checked >= |clients|
      ensures FirstUsable(r, clientTtl, now) == |r|
      ensures 0 <= index + 1 <= |clients| && Rotated(clients, index + 1) == Fresh(r, clientTtl, now)
    {
      Stopped(seen, [], clientTtl, now);
      assert r == seen && r[|seen|..] == [] && seen + [] == seen;
      assert [] + Fresh(seen, clientTtl, now) == Fresh(seen, clientTtl, now);
    }

    /** A turn of the loop, with what it means for the whole rotation. */
    method Turn(now: nat, ghost r: seq<Client>, ghost seen: seq<Client>, ghost checked: nat) returns (found: bool, expired: bool)
      requires Valid() && Turned(r, seen, checked, now) && checked < |clients|
      modifies this`clients, this`index, this`retiring, this`needDrain
      ensures Valid() && |seen| < |r|
      ensures if found then
                && |seen| == FirstUsable(r, clientTtl, now) && 0 <= index < |clients| && clients[index] == r[|seen|]
                && Rotated(clients, index) == r[|seen|..] + Fresh(r[..|seen|], clientTtl, now)
              else Turned(r, r[..|seen| + 1], checked + (if expired then 0 else 1), now)
      ensures !found ==> |clients| == |old(clients)| - if expired then 1 else 0
    {
      hide Valid, Fresh, NextIndex, FirstUsable, Rotated, PassedOver;
      ghost var ahead, behind := r[|seen|..], Fresh(seen, clientTtl, now);
      Apart(r, seen);
      Behind(seen, clientTtl, now);
      found, expired := Look(now, ahead, behind, seen == []);
      if found {
        Stopped(seen, ahead, clientTtl, now);
      } else {
        PassedMore(seen, ahead[0], ahead, clientTtl, now);
      }
    }

    /** kGetDispatcher. Looking from where the last call stopped, the first client that is neither expired nor in
        need of drain is taken. Without one, a client is created, unless as many as the limit allows are left. */
    method GetDispatcher(now: nat) returns (dispatcher: Option<Client>)
      requires Valid()
      modifies this`clients, this`index, this`retiring, this`needDrain, this`created
      ensures Valid() && clients != []
      ensures dispatcher.Some? ==> dispatcher.value in clients && !dispatcher.value.needDrain
      ensures old(clients) != [] ==>
                var r := Rotated(old(clients), NextIndex(old(index), |old(clients)|));
                var v := FirstUsable(r, clientTtl, now);
                if v < |r| then
                  && dispatcher == Some(r[v]) && 0 <= index < |clients| && clients[index] == r[v]
                  && Rotated(clients, index) == r[v..] + Fresh(r[..v], clientTtl, now) && created == old(created)
                else
                  var left := if dispatcher.None? then clients else clients[..|clients| - 1];
                  && index < |left| && Rotated(left, index + 1) == Fresh(r, clientTtl, now)
                  && (dispatcher.None? <==> connections.Some? && |left| >= connections.value)
                  && (dispatcher.Some? ==> clients == left + [dispatcher.value] && dispatcher.value.id == old(created))
      ensures dispatcher.None? ==> AtLimit() && forall i :: 0 <= i < |clients| ==> clients[i].needDrain
      ensures dispatcher.Some? ==> !dispatcher.value.Overdue(clientTtl, now)
      ensures forall c :: c in old(clients) && c !in clients ==> c.Overdue(clientTtl, now)
      ensures dispatcher.None? || dispatcher.value !in old(clients) ==> forall c :: c in clients ==> !c.Overdue(clientTtl, now)
    {
      hide NextIndex, Fresh, FirstUsable, Rotated;
      if |clients| == 0 {
        var client := AddClient();
        return Some(client);
      }
      ghost var r := Rotated(clients, NextIndex(index, |clients|));
      var found;
      ghost var v;
      found, v := Scan(now, r);
      FirstUsableIsFirst(r, clientTtl, now);
      RotatedMembers(old(clients), NextIndex(old(index), |old(clients)|));
      assert r[|r|..] == [] && r[..|r|] == r && [] + Fresh(r, clientTtl, now) == Fresh(r, clientTtl, now);
      GoneAreExpired(r, v, clientTtl, now, clients, if found then index else index + 1);
      if found {
        return Some(clients[index]);
      }
      AllBusy(r, clientTtl, now, clients, index + 1);
      if !AtLimit() {
        var client := AddClient();
        return Some(client);
      }
      return None;
    }

    /** kHasDispatcher. Clients that have expired leave up to the first one that may be used; if there is none, one is
        created unless as many as the limit allows are left. The rotation keeps its place: what had its turn still
        stands up to the index, and what comes next behind it. */
    method HasDispatcher(now: nat) returns (has: bool)
      requires Valid()
      modifies this`clients, this`index, this`retiring, this`needDrain, this`created
      ensures Valid()
      ensures var s := old(clients); var v := FirstUsable(s, clientTtl, now); var left := Left(s, v, |s|, clientTtl, now);
              && (if v < |s| then has && clients == left
                  else if connections.Some? && |left| >= connections.value then !has && clients == left
                  else has && |clients| == |left| + 1 && clients[..|left|] == left && !clients[|left|].needDrain)
              && (old(index) < |s| ==> index + 1 == |Left(s, v, old(index) + 1, clientTtl, now)|)
    {
      hide Valid, Fresh, FirstUsable, PassedOver, Left, InStep;
      ghost var s := clients;
      ghost var v := 0;
      var i: nat := 0;
      Unseen(now);
      while i < |clients|
        invariant Valid() && v <= |s| && PassedOver(s[..v], clientTtl, now)
        invariant InStep(s, v, old(index), i, now) && i + (|s| - v) == |clients|
        decreases |clients| - i
      {
        InPlace(s, v, old(index), i, now);
        Split(s, v, clientTtl, now);
        var usable;
        usable, i := Pass(now, s, v, old(index), i);
        if usable {
          return true;
        }
        v := v + 1;
      }
      Split(s, v, clientTtl, now);
      InPlace(s, v, old(index), i, now);
      if !AtLimit() {
        var _ := AddClient();
        return true;
      }
      return false;
    }

    /** The list and the two positions, when the first `v` clients of `s` have been looked at. */
    ghost predicate InStep(s: seq<Client>, v: nat, index0: int, i: nat, now: nat)
      requires v <= |s| && -1 <= index0
      reads `clients, `index
    {
      && clients == Left(s, v, |s|, clientTtl, now) && i == |Fresh(s[..v], clientTtl, now)|
      && (index0 < |s| ==> index + 1 == |Left(s, v, index0 + 1, clientTtl, now)|)
    }

    lemma Unseen(now: nat)
      requires -1 <= index
      ensures PassedOver(clients[..0], clientTtl, now) && InStep(clients, 0, index, 0, now)
    {
      NothingSeen(clients, clientTtl, now);
      assert clients[..|clients|] == clients;
    }

    lemma InPlace(s: seq<Client>, v: nat, index0: int, i: nat, now: nat)
      requires v <= |s| && -1 <= index0 && InStep(s, v, index0, i, now)
      ensures clients == Left(s, v, |s|, clientTtl, now)
      ensures index0 < |s| ==> index + 1 == |Left(s, v, index0 + 1, clientTtl, now)|
    {
    }

    /** A turn of the loop: the client at i leaves, may be used, or is passed over. */
    method Pass(now: nat, ghost s: seq<Client>, ghost v: nat, ghost index0: int, i: nat) returns (usable: bool, next: nat)
      requires Valid() && v < |s| && -1 <= index0 && i < |clients| && InStep(s, v, index0, i, now)
      modifies this`clients, this`index, this`retiring, this`needDrain
      ensures Valid() && (usable <==> !s[v].Expired(clientTtl, now) && !s[v].needDrain)
      ensures if usable then clients == old(clients) && index == old(index)
              else InStep(s, v + 1, index0, next, now) && next - i == |clients| - |old(clients)| + 1
    {
      hide Fresh, Left;
      LeftNext(s, v, |s|, clientTtl, now);
      if index0 < |s| {
        LeftNext(s, v, index0 + 1, clientTtl, now);
      }
      var client := clients[i];
      if client.Expired(clientTtl, now) {
        RemoveAt(i);
        if i <= index {
          index := index - 1;
        }
        return false, i;
      }
      if !client.needDrain {
        return true, i;
      }
      return false, i + 1;
    }
  }

  lemma NothingSeen(s: seq<Client>, clientTtl: Option<int>, now: nat)
    ensures PassedOver(s[..0], clientTtl, now) && Fresh(s[..0], clientTtl, now) == []
    ensures forall p :: 0 <= p <= |s| ==> Left(s, 0, p, clientTtl, now) == s[..p]
  {
    forall p | 0 <= p <= |s|
      ensures Left(s, 0, p, clientTtl, now) == s[..p]
    {
      assert p == 0 || Left(s, 0, p, clientTtl, now) == [] + s[0..p];
    }
  }

  lemma Split(s: seq<Client>, v: nat, clientTtl: Option<int>, now: nat)
    requires v <= |s| && PassedOver(s[..v], clientTtl, now)
    ensures if v < |s| && (s[v].Expired(clientTtl, now) || s[v].needDrain) then PassedOver(s[..v + 1], clientTtl, now)
            else FirstUsable(s, clientTtl, now) == v
  {
    assert s == s[..v] + s[v..];
    if v < |s| && (s[v].Expired(clientTtl, now) || s[v].needDrain) {
      assert s[..v + 1] == s[..v] + [s[v]];
    } else {
      Stopped(s[..v], s[v..], clientTtl, now);
    }
  }

  /** What is left of the first `p` once those expired among the first `v` are gone. */
  function Left(s: seq<Client>, v: nat, p: nat, clientTtl: Option<int>, now: nat): seq<Client>
    requires v <= |s| && p <= |s|
  {
    if p <= v then Fresh(s[..p], clientTtl, now) else Fresh(s[..v], clientTtl, now) + s[v..p]
  }

  /** The places in the list correspond: the part left of a beginning is the beginning of what is left. */
  lemma {:induction false} LeftOfBeginning(s: seq<Client>, v: nat, p: nat, clientTtl: Option<int>, now: nat)
    requires v <= |s| && p <= |s|
    ensures Left(s, v, p, clientTtl, now) <= Left(s, v, |s|, clientTtl, now)
    decreases |s| - p
  {
    hide Fresh;
    if p < v {
      LeftOfBeginning(s, v, p + 1, clientTtl, now);
      FreshMore(s, p, clientTtl, now);
    } else {
      var kept, here, rest := Fresh(s[..v], clientTtl, now), s[v..p], s[p..];
      assert s[v..] == here + rest;
      assert kept + (here + rest) == kept + here + rest;
    }
  }

  /** What going past one more client does to what is left. */
  lemma LeftNext(s: seq<Client>, v: nat, p: nat, clientTtl: Option<int>, now: nat)
    requires v < |s| && p <= |s|
    ensures var before, after, i := Left(s, v, p, clientTtl, now), Left(s, v + 1, p, clientTtl, now), |Fresh(s[..v], clientTtl, now)|;
            && |Fresh(s[..v + 1], clientTtl, now)| == i + (if s[v].Expired(clientTtl, now) then 0 else 1)
            && (p <= v ==> |before| <= i && after == before)
            && (p > v ==> |before| > i && before[i] == s[v]
                          && after == if s[v].Expired(clientTtl, now) then before[..i] + before[i + 1..] else before)
  {
    hide Fresh;
    FreshMore(s, v, clientTtl, now);
    if p <= v {
      FreshGrows(s, p, v, clientTtl, now);
    } else {
      Middle(Fresh(s[..v], clientTtl, now), s[v], s[v + 1..p]);
      assert s[v..p] == [s[v]] + s[v + 1..p];
    }
  }

  lemma Middle<T>(a: seq<T>, x: T, b: seq<T>)
    ensures var all := a + ([x] + b);
            |all| > |a| && all[|a|] == x && all[..|a|] + all[|a| + 1..] == a + b && all == a + [x] + b
  {
  }

  lemma {:induction false} FreshGrows(s: seq<Client>, p: nat, v: nat, clientTtl: Option<int>, now: nat)
    requires p <= v <= |s|
    ensures |Fresh(s[..p], clientTtl, now)| <= |Fresh(s[..v], clientTtl, now)|
  {
    if p < v {
      FreshGrows(s, p, v - 1, clientTtl, now);
      FreshMore(s, v - 1, clientTtl, now);
    }
  }

  /** The next position holds what is next in the rotation. */
  lemma NextInTurn(clients: seq<Client>, index: int, ahead: seq<Client>, behind: seq<Client>, first: bool)
    requires clients != [] && -1 <= index && |ahead| + |behind| == |clients| && ahead != []
    requires if first then behind == [] && Rotated(clients, NextIndex(index, |clients|)) == ahead
             else index < |clients| && Rotated(clients, index + 1) == ahead + behind
    ensures var next := NextIndex(index, |clients|);
            0 <= next < |clients| && clients[next] == ahead[0] && Rotated(clients, next) == ahead + behind
  {
    hide NextIndex;
    var next := NextIndex(index, |clients|);
    if first {
      assert ahead + behind == ahead;
    } else if index + 1 == |clients| {
      assert Rotated(clients, index + 1) == clients == Rotated(clients, 0);
    }
    assert clients[next] == Rotated(clients, next)[0];
  }

  ghost predicate PassedOver(s: seq<Client>, clientTtl: Option<int>, now: nat) {
    forall c :: c in s ==> c.Expired(clientTtl, now) || c.needDrain
  }

  lemma Apart(r: seq<Client>, seen: seq<Client>)
    requires seen <= r
    ensures r == seen + r[|seen|..] && r[..|seen|] == seen && (seen == [] ==> r[|seen|..] == r)
    ensures seen != r ==> r[..|seen| + 1] == seen + [r[|seen|]] && r[|seen| + 1..] == r[|seen|..][1..]
  {
  }

  lemma Behind(seen: seq<Client>, clientTtl: Option<int>, now: nat)
    ensures seen == [] ==> Fresh(seen, clientTtl, now) == []
  {
  }

  lemma PassedMore(seen: seq<Client>, client: Client, ahead: seq<Client>, clientTtl: Option<int>, now: nat)
    requires PassedOver(seen, clientTtl, now) && (client.Expired(clientTtl, now) || client.needDrain)
    requires ahead != [] && ahead[0] == client
    ensures PassedOver(seen + [client], clientTtl, now)
    ensures seen + ahead == seen + [client] + ahead[1..]
    ensures Fresh(seen + [client], clientTtl, now)
            == if client.Expired(clientTtl, now) then Fresh(seen, clientTtl, now) else Fresh(seen, clientTtl, now) + [client]
  {
    assert (seen + [client])[..|seen|] == seen;
  }

  /** The scan stops at the first client that may be used, or at the end. */
  lemma Stopped(seen: seq<Client>, ahead: seq<Client>, clientTtl: Option<int>, now: nat)
    requires PassedOver(seen, clientTtl, now)
    requires ahead == [] || (!ahead[0].Expired(clientTtl, now) && !ahead[0].needDrain)
    ensures var r := seen + ahead;
            FirstUsable(r, clientTtl, now) == |seen| && r[|seen|..] == ahead && r[..|seen|] == seen && (ahead == [] ==> r == seen)
  {
    var r := seen + ahead;
    FirstUsableIsFirst(r, clientTtl, now);
    assert forall i :: 0 <= i < |seen| ==> r[i] == seen[i] && r[i] in seen;
    assert ahead != [] ==> r[|seen|] == ahead[0];
  }

  lemma FreshMore(r: seq<Client>, v: nat, clientTtl: Option<int>, now: nat)
    requires v < |r|
    ensures Fresh(r[..v + 1], clientTtl, now) == Fresh(r[..v], clientTtl, now) + if r[v].Expired(clientTtl, now) then [] else [r[v]]
  {
    assert r[..v + 1][..v] == r[..v];
  }

  lemma {:induction false} FreshMembers(r: seq<Client>, clientTtl: Option<int>, now: nat)
    ensures forall c :: c in Fresh(r, clientTtl, now) <==> c in r && !c.Expired(clientTtl, now)
  {
    if r != [] {
      FreshMembers(r[..|r| - 1], clientTtl, now);
      assert r == r[..|r| - 1] + [r[|r| - 1]];
    }
  }

  /** Without the client at a position, what comes next is what came behind it. */
  lemma RotatedRemove(s: seq<Client>, i: nat, ahead: seq<Client>, behind: seq<Client>)
    requires i < |s| && Rotated(s, i) == ahead + behind && ahead != []
    ensures Rotated(s[..i] + s[i + 1..], i) == ahead[1..] + behind
  {
    var left := s[..i] + s[i + 1..];
    assert left[i..] + left[..i] == (s[i..] + s[..i])[1..];
  }

  lemma RotatedMembers(s: seq<Client>, k: nat)
    requires k <= |s|
    ensures forall c :: c in Rotated(s, k) <==> c in s
  {
    assert s == s[..k] + s[k..];
  }

  /** Only what has expired is gone; and after a whole round, all of it. */
  lemma GoneAreExpired(r: seq<Client>, v: nat, clientTtl: Option<int>, now: nat, left: seq<Client>, k: nat)
    requires v <= |r| && k <= |left| && Rotated(left, k) == r[v..] + Fresh(r[..v], clientTtl, now)
    ensures forall c :: c in r && c !in left ==> c.Expired(clientTtl, now)
    ensures v == |r| ==> forall c :: c in left ==> !c.Expired(clientTtl, now)
  {
    RotatedMembers(left, k);
    FreshMembers(r[..v], clientTtl, now);
    assert r == r[..v] + r[v..];
  }

  /** Passed over, a client comes round last. */
  lemma RotatedNext(s: seq<Client>, i: nat, ahead: seq<Client>, behind: seq<Client>)
    requires i < |s| && Rotated(s, i) == ahead + behind && ahead != []
    ensures Rotated(s, i + 1) == ahead[1..] + (behind + [ahead[0]])
  {
    assert s[i + 1..] + s[..i + 1] == (s[i..] + s[..i])[1..] + [s[i]];
    assert (ahead + behind)[1..] == ahead[1..] + behind && s[i] == Rotated(s, i)[0] == ahead[0];
  }

  lemma AllBusy(r: seq<Client>, clientTtl: Option<int>, now: nat, clients: seq<Client>, k: nat)
    requires FirstUsable(r, clientTtl, now) == |r| && k <= |clients| && Rotated(clients, k) == Fresh(r, clientTtl, now)
    ensures forall i :: 0 <= i < |clients| ==> clients[i].needDrain
  {
    FreshMembers(r, clientTtl, now);
    FirstUsableIsFirst(r, clientTtl, now);
    forall i | 0 <= i < |clients|
      ensures clients[i].needDrain
    {
      var all := Rotated(clients, k);
      assert clients[i] == all[if i >= k then i - k else |clients| - k + i];
      assert clients[i] in all;
    }
  }
}
