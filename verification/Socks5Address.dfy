/** lib/core/socks5-utils.js: addresses as text and as the bytes of section 5 of RFC 1928, against the
text forms of section 2.2 of RFC 4291. */
module Socks5Address {
  import opened Numerals
  import opened Wrappers

  type Byte = b: int | 0 <= b < 256

  /** String.prototype.split with a single character. */
  function Split(s: string, sep: char): (parts: seq<string>)
    ensures parts != []
  {
    if s == [] then [""]
    else
      var rest := Split(s[1..], sep);
      if s[0] == sep then [""] + rest else [[s[0]] + rest[0]] + rest[1..]
  }

  function Join(parts: seq<string>, sep: char): string {
    if parts == [] then "" else if |parts| == 1 then parts[0] else parts[0] + [sep] + Join(parts[1..], sep)
  }

  lemma {:induction false} SplitWord(word: string, sep: char)
    requires sep !in word
    ensures Split(word, sep) == [word]
  {
    if word != "" {
      assert word[0] in word && forall c :: c in word[1..] ==> c in word;
      SplitWord(word[1..], sep);
      assert [word[0]] + word[1..] == word;
    }
  }

  lemma {:induction false} SplitFirst(word: string, sep: char, rest: string)
    requires sep !in word
    ensures Split(word + [sep] + rest, sep) == [word] + Split(rest, sep)
  {
    var s := word + [sep] + rest;
    if word == "" {
      assert s[1..] == rest;
    } else {
      assert word[0] in word && forall c :: c in word[1..] ==> c in word;
      assert s[1..] == word[1..] + [sep] + rest;
      SplitFirst(word[1..], sep, rest);
      assert [word[0]] + word[1..] == word;
    }
  }

  /** What was joined comes apart again. */
  lemma {:induction false} SplitJoin(parts: seq<string>, sep: char)
    requires parts != [] && forall p :: p in parts ==> sep !in p
    ensures Split(Join(parts, sep), sep) == parts
  {
    if |parts| == 1 {
      SplitWord(parts[0], sep);
    } else {
      SplitFirst(parts[0], sep, Join(parts[1..], sep));
      SplitJoin(parts[1..], sep);
    }
  }

  predicate DoubleAt(s: string, i: nat) {
    i + 2 <= |s| && s[i] == ':' && s[i + 1] == ':'
  }

  /** indexOf('::'), |s| for -1. */
  function FindDouble(s: string): (k: nat)
    ensures k <= |s| && (k < |s| ==> DoubleAt(s, k))
    ensures forall i :: 0 <= i < k ==> !DoubleAt(s, i)
  {
    if |s| < 2 then |s| else if s[0] == ':' && s[1] == ':' then 0 else
      var k := FindDouble(s[1..]);
      assert forall i :: 1 <= i <= k ==> DoubleAt(s, i) == DoubleAt(s[1..], i - 1);
      k + 1
  }

  /** lastIndexOf(':') */
  function LastColon(s: string): (k: int)
    ensures -1 <= k < |s| && (k >= 0 ==> s[k] == ':')
    ensures forall i :: k < i < |s| ==> s[i] != ':'
  {
    if s == [] then -1 else if s[|s| - 1] == ':' then |s| - 1 else LastColon(s[..|s| - 1])
  }

  predicate Decimal(s: string) {
    forall i :: 0 <= i < |s| ==> '0' <= s[i] <= '9'
  }

  /** One number of a dotted address: 0 to 255, without leading zeros. */
  predicate IsOctet(s: string) {
    1 <= |s| <= 3 && Decimal(s) && (s[0] == '0' ==> |s| == 1) && Value(s, 10) < 256
  }

  /** net.isIPv4 */
  predicate IsIPv4(s: string) {
    var parts := Split(s, '.');
    |parts| == 4 && forall i :: 0 <= i < 4 ==> IsOctet(parts[i])
  }

  /** split('.').map(Number) */
  function Octets(s: string): (octets: seq<Byte>)
    requires IsIPv4(s)
    ensures |octets| == 4
  {
    var parts := Split(s, '.');
    assert forall i :: 0 <= i < 4 ==> IsOctet(parts[i]);
    seq(4, i requires 0 <= i < 4 => Value(parts[i], 10))
  }

  function Pair(a: Byte, b: Byte): nat {
    256 * a + b
  }

  /** Two bytes as one group, in hexadecimal. */
  function Group(a: Byte, b: Byte): string {
    Digits(Pair(a, b), 16)
  }

  /** What is printed is (x << 8) | y for the bytes' bits. */
  lemma ShiftIsTimes(a: Byte, b: Byte, x: bv16, y: bv16)
    requires x < 256 && y < 256 && x as int == a && y as int == b
    ensures Pair(a, b) == ((x << 8) | y) as nat
  {
    ShiftFits(x, y);
  }

  lemma ShiftFits(a: bv16, b: bv16)
    requires a < 256 && b < 256
    ensures ((a << 8) | b) as nat == 256 * (a as nat) + (b as nat)
  {
    ShiftIsPlus(a, b);
    TimesFits(a, b);
  }

  lemma ShiftIsPlus(a: bv16, b: bv16)
    requires a < 256 && b < 256
    ensures (a << 8) | b == 256 * a + b
  {
  }

  lemma TimesFits(a: bv16, b: bv16)
    requires a < 256 && b < 256
    ensures (256 * a + b) as nat == 256 * (a as nat) + (b as nat)
  {
  }

  /** What stands before the last colon; without any, slice(0, -1) drops the last character. */
  function BeforeTail(address: string): string {
    var k := LastColon(address);
    if k >= 0 then address[..k] else if address == "" then "" else address[..|address| - 1]
  }

  /** The address with an IPv4 tail written as two groups. */
  function Normalized(address: string): string {
    var tail := address[LastColon(address) + 1..];
    if '.' !in address || !IsIPv4(tail) then address
    else
      var o := Octets(tail);
      BeforeTail(address) + ":" + Group(o[0], o[1]) + ":" + Group(o[2], o[3])
  }

  /** parseInt(part, 16), as it is written: NaN comes out as zero. */
  function ParseGroup(part: string): nat {
    Value(part[..HexRun(part)], 16)
  }

  /** writeUInt16BE */
  function PutGroup(buffer: seq<Byte>, at: nat, value: nat): (r: seq<Byte>)
    requires at + 2 <= |buffer| && value <= 0xFFFF
    ensures |r| == |buffer|
  {
    buffer[..at] + [value / 256, value % 256] + buffer[at + 2..]
  }

  /** The buffer with each part in its two bytes from `at` on; none where writeUInt16BE throws. */
  function Written(buffer: seq<Byte>, parts: seq<string>, at: int): (r: Option<seq<Byte>>)
    requires |buffer| == 16
    ensures r.Some? ==> |r.value| == 16
    decreases parts
  {
    if parts == [] then Some(buffer)
    else
      var value := ParseGroup(parts[0]);
      if at < 0 || at + 2 > 16 || value > 0xFFFF then None
      else Written(PutGroup(buffer, at, value), parts[1..], at + 2)
  }

  function Zeros(n: nat): (zeros: seq<Byte>)
    ensures |zeros| == n && forall i :: 0 <= i < n ==> zeros[i] == 0
  {
    seq(n, _ => 0)
  }

  function Parts(s: string): seq<string> {
    if s == "" then [] else Split(s, ':')
  }

  function ParsedGroups(s: string): Option<seq<Byte>> {
    var k := FindDouble(s);
    if k < |s| then
      var after := Parts(s[k + 2..]);
      match Written(Zeros(16), Parts(s[..k]), 0)
      case None => None
      case Some(buffer) => Written(buffer, after, 16 - 2 * |after|)
    else Written(Zeros(16), Split(s, ':'), 0)
  }

  /** What parseIPv6 returns. */
  function ParsedIPv6(address: string): Option<seq<Byte>> {
    ParsedGroups(Normalized(address))
  }

  /** The loop over some parts, false where it throws. */
  method WriteParts(buffer: array<Byte>, parts: seq<string>, at: int) returns (ok: bool)
    requires buffer.Length == 16
    modifies buffer
    ensures Written(old(buffer[..]), parts, at) == if ok then Some(buffer[..]) else None
  {
    var bufferIndex := at;
    for i := 0 to |parts|
      invariant bufferIndex == at + 2 * i
      invariant Written(old(buffer[..]), parts, at) == Written(buffer[..], parts[i..], bufferIndex)
    {
      assert parts[i..][0] == parts[i] && parts[i..][1..] == parts[i + 1..];
      var value := ParseGroup(parts[i]);
      if bufferIndex < 0 || bufferIndex + 2 > 16 || value > 0xFFFF {
        return false;
      }
      ghost var was := buffer[..];
      buffer[bufferIndex] := value / 256;
      buffer[bufferIndex + 1] := value % 256;
      assert buffer[..] == PutGroup(was, bufferIndex, value);
      bufferIndex := bufferIndex + 2;
    }
    return true;
  }

  /** parseIPv6, null where it throws. */
  method ParseIPv6(address: string) returns (buffer: array?<Byte>)
    ensures ParsedIPv6(address) == if buffer == null then None else Some(buffer[..])
    ensures buffer != null ==> fresh(buffer) && buffer.Length == 16
  {
    hide Normalized, Split, Written, FindDouble;
    var bytes := new Byte[16](_ => 0);
    assert bytes[..] == Zeros(16);
    var normalizedAddress := Normalized(address);
    var doubleColonIndex := FindDouble(normalizedAddress);
    var ok;
    if doubleColonIndex < |normalizedAddress| {
      var beforeParts, afterParts := Parts(normalizedAddress[..doubleColonIndex]), Parts(normalizedAddress[doubleColonIndex + 2..]);
      ok := WriteParts(bytes, beforeParts, 0);
      if ok {
        ok := WriteParts(bytes, afterParts, 16 - 2 * |afterParts|);
      }
    } else {
      ok := WriteParts(bytes, Split(normalizedAddress, ':'), 0);
    }
    buffer := if ok then bytes else null;
  }

  /** A group of a text form of RFC 4291: one to four hexadecimal digits. */
  predicate IsGroup(s: string) {
    1 <= |s| <= 4 && forall i :: 0 <= i < |s| ==> IsHexDigit(s[i])
  }

  predicate AreGroups(parts: seq<string>) {
    forall i :: 0 <= i < |parts| ==> IsGroup(parts[i])
  }

  /** The bytes the groups stand for. */
  function Bytes(parts: seq<string>): (bytes: seq<Byte>)
    requires AreGroups(parts)
    ensures |bytes| == 2 * |parts|
  {
    if parts == [] then []
    else
      GroupFits(parts[0]);
      [Value(parts[0], 16) / 256, Value(parts[0], 16) % 256] + Bytes(parts[1..])
  }

  lemma GroupFits(s: string)
    requires IsGroup(s)
    ensures Value(s, 16) <= 0xFFFF && ParseGroup(s) == Value(s, 16)
  {
    ValueBelow(s);
    assert HexRun(s) == |s| && s[..|s|] == s;
  }

  /** The value of one, two, three or four hexadecimal digits. */
  lemma ValueBelow(s: string)
    requires |s| <= 4 && forall i :: 0 <= i < |s| ==> IsHexDigit(s[i])
    ensures Value(s, 16) < if |s| == 0 then 1 else if |s| == 1 then 16 else if |s| == 2 then 256 else if |s| == 3 then 4096 else 65536
  {
    if |s| > 0 {
      ValueBelow(s[..|s| - 1]);
    }
  }

  /** Groups that fit are written side by side; too many throw. */
  lemma {:induction false} WrittenBytes(buffer: seq<Byte>, parts: seq<string>, at: nat)
    requires |buffer| == 16 && AreGroups(parts)
    ensures Written(buffer, parts, at) ==
            if parts != [] && at + 2 * |parts| > 16 then None
            else if parts == [] then Some(buffer)
            else Some(buffer[..at] + Bytes(parts) + buffer[at + 2 * |parts|..])
    decreases parts
  {
    if parts != [] {
      var value := ParseGroup(parts[0]);
      GroupFits(parts[0]);
      if at + 2 <= 16 {
        WrittenBytes(PutGroup(buffer, at, value), parts[1..], at + 2);
        if at + 2 * |parts| <= 16 {
          SideBySide(buffer, at, value, Bytes(parts[1..]));
        }
      }
      hide Value, ParseGroup;
    }
  }

  lemma SideBySide(buffer: seq<Byte>, at: nat, value: nat, rest: seq<Byte>)
    requires |buffer| == 16 && value <= 0xFFFF && at + 2 + |rest| <= 16
    ensures var next := PutGroup(buffer, at, value);
            next[..at + 2] + rest + next[at + 2 + |rest|..]
            == buffer[..at] + ([value / 256, value % 256] + rest) + buffer[at + 2 + |rest|..]
    ensures rest == [] ==> PutGroup(buffer, at, value) == buffer[..at] + ([value / 256, value % 256] + rest) + buffer[at + 2..]
  {
    var next := PutGroup(buffer, at, value);
    assert next[..at + 2] == buffer[..at] + [value / 256, value % 256];
    assert next[at + 2 + |rest|..] == buffer[at + 2 + |rest|..];
  }

  lemma NoColon(s: string)
    requires IsGroup(s)
    ensures ':' !in s && '.' !in s
  {
  }

  /** Groups joined by single colons: no two colons meet, and none stands at either end. */
  lemma {:induction false} JoinedGroups(parts: seq<string>)
    requires AreGroups(parts) && parts != []
    ensures var s := Join(parts, ':');
            && s != "" && s[0] != ':' && s[|s| - 1] != ':' && '.' !in s
            && forall i :: 0 <= i < |s| ==> !DoubleAt(s, i)
  {
    NoColon(parts[0]);
    if |parts| > 1 {
      var rest := Join(parts[1..], ':');
      JoinedGroups(parts[1..]);
      var s := Join(parts, ':');
      var n := |parts[0]|;
      assert s == parts[0] + [':'] + rest && s[n..] == [':'] + rest && s[n + 1..] == rest;
      forall i | 0 <= i < |s|
        ensures !DoubleAt(s, i)
      {
        if i < n {
          assert s[i] == parts[0][i] && s[i] in parts[0];
        } else if i > n {
          assert DoubleAt(s, i) ==> DoubleAt(rest, i - n - 1);
        }
      }
    }
  }

  lemma PartsOfJoined(parts: seq<string>)
    requires AreGroups(parts)
    ensures Parts(Join(parts, ':')) == parts
    ensures parts != [] ==> Split(Join(parts, ':'), ':') == parts
  {
    if parts != [] {
      JoinedGroups(parts);
      forall p | p in parts
        ensures ':' !in p
      {
        NoColon(p);
      }
      SplitJoin(parts, ':');
    }
  }

  lemma NoTail(s: string)
    requires '.' !in s
    ensures ParsedIPv6(s) == ParsedGroups(s)
  {
  }

  lemma FilledFront(parts: seq<string>)
    requires AreGroups(parts)
    ensures Written(Zeros(16), parts, 0) == if |parts| > 8 then None else Some(Bytes(parts) + Zeros(16 - 2 * |parts|))
  {
    hide Written, Zeros, Bytes, AreGroups;
    WrittenBytes(Zeros(16), parts, 0);
    if |parts| <= 8 {
      FrontOfZeros(Bytes(parts));
    }
  }

  lemma FrontOfZeros(bytes: seq<Byte>)
    requires |bytes| <= 16
    ensures Zeros(16)[..0] + bytes + Zeros(16)[|bytes|..] == bytes + Zeros(16 - |bytes|)
    ensures bytes == [] ==> bytes + Zeros(16 - |bytes|) == Zeros(16)
  {
    assert Zeros(16)[|bytes|..] == Zeros(16 - |bytes|);
  }

  lemma FilledBack(buffer: seq<Byte>, parts: seq<string>)
    requires AreGroups(parts) && |buffer| == 16
    ensures Written(buffer, parts, 16 - 2 * |parts|) ==
            if |parts| > 8 then None else Some(buffer[..16 - 2 * |parts|] + Bytes(parts))
  {
    if |parts| <= 8 {
      hide Written, Bytes, AreGroups;
      var at := 16 - 2 * |parts|;
      WrittenBytes(buffer, parts, at);
      BackOfBuffer(buffer, Bytes(parts));
    }
  }

  lemma BackOfBuffer(buffer: seq<Byte>, bytes: seq<Byte>)
    requires |buffer| == 16 && |bytes| <= 16
    ensures var at := 16 - |bytes|; buffer[..at] + bytes + buffer[at + |bytes|..] == buffer[..at] + bytes
    ensures bytes == [] ==> buffer[..16] + bytes == buffer
  {
  }

  /** Groups without `::`: they fill the buffer from the front, and what is missing stays zero. */
  lemma FullForm(parts: seq<string>)
    requires AreGroups(parts) && parts != []
    ensures ParsedIPv6(Join(parts, ':')) == if |parts| <= 8 then Some(Bytes(parts) + Zeros(16 - 2 * |parts|)) else None
  {
    hide Normalized, Written, Split, Join, Bytes, Zeros;
    JoinedGroups(parts);
    PartsOfJoined(parts);
    NoTail(Join(parts, ':'));
    FilledFront(parts);
  }

  /** `::` stands for as many zeros as are missing. With too many groups around it, those behind overwrite
      those before; it throws only when one side alone has more than eight. */
  lemma CompressedForm(before: seq<string>, after: seq<string>)
    requires AreGroups(before) && AreGroups(after)
    ensures ParsedIPv6(Join(before, ':') + "::" + Join(after, ':')) ==
            if |before| > 8 || |after| > 8 then None
            else Some((Bytes(before) + Zeros(16 - 2 * |before|))[..16 - 2 * |after|] + Bytes(after))
    ensures |before| + |after| <= 8 ==>
              ParsedIPv6(Join(before, ':') + "::" + Join(after, ':'))
              == Some(Bytes(before) + Zeros(16 - 2 * |before| - 2 * |after|) + Bytes(after))
  {
    hide ParsedIPv6, Normalized, Written, Split, Join, Bytes, Parts, FindDouble, AreGroups, Zeros;
    var a, b := Join(before, ':'), Join(after, ':');
    FirstDouble(before, after);
    var s := a + "::" + b;
    NoTail(s);
    assert s[..|a|] == a && s[|a| + 2..] == b;
    PartsOfJoined(before);
    PartsOfJoined(after);
    FilledFront(before);
    if |before| <= 8 {
      var filled := Bytes(before) + Zeros(16 - 2 * |before|);
      FilledBack(filled, after);
      if |before| + |after| <= 8 {
        assert filled[..16 - 2 * |after|] == Bytes(before) + Zeros(16 - 2 * |before| - 2 * |after|);
      }
    }
  }

  lemma FirstDouble(before: seq<string>, after: seq<string>)
    requires AreGroups(before) && AreGroups(after)
    ensures var s := Join(before, ':') + "::" + Join(after, ':');
            FindDouble(s) == |Join(before, ':')| && '.' !in s
  {
    var a, b := Join(before, ':'), Join(after, ':');
    var s := a + "::" + b;
    if before != [] {
      JoinedGroups(before);
    }
    if after != [] {
      JoinedGroups(after);
    }
    assert DoubleAt(s, |a|);
    forall i | 0 <= i < |a|
      ensures !DoubleAt(s, i)
    {
      assert s[i] == a[i] && !DoubleAt(a, i);
    }
  }

  /** Text of a dotted address. */
  function Dotted(octets: seq<Byte>): string
    requires |octets| == 4
  {
    Join(Numbers(octets), '.')
  }

  function Numbers(octets: seq<Byte>): (numbers: seq<string>)
    ensures |numbers| == |octets| && forall i :: 0 <= i < |octets| ==> numbers[i] == Digits(octets[i], 10)
  {
    seq(|octets|, i requires 0 <= i < |octets| => Digits(octets[i], 10))
  }

  lemma DigitsSnoc(q: nat, d: nat)
    requires q >= 1 && d < 10
    ensures Digits(10 * q + d, 10) == Digits(q, 10) + [Digit(d)]
  {
    var n := 10 * q + d;
    assert n / 10 == q && n % 10 == d;
  }

  /** A number prints without leading zeros, in as many digits as it takes. */
  lemma {:induction false} DecimalDigits(n: nat)
    ensures Decimal(Digits(n, 10)) && (Digits(n, 10)[0] == '0' ==> n == 0)
    ensures |Digits(n, 10)| == if n < 10 then 1 else 1 + |Digits(n / 10, 10)|
  {
    if n >= 10 {
      DecimalDigits(n / 10);
      DigitsSnoc(n / 10, n % 10);
    }
  }

  lemma OctetText(n: Byte)
    ensures IsOctet(Digits(n, 10)) && Value(Digits(n, 10), 10) == n
  {
    hide Value, Digits;
    DigitsRead(n, 10);
    DecimalDigits(n);
    DecimalDigits(n / 10);
    DecimalDigits(n / 10 / 10);
  }

  /** A decimal number without leading zeros is what its value prints. */
  lemma {:induction false} TextNumber(s: string)
    requires s != "" && Decimal(s) && (s[0] == '0' ==> |s| == 1)
    ensures Digits(Value(s, 10), 10) == s
    ensures s[0] != '0' ==> Value(s, 10) >= 1
  {
    var t, c := s[..|s| - 1], s[|s| - 1];
    assert s == t + [c] && Digit(DigitValue(c)) == c && DigitValue(c) < 10 && (c != '0' ==> DigitValue(c) > 0);
    if t == "" {
      ValueOne(c, 10);
      assert Digits(DigitValue(c), 10) == [c];
    } else {
      hide Value, Digits, Digit, DigitValue;
      TextNumber(t);
      ValueSnoc(t, c, 10);
      DigitsSnoc(Value(t, 10), DigitValue(c));
    }
  }

  lemma OctetFree(s: string)
    requires IsOctet(s)
    ensures '.' !in s && ':' !in s
  {
  }

  /** A dotted address is recognised, and its numbers come back. */
  lemma DottedReads(octets: seq<Byte>)
    requires |octets| == 4
    ensures IsIPv4(Dotted(octets)) && Octets(Dotted(octets)) == octets
  {
    var numbers := Numbers(octets);
    forall i | 0 <= i < 4
      ensures IsOctet(numbers[i]) && Value(numbers[i], 10) == octets[i] && '.' !in numbers[i]
    {
      OctetText(octets[i]);
      OctetFree(numbers[i]);
    }
    SplitJoin(numbers, '.');
  }

  lemma {:induction false} JoinSplit(s: string, sep: char)
    ensures Join(Split(s, sep), sep) == s
  {
    if s != "" {
      JoinSplit(s[1..], sep);
      var rest := Split(s[1..], sep);
      assert s == [s[0]] + s[1..];
      if s[0] == sep {
        JoinFront("", rest, sep);
      } else {
        JoinLonger(s[0], rest, sep);
      }
    }
  }

  lemma JoinFront(part: string, rest: seq<string>, sep: char)
    requires rest != []
    ensures Join([part] + rest, sep) == part + [sep] + Join(rest, sep)
  {
    assert ([part] + rest)[1..] == rest;
  }

  lemma JoinLonger(c: char, parts: seq<string>, sep: char)
    requires parts != []
    ensures Join([[c] + parts[0]] + parts[1..], sep) == [c] + Join(parts, sep)
  {
    if |parts| == 1 {
      assert [[c] + parts[0]] + parts[1..] == [[c] + parts[0]];
    } else {
      JoinFront([c] + parts[0], parts[1..], sep);
      assert [c] + parts[0] + [sep] + Join(parts[1..], sep) == [c] + (parts[0] + [sep] + Join(parts[1..], sep));
    }
  }

  /** Only one text of a dotted address is recognised, so it comes back too. */
  lemma ReadsDotted(s: string)
    requires IsIPv4(s)
    ensures Dotted(Octets(s)) == s
  {
    var parts := Split(s, '.');
    forall i | 0 <= i < 4
      ensures Digits(Octets(s)[i], 10) == parts[i]
    {
      TextNumber(parts[i]);
    }
    assert Numbers(Octets(s)) == parts;
    JoinSplit(s, '.');
  }

  lemma {:induction false} JoinedWithout(parts: seq<string>, sep: char, c: char)
    requires parts != [] && c != sep && forall p :: p in parts ==> c !in p
    ensures c !in Join(parts, sep) && (|parts| > 1 ==> sep in Join(parts, sep))
  {
    if |parts| > 1 {
      JoinedWithout(parts[1..], sep, c);
      assert Join(parts, sep)[|parts[0]|] == sep;
    }
  }

  lemma DottedWithoutColon(octets: seq<Byte>)
    requires |octets| == 4
    ensures ':' !in Dotted(octets) && '.' in Dotted(octets)
  {
    forall p | p in Numbers(octets)
      ensures ':' !in p
    {
      var i :| 0 <= i < 4 && p == Numbers(octets)[i];
      OctetText(octets[i]);
      OctetFree(p);
    }
    JoinedWithout(Numbers(octets), '.', ':');
  }

  lemma LastColonBefore(prefix: string, tail: string)
    requires ':' !in tail && '.' in tail
    ensures LastColon(prefix + ":" + tail) == |prefix| && '.' in prefix + ":" + tail
  {
    hide LastColon;
    var s := prefix + ":" + tail;
    assert s[|prefix|] == ':';
    assert forall i :: |prefix| < i < |s| ==> s[i] == tail[i - |prefix| - 1];
    var k :| 0 <= k < |tail| && tail[k] == '.';
    assert s[|prefix| + 1 + k] == '.';
  }

  /** Behind any colon a dotted address says the same as its two groups. */
  lemma EmbeddedTail(prefix: string, o: seq<Byte>)
    requires |o| == 4 && '.' !in prefix
    ensures ParsedIPv6(prefix + ":" + Dotted(o)) == ParsedIPv6(prefix + ":" + Join([Group(o[0], o[1]), Group(o[2], o[3])], ':'))
  {
    var tail, s := Dotted(o), prefix + ":" + Dotted(o);
    var high, low := Group(o[0], o[1]), Group(o[2], o[3]);
    DottedWithoutColon(o);
    DottedReads(o);
    GroupText(o[0], o[1]);
    GroupText(o[2], o[3]);
    hide Dotted, Octets, IsIPv4, Group, ParsedGroups, Join;
    LastColonBefore(prefix, tail);
    assert s[|prefix| + 1..] == tail && s[..|prefix|] == prefix;
    hide LastColon;
    TwoJoined(high, low);
    NoColon(high);
    NoColon(low);
    assert prefix + ":" + high + ":" + low == prefix + ":" + (high + [':'] + low);
    NoTail(prefix + ":" + Join([high, low], ':'));
  }

  lemma TwoJoined(a: string, b: string)
    ensures Join([a, b], ':') == a + [':'] + b
  {
    assert [a, b][1..] == [b];
  }

  /** Two bytes printed are a group, which stands for them. */
  lemma GroupText(a: Byte, b: Byte)
    ensures IsGroup(Group(a, b)) && Value(Group(a, b), 16) / 256 == a && Value(Group(a, b), 16) % 256 == b
  {
    var n := Pair(a, b);
    DigitsRead(n, 16);
    DigitsFit(n);
  }

  lemma DigitsFit(n: nat)
    ensures n < 16 ==> |Digits(n, 16)| == 1
    ensures n < 0x100 ==> |Digits(n, 16)| <= 2
    ensures n < 0x1000 ==> |Digits(n, 16)| <= 3
    ensures n < 0x1_0000 ==> |Digits(n, 16)| <= 4
  {
    if n >= 16 {
      Divided(n, 16);
      DigitsFit(n / 16);
    }
  }

  /** The groups of some bytes, two by two. */
  function Groups(bytes: seq<Byte>): seq<string> {
    if |bytes| < 2 then [] else [Group(bytes[0], bytes[1])] + Groups(bytes[2..])
  }

  lemma {:induction false} GroupsStandFor(bytes: seq<Byte>)
    requires |bytes| % 2 == 0
    ensures 2 * |Groups(bytes)| == |bytes| && AreGroups(Groups(bytes)) && Bytes(Groups(bytes)) == bytes
  {
    if bytes != [] {
      GroupsFirst(bytes);
      hide Bytes, Group, IsGroup, Groups, AreGroups;
      GroupsStandFor(bytes[2..]);
      GroupText(bytes[0], bytes[1]);
      BytesFirst(Group(bytes[0], bytes[1]), Groups(bytes[2..]));
      FirstTwo(bytes);
    }
  }

  lemma FirstTwo(bytes: seq<Byte>)
    requires |bytes| >= 2
    ensures [bytes[0], bytes[1]] + bytes[2..] == bytes
  {
  }

  lemma GroupsFirst(bytes: seq<Byte>)
    requires |bytes| >= 2
    ensures Groups(bytes) == [Group(bytes[0], bytes[1])] + Groups(bytes[2..])
  {
  }

  lemma BytesFirst(g: string, rest: seq<string>)
    requires IsGroup(g) && AreGroups(rest)
    ensures AreGroups([g] + rest) && Value(g, 16) <= 0xFFFF
    ensures Bytes([g] + rest) == [Value(g, 16) / 256, Value(g, 16) % 256] + Bytes(rest)
  {
    GroupFits(g);
    assert ([g] + rest)[1..] == rest;
  }

  /** Any sixteen bytes, printed as text, are read back. */
  lemma PrintedIsParsed(bytes: seq<Byte>)
    requires |bytes| == 16
    ensures ParsedIPv6(Join(Groups(bytes), ':')) == Some(bytes)
  {
    hide ParsedIPv6, Groups, Bytes, Join, AreGroups, Zeros;
    GroupsStandFor(bytes);
    FullForm(Groups(bytes));
    assert bytes + Zeros(0) == bytes;
  }

  lemma {:induction false} JoinMore(parts: seq<string>, more: seq<string>, sep: char)
    requires parts != [] && more != []
    ensures Join(parts + more, sep) == Join(parts, sep) + [sep] + Join(more, sep)
  {
    if |parts| == 1 {
      assert (parts + more)[1..] == more;
    } else {
      JoinMore(parts[1..], more, sep);
      assert (parts + more)[1..] == parts[1..] + more;
      var a, b, c := parts[0], Join(parts[1..], sep), Join(more, sep);
      assert a + [sep] + (b + [sep] + c) == (a + [sep] + b) + [sep] + c;
    }
  }

  lemma {:induction false} BytesMore(parts: seq<string>, more: seq<string>)
    requires AreGroups(parts) && AreGroups(more)
    ensures AreGroups(parts + more) && Bytes(parts + more) == Bytes(parts) + Bytes(more)
  {
    if parts == [] {
      assert parts + more == more;
    } else {
      BytesMore(parts[1..], more);
      BytesFirst(parts[0], parts[1..]);
      BytesFirst(parts[0], parts[1..] + more);
      assert [parts[0]] + parts[1..] == parts && [parts[0]] + (parts[1..] + more) == parts + more;
    }
  }

  lemma TwoGroups(o: seq<Byte>)
    requires |o| == 4
    ensures Groups(o) == [Group(o[0], o[1]), Group(o[2], o[3])]
    ensures AreGroups(Groups(o)) && Bytes(Groups(o)) == o
  {
    GroupsStandFor(o);
    assert Groups(o[2..]) == [Group(o[2], o[3])];
  }

  /** The text forms that end in a dotted address, without `::`. */
  lemma FullFormEmbedded(parts: seq<string>, o: seq<Byte>)
    requires AreGroups(parts) && |parts| == 6 && |o| == 4
    ensures ParsedIPv6(Join(parts + [Dotted(o)], ':')) == Some(Bytes(parts) + o)
  {
    hide ParsedIPv6, AreGroups, Bytes, Groups, Dotted, Group, Join;
    var prefix, tail, groups := Join(parts, ':'), Dotted(o), Groups(o);
    JoinedGroups(parts);
    JoinMore(parts, [tail], ':');
    OneJoined(tail, ':');
    EmbeddedTail(prefix, o);
    TwoGroups(o);
    JoinMore(parts, groups, ':');
    BytesMore(parts, groups);
    FullForm(parts + groups);
    assert Bytes(parts) + o + Zeros(0) == Bytes(parts) + o;
  }

  lemma OneJoined(s: string, sep: char)
    ensures Join([s], sep) == s && Join([], sep) == ""
  {
  }

  /** The text forms that end in a dotted address, with `::`. */
  lemma CompressedFormEmbedded(before: seq<string>, after: seq<string>, o: seq<Byte>)
    requires AreGroups(before) && AreGroups(after) && |before| + |after| <= 6 && |o| == 4
    ensures ParsedIPv6(Join(before, ':') + "::" + Join(after + [Dotted(o)], ':'))
            == Some(Bytes(before) + Zeros(12 - 2 * |before| - 2 * |after|) + (Bytes(after) + o))
  {
    hide ParsedIPv6, AreGroups, Bytes, Groups, Dotted, Group, Join, Stem, Zeros;
    var stem, tail, groups := Stem(before, after), Dotted(o), Groups(o);
    TwoGroups(o);
    BytesMore(after, groups);
    CompressedForm(before, after + groups);
    StemWithoutDot(before, after);
    StemJoins(before, after, [tail]);
    StemJoins(before, after, groups);
    OneJoined(tail, ':');
    EmbeddedTail(stem, o);
  }

  /** What stands before the last colon but for the tail. */
  function Stem(before: seq<string>, after: seq<string>): string {
    if after == [] then Join(before, ':') + ":" else Join(before, ':') + "::" + Join(after, ':')
  }

  lemma StemWithoutDot(before: seq<string>, after: seq<string>)
    requires AreGroups(before) && AreGroups(after)
    ensures '.' !in Stem(before, after)
  {
    FirstDouble(before, after);
    var s := Join(before, ':') + "::" + Join(after, ':');
    assert forall i :: 0 <= i < |Stem(before, after)| ==> Stem(before, after)[i] == s[i];
  }

  lemma StemJoins(before: seq<string>, after: seq<string>, more: seq<string>)
    requires more != []
    ensures Join(before, ':') + "::" + Join(after + more, ':') == Stem(before, after) + ":" + Join(more, ':')
  {
    var a, m := Join(before, ':'), Join(more, ':');
    if after == [] {
      assert after + more == more;
      assert a + "::" + m == a + ":" + ":" + m;
    } else {
      var b := Join(after, ':');
      JoinMore(after, more, ':');
      assert a + "::" + (b + [':'] + m) == a + "::" + b + ":" + m;
    }
  }

  /** buildAddressBuffer, none where writeUInt16BE throws for the port. */
  function BuildAddressBuffer(addressType: Byte, address: seq<Byte>, port: int): Option<seq<Byte>> {
    if 0 <= port <= 0xFFFF then Some([addressType] + address + [port / 256, port % 256]) else None
  }

  /** Names stay bytes: their decoding as UTF-8 is not modelled. */
  datatype Address = Text(text: string) | Name(name: seq<Byte>)

  datatype Response =
    | Parsed(address: Address, port: nat, bytesRead: nat)
    | TooSmall
    | InvalidType(addressType: Byte)

  /** What a type's address bytes say. */
  function AddressOf(addressType: Byte, bytes: seq<Byte>): Address
    requires addressType == 1 ==> |bytes| == 4
    requires addressType == 3 ==> bytes != []
  {
    if addressType == 1 then Text(Dotted(bytes))
    else if addressType == 3 then Name(bytes[1..])
    else Text(Join(Groups(bytes), ':'))
  }

  /** The address field of section 5 of RFC 1928 for a type: 4 bytes, a length byte and as many, or 16. */
  ghost predicate AddressField(addressType: Byte, bytes: seq<Byte>) {
    || (addressType == 1 && |bytes| == 4)
    || (addressType == 3 && bytes != [] && |bytes| == 1 + bytes[0] as int)
    || (addressType == 4 && |bytes| == 16)
  }

  /** The bytes from `offset` to `end` are a type, its address and a port. */
  ghost predicate AddressAt(buffer: seq<Byte>, offset: nat, end: int) {
    offset + 3 <= end <= |buffer| && AddressField(buffer[offset], buffer[offset + 1..end - 2])
  }

  lemma Pieces(buffer: seq<Byte>, offset: nat, end: int)
    requires offset + 3 <= end <= |buffer|
    ensures buffer[offset..end] == [buffer[offset]] + buffer[offset + 1..end - 2] + [buffer[end - 2], buffer[end - 1]]
  {
  }

  /** parseResponseAddress. It succeeds exactly if there is an address, whatever follows it; then it has read all of
      it, and what it returns is what buildAddressBuffer makes those bytes of. */
  method ParseResponseAddress(buffer: seq<Byte>, offset: nat) returns (response: Response)
    ensures response.Parsed? ==>
              var end := offset + response.bytesRead;
              && AddressAt(buffer, offset, end) && response.port <= 0xFFFF
              && var bytes := buffer[offset + 1..end - 2];
                 && response.address == AddressOf(buffer[offset], bytes)
                 && BuildAddressBuffer(buffer[offset], bytes, response.port) == Some(buffer[offset..end])
    ensures !response.Parsed? ==> forall end :: !AddressAt(buffer, offset, end)
    ensures response.InvalidType? <==> offset < |buffer| && buffer[offset] !in {1, 3, 4}
  {
    if |buffer| < offset + 1 {
      return TooSmall;
    }
    var addressType := buffer[offset];
    var address;
    var currentOffset := offset + 1;
    match addressType {
      case 1 =>
        if |buffer| < currentOffset + 6 {
          return TooSmall;
        }
        address := Text(Dotted(buffer[currentOffset..currentOffset + 4]));
        currentOffset := currentOffset + 4;
      case 3 =>
        if |buffer| < currentOffset + 1 {
          return TooSmall;
        }
        var domainLength := buffer[currentOffset];
        currentOffset := currentOffset + 1;
        if |buffer| < currentOffset + domainLength + 2 {
          return TooSmall;
        }
        address := Name(buffer[currentOffset..currentOffset + domainLength]);
        currentOffset := currentOffset + domainLength;
      case 4 =>
        if |buffer| < currentOffset + 18 {
          return TooSmall;
        }
        var parts := ReadGroups(buffer[currentOffset..currentOffset + 16]);
        address := Text(Join(parts, ':'));
        currentOffset := currentOffset + 16;
      case _ =>
        return InvalidType(addressType);
    }
    if |buffer| < currentOffset + 2 {
      assert false; // the address cases have seen to it
    }
    var port := 256 * buffer[currentOffset] as int + buffer[currentOffset + 1] as int;
    currentOffset := currentOffset + 2;
    Pieces(buffer, offset, currentOffset);
    return Parsed(address, port, currentOffset - offset);
  }

  /** No address is the beginning of another, so nothing else can be read where one stands. */
  lemma AddressEndsOnce(buffer: seq<Byte>, offset: nat, end: int, more: seq<Byte>, end': int)
    requires AddressAt(buffer, offset, end) && AddressAt(buffer + more, offset, end')
    ensures end == end' && (buffer + more)[offset..end'] == buffer[offset..end]
  {
    if buffer[offset] == 3 {
      assert buffer[offset + 1..end - 2][0] == buffer[offset + 1] == (buffer + more)[offset + 1..end' - 2][0];
    }
  }

  /** The loop over the eight groups. */
  method ReadGroups(bytes: seq<Byte>) returns (parts: seq<string>)
    requires |bytes| == 16
    ensures parts == Groups(bytes)
  {
    parts := [];
    for i := 0 to 8
      invariant parts + Groups(bytes[2 * i..]) == Groups(bytes)
    {
      assert bytes[2 * i..][2..] == bytes[2 * i + 2..];
      parts := parts + [Group(bytes[2 * i], bytes[2 * i + 1])];
    }
    assert Groups(bytes[16..]) == [];
  }

  /** parseAddress, none where it throws. Whether net.isIPv6 takes the text, and its bytes as UTF-8, are given. */
  function ParseAddress(address: string, isIPv6: bool, utf8: seq<Byte>): Option<(Byte, seq<Byte>)> {
    if IsIPv4(address) then Some((1, Octets(address)))
    else if isIPv6 then
      match ParsedIPv6(address)
      case None => None
      case Some(bytes) => Some((4, bytes))
    else if |utf8| > 255 then None
    else
      var length: Byte := |utf8|;
      Some((3, [length] + utf8))
  }

  /** What an address is sent as says the address: the same text, the same name, or a text with the same bytes. */
  lemma EncodedSaysTheSame(address: string, isIPv6: bool, utf8: seq<Byte>)
    ensures match ParseAddress(address, isIPv6, utf8)
            case None => !IsIPv4(address) && (if isIPv6 then ParsedIPv6(address).None? else |utf8| > 255)
            case Some((addressType, bytes)) =>
              && AddressField(addressType, bytes)
              && match AddressOf(addressType, bytes)
                 case Name(name) => name == utf8
                 case Text(text) => if IsIPv4(address) then text == address else ParsedIPv6(text) == ParsedIPv6(address)
  {
    if IsIPv4(address) {
      ReadsDotted(address);
    } else if isIPv6 && ParsedIPv6(address).Some? {
      PrintedIsParsed(ParsedIPv6(address).value);
    }
  }

  lemma Surrounded(before: seq<Byte>, built: seq<Byte>, after: seq<Byte>, end: int)
    requires |built| >= 3
    ensures var buffer := before + built + after; var n := |before| + |built|;
            && buffer[|before|..n] == built && buffer[|before|] == built[0]
            && buffer[|before| + 1..n - 2] == built[1..|built| - 2]
  {
  }

  /** parseResponseAddress inverts buildAddressBuffer, whatever stands before and behind. */
  method BuildThenParse(addressType: Byte, bytes: seq<Byte>, port: nat, before: seq<Byte>, after: seq<Byte>)
    returns (response: Response)
    requires AddressField(addressType, bytes) && port <= 0xFFFF
    ensures response == Parsed(AddressOf(addressType, bytes), port, |bytes| + 3)
  {
    var built := BuildAddressBuffer(addressType, bytes, port).value;
    var buffer := before + built + after;
    ghost var end := |before| + |built|;
    Surrounded(before, built, after, end);
    assert built[1..|built| - 2] == bytes;
    response := ParseResponseAddress(buffer, |before|);
    assert AddressAt(buffer, |before|, end);
    assert buffer + [] == buffer;
    AddressEndsOnce(buffer, |before|, end, [], |before| + response.bytesRead);
    ghost var read := BuildAddressBuffer(addressType, bytes, response.port).value;
    assert read == built && read[|read| - 2] == built[|built| - 2] && read[|read| - 1] == built[|built| - 1];
  }
}
