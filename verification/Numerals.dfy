/** Numbers as text: Number.prototype.toString and the part of parseInt that takes digits. */
module Numerals {
  function Digit(d: nat): (c: char)
    requires d < 16
    ensures IsHexDigit(c) && DigitValue(c) == d
  {
    if d < 10 then '0' + d as char else 'a' + (d - 10) as char
  }

  predicate IsHexDigit(c: char) {
    '0' <= c <= '9' || 'a' <= c <= 'f' || 'A' <= c <= 'F'
  }

  function DigitValue(c: char): (d: nat)
    requires IsHexDigit(c)
    ensures d < 16
  {
    if c <= '9' then (c - '0') as nat else if c <= 'F' then (c - 'A') as nat + 10 else (c - 'a') as nat + 10
  }

  /** Small letters and capitals say the same. */
  lemma HexLetters(k: nat)
    requires k < 6
    ensures IsHexDigit("abcdef"[k]) && IsHexDigit("ABCDEF"[k])
    ensures DigitValue("abcdef"[k]) == DigitValue("ABCDEF"[k]) == 10 + k
  {
    assert "abcdef"[k] as int == 'a' as int + k && "ABCDEF"[k] as int == 'A' as int + k;
  }

  lemma Divided(n: nat, base: nat)
    requires 2 <= base <= n
    ensures n / base < n
  {
    var q, r := n / base, n % base;
    assert n == base * q + r;
    AtLeastTwice(base, q);
  }

  lemma AtLeastTwice(a: nat, b: nat)
    requires a >= 2
    ensures a * b >= 2 * b
  {
    assert (a - 2) * b == a * b - 2 * b;
  }

  /** Number.prototype.toString */
  function Digits(n: nat, base: nat): (s: string)
    requires 2 <= base <= 16
    ensures s != [] && forall i :: 0 <= i < |s| ==> IsHexDigit(s[i])
  {
    if n < base then [Digit(n)] else
      Divided(n, base);
      Digits(n / base, base) + [Digit(n % base)]
  }

  function Value(s: string, base: nat): nat
    requires forall i :: 0 <= i < |s| ==> IsHexDigit(s[i])
  {
    if s == [] then 0 else base * Value(s[..|s| - 1], base) + DigitValue(s[|s| - 1])
  }

  /** A number written out and read back is the number. */
  lemma {:induction false} DigitsRead(n: nat, base: nat)
    requires 2 <= base <= 16
    ensures Value(Digits(n, base), base) == n
  {
    if n < base {
      ValueOne(Digit(n), base);
    } else {
      Divided(n, base);
      DigitsRead(n / base, base);
      ValueSnoc(Digits(n / base, base), Digit(n % base), base);
      hide Value;
      DividedBack(n, base);
    }
  }

  lemma ValueOne(c: char, base: nat)
    requires IsHexDigit(c)
    ensures Value([c], base) == DigitValue(c)
  {
    assert [c][..0] == [] && Value([], base) == 0;
    assert base * 0 == 0;
  }

  lemma ValueSnoc(s: string, c: char, base: nat)
    requires IsHexDigit(c) && forall i :: 0 <= i < |s| ==> IsHexDigit(s[i])
    ensures Value(s + [c], base) == base * Value(s, base) + DigitValue(c)
  {
    assert (s + [c])[..|s|] == s;
  }

  lemma DividedBack(n: nat, base: nat)
    requires base >= 2
    ensures n == base * (n / base) + n % base
  {
  }

  /** How many hex digits `w` starts with. */
  function HexRun(w: string): (k: nat)
    ensures k <= |w|
    ensures forall i :: 0 <= i < k ==> IsHexDigit(w[i])
    ensures k < |w| ==> !IsHexDigit(w[k])
  {
    if w == [] || !IsHexDigit(w[0]) then 0 else 1 + HexRun(w[1..])
  }

  predicate IsDecimal(c: char) {
    '0' <= c <= '9'
  }

  /** How many decimal digits `w` starts with. */
  function DecimalRun(w: string): (k: nat)
    ensures k <= |w|
    ensures forall i :: 0 <= i < k ==> IsDecimal(w[i])
    ensures k < |w| ==> !IsDecimal(w[k])
  {
    if w == [] || !IsDecimal(w[0]) then 0 else 1 + DecimalRun(w[1..])
  }

  lemma DecimalRunIs(s: string, t: string)
    requires forall i :: 0 <= i < |s| ==> IsDecimal(s[i])
    requires t != [] && !IsDecimal(t[0])
    ensures DecimalRun(s + t) == |s|
  {
    var k := DecimalRun(s + t);
    assert (s + t)[|s|] == t[0];
  }

  lemma {:induction false} DigitsDecimal(n: nat)
    ensures forall i :: 0 <= i < |Digits(n, 10)| ==> IsDecimal(Digits(n, 10)[i])
  {
    if n >= 10 {
      DigitsDecimal(n / 10);
    }
  }

  lemma HexRunIs(s: string, t: string)
    requires forall i :: 0 <= i < |s| ==> IsHexDigit(s[i])
    requires t != [] && !IsHexDigit(t[0])
    ensures HexRun(s + t) == |s|
  {
    var k := HexRun(s + t);
    assert (s + t)[|s|] == t[0];
  }
}
