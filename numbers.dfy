/**
 * Number formatting and 32-bit integer arithmetic as ECMAScript defines them,
 * restricted to the integer values the modelled code produces.
 */
module Numbers {

  const TwoTo31: int := 0x8000_0000
  const TwoTo32: int := 0x1_0000_0000

  /** The range of a signed 32-bit integer. */
  predicate IsInt32(x: int) {
    -TwoTo31 <= x < TwoTo31
  }

  /** ECMAScript ToInt32 on an integer-valued number: the signed 32-bit value congruent to x. */
  function ToInt32(x: int): (r: int)
    ensures IsInt32(r)
    ensures (x - r) % TwoTo32 == 0
  {
    var m := x % TwoTo32;
    if m >= TwoTo31 then m - TwoTo32 else m
  }

  lemma ToInt32OfInt32(x: int)
    requires IsInt32(x)
    ensures ToInt32(x) == x
  {
  }

  /** ToInt32 depends only on the residue of its argument modulo 2^32. */
  lemma ToInt32Congruent(x: int, k: int)
    ensures ToInt32(x + k * TwoTo32) == ToInt32(x)
  {
    assert (x + k * TwoTo32) % TwoTo32 == x % TwoTo32;
  }

  /** Math.abs of a signed 32-bit value. */
  function Abs(x: int): (r: nat)
    ensures r == x || r == -x
  {
    if x < 0 then -x else x
  }

  predicate ValidRadix(radix: nat) {
    2 <= radix <= 36
  }

  /** The character Number.prototype.toString(radix) writes for digit d: 0-9, then a-z. */
  function DigitChar(d: nat): (c: char)
    requires d < 36
    ensures '0' <= c <= '9' || 'a' <= c <= 'z'
  {
    if d < 10 then ('0' as int + d) as char else ('a' as int + d - 10) as char
  }

  /** Digits of n in the given radix, most significant first, without leading zeros. */
  function Digits(n: nat, radix: nat): (ds: seq<nat>)
    requires ValidRadix(radix)
    ensures |ds| >= 1
    ensures forall i :: 0 <= i < |ds| ==> ds[i] < radix
    ensures |ds| > 1 ==> ds[0] != 0
    ensures DigitsValue(ds, radix) == n
    decreases n
  {
    if n < radix then [n]
    else
      var (q, d) := LastDigit(n, radix);
      var front := Digits(q, radix);
      AppendDigit(front, q, d, radix);
      front + [d]
  }

  /** n split into n / radix and its last digit n % radix. */
  function LastDigit(n: nat, radix: nat): (qd: (nat, nat))
    requires ValidRadix(radix)
    ensures qd.1 < radix && qd.0 * radix + qd.1 == n
    ensures n >= radix ==> 0 < qd.0 < n
  {
    DivideByRadix(n, radix);
    (n / radix, n % radix)
  }

  lemma DivideByRadix(n: nat, radix: nat)
    requires ValidRadix(radix)
    ensures (n / radix) * radix + n % radix == n
    ensures n >= radix ==> 0 < n / radix < n
  {
    var q, d := n / radix, n % radix;
    assert n == radix * q + d;
    if n >= radix {
      assert q != 0;
      NatProduct(radix - 2, q);
      assert radix * q == (radix - 2) * q + 2 * q;
    }
  }

  /** Appending a digit d to the digits of q gives the digits of q * radix + d. */
  lemma AppendDigit(front: seq<nat>, q: nat, d: nat, radix: nat)
    requires front != [] && DigitsValue(front, radix) == q
    ensures (front + [d])[0] == front[0]
    ensures DigitsValue(front + [d], radix) == q * radix + d
  {
    var ds := front + [d];
    assert ds[..|ds| - 1] == front;
  }

  /** The number a digit sequence denotes (most significant digit first). */
  function DigitsValue(ds: seq<nat>, radix: nat): nat {
    if ds == [] then 0 else DigitsValue(ds[..|ds| - 1], radix) * radix + ds[|ds| - 1]
  }

  function DigitsString(ds: seq<nat>): (s: string)
    requires forall i :: 0 <= i < |ds| ==> ds[i] < 36
    ensures |s| == |ds|
  {
    seq(|ds|, i requires 0 <= i < |ds| => DigitChar(ds[i]))
  }

  /** Number.prototype.toString(radix) for a non-negative integer: lower-case digits, no leading zero. */
  function ToRadixString(n: nat, radix: nat): (s: string)
    requires ValidRadix(radix)
    ensures |s| >= 1
    ensures forall i :: 0 <= i < |s| ==> DigitOf(s[i], radix) < radix
    ensures |s| > 1 ==> s[0] != '0'
  {
    DigitsString(Digits(n, radix))
  }

  /** The value of one digit character, or radix if it is not a digit of that radix. */
  function DigitOf(c: char, radix: nat): (d: nat)
    requires ValidRadix(radix)
    ensures d <= radix
    ensures d < radix ==> DigitChar(d) == c
  {
    var v := if '0' <= c <= '9' then c as int - '0' as int
             else if 'a' <= c <= 'z' then c as int - 'a' as int + 10
             else radix;
    if v < radix then v else radix
  }

  /** Reads back a string of digits of the given radix (parseInt without sign or prefix). */
  function ParseRadix(s: string, radix: nat): nat
    requires ValidRadix(radix)
  {
    if s == [] then 0
    else
      var front := ParseRadix(s[..|s| - 1], radix);
      NatProduct(front, radix);
      front * radix + DigitOf(s[|s| - 1], radix)
  }

  lemma NatProduct(a: nat, b: nat)
    ensures a * b >= 0
  {
  }

  /** Reading back a digit string gives the number its digits denote. */
  lemma {:induction false} ParseDigitsString(ds: seq<nat>, radix: nat)
    requires ValidRadix(radix)
    requires forall i :: 0 <= i < |ds| ==> ds[i] < radix
    ensures ParseRadix(DigitsString(ds), radix) == DigitsValue(ds, radix)
  {
    if ds != [] {
      var front := ds[..|ds| - 1];
      assert DigitsString(ds)[..|ds| - 1] == DigitsString(front);
      ParseDigitsString(front, radix);
    }
  }

  lemma ParseToRadixString(n: nat, radix: nat)
    requires ValidRadix(radix)
    ensures ParseRadix(ToRadixString(n, radix), radix) == n
  {
    ParseDigitsString(Digits(n, radix), radix);
  }

  /** String(n) for an integer n, in plain digits: an optional minus sign, then decimal digits
      with no leading zero. (JavaScript switches to exponent notation from 10^21 on.) */
  function IntToDecimal(n: int): (s: string)
    ensures |s| >= 1
    ensures n < 0 <==> s[0] == '-'
    ensures forall i :: 0 < i < |s| ==> '0' <= s[i] <= '9'
    ensures var k := if n < 0 then 1 else 0;
            && k < |s|
            && (forall i :: k <= i < |s| ==> '0' <= s[i] <= '9')
            && (|s| > k + 1 ==> s[k] != '0')
  {
    if n < 0 then "-" + ToRadixString(-n, 10) else ToRadixString(n, 10)
  }

  /** Reads back what IntToDecimal wrote. */
  function DecimalToInt(s: string): int {
    if |s| > 0 && s[0] == '-' then -(ParseRadix(s[1..], 10) as int) else ParseRadix(s, 10)
  }

  lemma DecimalRoundTrip(n: int)
    ensures DecimalToInt(IntToDecimal(n)) == n
  {
    if n < 0 {
      ParseToRadixString(-n, 10);
      assert IntToDecimal(n)[1..] == ToRadixString(-n, 10);
    } else {
      ParseToRadixString(n, 10);
    }
  }
}
