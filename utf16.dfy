/**
 * JavaScript strings as the engine stores them: sequences of UTF-16 code units. `length` and
 * `charCodeAt` count and read code units, so a character above U+FFFF counts twice.
 */
module Utf16Text {
  /** The UTF-16 code units of one character: itself below U+10000, a surrogate pair above. */
  function Utf16(c: char): (units: seq<int>)
    ensures 1 <= |units| <= 2
    ensures forall k :: 0 <= k < |units| ==> 0 <= units[k] < 0x1_0000
    ensures |units| == 1 <==> c as int < 0x1_0000
  {
    var v := c as int;
    if v < 0x1_0000 then [v]
    else [0xD800 + (v - 0x1_0000) / 0x400, 0xDC00 + (v - 0x1_0000) % 0x400]
  }

  /** What `charCodeAt` reads, index by index. */
  function CodeUnits(s: string): (units: seq<int>)
    ensures |units| >= |s|
    ensures forall k :: 0 <= k < |units| ==> 0 <= units[k] < 0x1_0000
  {
    if s == [] then [] else CodeUnits(s[..|s| - 1]) + Utf16(s[|s| - 1])
  }

  /** A surrogate pair decodes to the character it encodes. */
  lemma Utf16RoundTrip(c: char)
    requires c as int >= 0x1_0000
    ensures var u := Utf16(c);
      0xD800 <= u[0] < 0xDC00 && 0xDC00 <= u[1] < 0xE000 &&
      0x1_0000 + (u[0] - 0xD800) * 0x400 + (u[1] - 0xDC00) == c as int
  {
  }

  /** `s.length`: the number of UTF-16 code units of s. */
  function JsLength(s: string): (n: nat)
    ensures n >= |s|
    ensures (forall k :: 0 <= k < |s| ==> s[k] as int < 0x1_0000) ==> n == |s|
  {
    if forall k :: 0 <= k < |s| ==> s[k] as int < 0x1_0000 then
      BasicPlaneLength(s);
      |CodeUnits(s)|
    else |CodeUnits(s)|
  }

  /** A string of characters below U+10000 has one code unit per character. */
  lemma {:induction false} BasicPlaneLength(s: string)
    requires forall k :: 0 <= k < |s| ==> s[k] as int < 0x1_0000
    ensures |CodeUnits(s)| == |s|
  {
    if s != [] {
      BasicPlaneLength(s[..|s| - 1]);
    }
  }

  /** One character above U+FFFF has length 2. */
  lemma AstralLength(c: char)
    requires c as int >= 0x1_0000
    ensures JsLength([c]) == 2
  {
    assert [c][..0] == [];
    assert CodeUnits([c]) == CodeUnits([]) + Utf16(c);
  }
}
