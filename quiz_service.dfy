/**
 * The question service's topic conversion, `topic.replace(/([a-z])([A-Z])/g, '$1-$2').toLowerCase()`,
 * and the module path it builds from the converted topic and the chapter number.
 *
 * The replacement is written as the scan the regular expression performs (a match consumes
 * both of its characters) and proved equal to a character-by-character description: a hyphen
 * after every lower-case letter that is followed by a capital.
 */
module QuizService {
  import opened Numbers

  predicate IsLower(c: char) {
    'a' <= c <= 'z'
  }

  predicate IsUpper(c: char) {
    'A' <= c <= 'Z'
  }

  /** `toLowerCase` on the ASCII letters; every other character is kept. */
  function ToLower(c: char): (l: char)
    ensures !IsUpper(l)
    ensures IsUpper(c) ==> IsLower(l) && l as int == c as int + 32
    ensures !IsUpper(c) ==> l == c
  {
    if IsUpper(c) then (c as int + 32) as char else c
  }

  function LowerAll(s: string): (r: string)
    ensures |r| == |s|
    ensures forall i :: 0 <= i < |s| ==> r[i] == ToLower(s[i])
  {
    seq(|s|, i requires 0 <= i < |s| => ToLower(s[i]))
  }

  /** A lower-case letter followed by a capital at position i. */
  predicate Boundary(s: string, i: int) {
    0 <= i && i + 1 < |s| && IsLower(s[i]) && IsUpper(s[i + 1])
  }

  /** The global replacement as the regular expression scans: a match at the front is replaced
      by its two characters around a hyphen and the scan resumes after it. */
  function ReplaceScan(s: string): string {
    if s == [] then []
    else if |s| >= 2 && IsLower(s[0]) && IsUpper(s[1]) then [s[0], '-', s[1]] + ReplaceScan(s[2..])
    else [s[0]] + ReplaceScan(s[1..])
  }

  /** The character-by-character description: each character, followed by a hyphen where it
      starts a boundary. */
  function Hyphenate(s: string): string {
    if s == [] then []
    else (if Boundary(s, 0) then [s[0], '-'] else [s[0]]) + Hyphenate(s[1..])
  }

  /** Number of boundaries. */
  function Boundaries(s: string): nat {
    if s == [] then 0 else (if Boundary(s, 0) then 1 else 0) + Boundaries(s[1..])
  }

  /** Two matches never overlap (a boundary's capital cannot start another boundary), so the scan
      inserts a hyphen at every boundary and nowhere else. */
  lemma {:induction false} ScanIsHyphenate(s: string)
    ensures ReplaceScan(s) == Hyphenate(s)
  {
    if s == [] {
    } else if |s| >= 2 && IsLower(s[0]) && IsUpper(s[1]) {
      ScanIsHyphenate(s[2..]);
      assert !Boundary(s[1..], 0);
      assert s[1..][1..] == s[2..];
    } else {
      ScanIsHyphenate(s[1..]);
    }
  }

  /** The converted topic. */
  function ToKebab(topic: string): (r: string)
    ensures forall i :: 0 <= i < |r| ==> !IsUpper(r[i])
  {
    LowerAll(ReplaceScan(topic))
  }

  /** One hyphen is inserted per boundary. */
  lemma {:induction false} HyphenateLength(s: string)
    ensures |Hyphenate(s)| == |s| + Boundaries(s)
  {
    if s != [] {
      HyphenateLength(s[1..]);
    }
  }

  lemma KebabLength(topic: string)
    ensures |ToKebab(topic)| == |topic| + Boundaries(topic)
  {
    ScanIsHyphenate(topic);
    HyphenateLength(topic);
  }

  function RemoveHyphens(s: string): (r: string)
    ensures |r| <= |s|
  {
    if s == [] then [] else (if s[0] == '-' then [] else [s[0]]) + RemoveHyphens(s[1..])
  }

  lemma {:induction false} RemoveHyphensAppend(a: string, b: string)
    ensures RemoveHyphens(a + b) == RemoveHyphens(a) + RemoveHyphens(b)
  {
    if a == [] {
      assert a + b == b;
    } else {
      assert (a + b)[0] == a[0] && (a + b)[1..] == a[1..] + b;
      RemoveHyphensAppend(a[1..], b);
    }
  }

  lemma LowerAllAppend(a: string, b: string)
    ensures LowerAll(a + b) == LowerAll(a) + LowerAll(b)
  {
  }

  /** For a topic without hyphens of its own, deleting the hyphens of the converted topic gives
      back the lower-cased topic: every other character keeps its place and order. */
  lemma {:induction false} RemoveInsertedHyphens(topic: string)
    requires forall i :: 0 <= i < |topic| ==> topic[i] != '-'
    ensures RemoveHyphens(ToKebab(topic)) == LowerAll(topic)
  {
    ScanIsHyphenate(topic);
    HyphenateLowered(topic);
  }

  lemma {:induction false} HyphenateLowered(s: string)
    requires forall i :: 0 <= i < |s| ==> s[i] != '-'
    ensures RemoveHyphens(LowerAll(Hyphenate(s))) == LowerAll(s)
  {
    if s != [] {
      var head, tail := HeadPart(s), Hyphenate(s[1..]);
      assert RemoveHyphens(LowerAll(head)) == [ToLower(s[0])] by {
        HeadLowered(s[0], head);
      }
      assert RemoveHyphens(LowerAll(tail)) == LowerAll(s[1..]) by {
        HyphenateLowered(s[1..]);
      }
      assert RemoveHyphens(LowerAll(head + tail)) == RemoveHyphens(LowerAll(head)) + RemoveHyphens(LowerAll(tail)) by {
        LowerAllAppend(head, tail);
        RemoveHyphensAppend(LowerAll(head), LowerAll(tail));
      }
      assert LowerAll(s) == [ToLower(s[0])] + LowerAll(s[1..]) by {
        LowerAllAppend([s[0]], s[1..]);
        assert s == [s[0]] + s[1..];
      }
    }
  }

  /** One character, with or without a hyphen after it, lower-cased and without its hyphen. */
  lemma HeadLowered(c: char, head: string)
    requires c != '-' && (head == [c, '-'] || head == [c])
    ensures RemoveHyphens(LowerAll(head)) == [ToLower(c)]
  {
    assert ToLower(c) != '-';
    if head == [c, '-'] {
      assert LowerAll(head) == [ToLower(c), '-'];
      assert RemoveHyphens(LowerAll(head)) == [ToLower(c)] + RemoveHyphens(['-']);
    } else {
      assert LowerAll(head) == [ToLower(c)];
    }
  }

  /** Text without capitals has no boundary, so the scan changes nothing. */
  lemma {:induction false} NoCapitalsNoHyphens(s: string)
    requires forall i :: 0 <= i < |s| ==> !IsUpper(s[i])
    ensures Hyphenate(s) == s && Boundaries(s) == 0
  {
    if s != [] {
      NoCapitalsNoHyphens(s[1..]);
    }
  }

  /** Converting a converted topic changes nothing. */
  lemma KebabIdempotent(topic: string)
    ensures ToKebab(ToKebab(topic)) == ToKebab(topic)
  {
    var k := ToKebab(topic);
    ScanIsHyphenate(k);
    NoCapitalsNoHyphens(k);
  }

  /** The scan of the linear-algebra topic, one segment at a time. */
  lemma LinearAlgebraScan(a: string, b: string, c: string)
    requires a == "linea" && b == "rAlgebra" && c == "lgebra"
    ensures ReplaceScan(a + b) == a + "r-A" + c
  {
    ScanAppend(a, b);
    NoCapitalsScan(a);
    assert b[2..] == c;
    assert ReplaceScan(b) == ['r', '-', 'A'] + ReplaceScan(c);
    NoCapitalsScan(c);
  }

  /** The linear-algebra topic (a parameter so that the proof steps through the conversion). */
  lemma LinearAlgebraKebab(topic: string)
    requires topic == "linearAlgebra"
    ensures ToKebab(topic) == "linear-algebra"
  {
    assert topic == "linea" + "rAlgebra";
    LinearAlgebraScan("linea", "rAlgebra", "lgebra");
    assert "linea" + "r-A" + "lgebra" == "linear-" + ("A" + "lgebra");
    LowerAllAppend("linear-", "A" + "lgebra");
    LowerPieces("linear-", "A", "lgebra");
  }

  /** Lower-casing the pieces of the converted linear-algebra topic. */
  lemma LowerPieces(front: string, capital: string, rest: string)
    requires front == "linear-" && capital == "A" && rest == "lgebra"
    ensures LowerAll(front) + LowerAll(capital + rest) == "linear-algebra"
  {
    assert LowerAll(front) == front;
    assert LowerAll(capital + rest) == "a" + rest;
    assert front + ("a" + rest) == "linear-algebra";
  }

  /** The scan distributes over a split that does not cut a boundary. */
  lemma {:induction false} ScanAppend(a: string, b: string)
    requires !(a != [] && b != [] && IsLower(a[|a| - 1]) && IsUpper(b[0]))
    ensures ReplaceScan(a + b) == ReplaceScan(a) + ReplaceScan(b)
  {
    ScanIsHyphenate(a + b);
    ScanIsHyphenate(a);
    ScanIsHyphenate(b);
    HyphenateAppend(a, b);
  }

  lemma {:induction false} HyphenateAppend(a: string, b: string)
    requires !(a != [] && b != [] && IsLower(a[|a| - 1]) && IsUpper(b[0]))
    ensures Hyphenate(a + b) == Hyphenate(a) + Hyphenate(b)
  {
    if a == [] {
      assert a + b == b;
    } else {
      var head := HeadPart(a);
      SplitFront(a, b);
      HyphenateAppend(a[1..], b);
      var x, y := Hyphenate(a[1..]), Hyphenate(b);
      assert Hyphenate(a + b) == head + (x + y);
      assert head + (x + y) == (head + x) + y;
    }
  }

  /** What `Hyphenate` writes for the first character. */
  function HeadPart(s: string): (head: string)
    requires s != []
    ensures Hyphenate(s) == head + Hyphenate(s[1..])
  {
    if Boundary(s, 0) then [s[0], '-'] else [s[0]]
  }

  /** Taking the first character off a non-empty front part keeps the split away from a
      boundary and leaves the first character's output alone. */
  lemma SplitFront(a: string, b: string)
    requires a != [] && !(b != [] && IsLower(a[|a| - 1]) && IsUpper(b[0]))
    ensures (a + b)[1..] == a[1..] + b
    ensures HeadPart(a + b) == HeadPart(a)
    ensures !(a[1..] != [] && b != [] && IsLower(a[1..][|a[1..]| - 1]) && IsUpper(b[0]))
  {
    var ab := a + b;
    assert ab[0] == a[0];
    if |a| > 1 {
      assert ab[1] == a[1];
      assert a[1..][|a[1..]| - 1] == a[|a| - 1];
    }
  }

  lemma NoCapitalsScan(s: string)
    requires forall i :: 0 <= i < |s| ==> !IsUpper(s[i])
    ensures ReplaceScan(s) == s && LowerAll(s) == s
  {
    ScanIsHyphenate(s);
    NoCapitalsNoHyphens(s);
  }

  /** The path of the question module `fetchQuestions` imports. */
  function ImportPath(topic: string, chapter: int): (path: string)
    ensures |path| >= 30
    ensures path[..17] == "@/data/questions/"
    ensures path[|path| - 3..] == ".ts"
  {
    "@/data/questions/" + ToKebab(topic) + "/chapter-" + IntToDecimal(chapter) + ".ts"
  }

  /** Different chapters of one topic import different modules. */
  lemma ImportPathSeparatesChapters(topic: string, c1: int, c2: int)
    requires ImportPath(topic, c1) == ImportPath(topic, c2)
    ensures c1 == c2
  {
    var head := "@/data/questions/" + ToKebab(topic) + "/chapter-";
    var p1, p2 := ImportPath(topic, c1), ImportPath(topic, c2);
    assert p1 == head + IntToDecimal(c1) + ".ts";
    assert p2 == head + IntToDecimal(c2) + ".ts";
    assert IntToDecimal(c1) == p1[|head|..|p1| - 3];
    assert IntToDecimal(c2) == p2[|head|..|p2| - 3];
    DecimalRoundTrip(c1);
    DecimalRoundTrip(c2);
  }
}
