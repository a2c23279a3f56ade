/**
 * The quiz performance panel's computations: the per-topic score adjustment, the best chapter,
 * the completed/remaining counts, the sum behind the average and the display name of a topic.
 * The base scores, which the panel draws at random, are an input here.
 */
module QuizPerformance {
  import opened Optional
  import opened Numbers
  import opened Utf16Text

  datatype PerformanceEntry = PerformanceEntry(chapter: string, score: int)

  // ===== Score adjustment =====

  /** `topicSeed * 2 - 5` with `topicSeed = topic.length % 5`; `length` counts UTF-16 code units. */
  function TopicOffset(topic: string): (o: int)
    ensures -5 <= o <= 3
    ensures o % 2 == 1
  {
    (JsLength(topic) % 5) * 2 - 5
  }

  /** The five offsets that occur, each for topic lengths of one residue modulo 5. */
  lemma TopicOffsetValues(topic: string)
    ensures TopicOffset(topic) in {-5, -3, -1, 1, 3}
    ensures TopicOffset(topic) == -5 <==> JsLength(topic) % 5 == 0
    ensures TopicOffset(topic) == 3 <==> JsLength(topic) % 5 == 4
  {
  }

  /** A topic of one character above U+FFFF has length 2 and so the offset -1, not the -3 its
      single character would give. */
  lemma AstralTopicOffset(c: char)
    requires c as int >= 0x1_0000
    ensures TopicOffset([c]) == -1
  {
    AstralLength(c);
  }

  /** `Math.max(0, Math.min(100, x))`. */
  function Clamp(x: int): (r: int)
    ensures 0 <= r <= 100
    ensures 0 <= x <= 100 ==> r == x
    ensures x < 0 ==> r == 0
    ensures x > 100 ==> r == 100
  {
    if 100 < x then 100 else if x < 0 then 0 else x
  }

  /** The adjusted entries: same chapters in the same order, each score shifted by the topic
      offset and clamped to [0, 100]. */
  function AdjustScores(base: seq<PerformanceEntry>, topic: string): (data: seq<PerformanceEntry>)
    ensures |data| == |base|
    ensures forall i :: 0 <= i < |data| ==>
      && data[i].chapter == base[i].chapter
      && 0 <= data[i].score <= 100
      && (0 <= base[i].score + TopicOffset(topic) <= 100 ==> data[i].score == base[i].score + TopicOffset(topic))
  {
    seq(|base|, i requires 0 <= i < |base| =>
      base[i].(score := Clamp(base[i].score + TopicOffset(topic))))
  }

  /** The eight chapter labels "Ch 1" to "Ch 8" paired with the given base scores. */
  function BaseData(scores: seq<int>): (base: seq<PerformanceEntry>)
    requires |scores| == 8
    ensures |base| == 8
    ensures forall i :: 0 <= i < 8 ==> base[i] == PerformanceEntry("Ch " + IntToDecimal(i + 1), scores[i])
  {
    seq(8, i requires 0 <= i < 8 => PerformanceEntry("Ch " + IntToDecimal(i + 1), scores[i]))
  }

  /** Base scores are drawn from [60, 99]: the adjusted score is at least 55 and is exact
      except where it would exceed 100, which clamping cuts off. */
  lemma DrawnScoresClampOnlyAtTop(base: seq<PerformanceEntry>, topic: string)
    requires forall i :: 0 <= i < |base| ==> 60 <= base[i].score <= 99
    ensures forall i :: 0 <= i < |base| ==>
      && 55 <= AdjustScores(base, topic)[i].score
      && (AdjustScores(base, topic)[i].score == base[i].score + TopicOffset(topic) ||
          AdjustScores(base, topic)[i].score == 100 < base[i].score + TopicOffset(topic))
  {
  }

  predicate ScoresInRange(data: seq<PerformanceEntry>) {
    forall i :: 0 <= i < |data| ==> 0 <= data[i].score <= 100
  }

  // ===== Sum and counts =====

  /** `reduce((sum, item) => sum + item.score, 0)`. */
  function Sum(data: seq<PerformanceEntry>): int {
    if data == [] then 0 else Sum(data[..|data| - 1]) + data[|data| - 1].score
  }

  /** The sum behind the average lies between 0 and 100 for every entry. */
  lemma {:induction false} SumBounds(data: seq<PerformanceEntry>)
    requires ScoresInRange(data)
    ensures 0 <= Sum(data) <= 100 * |data|
  {
    if data != [] {
      SumBounds(data[..|data| - 1]);
    }
  }

  /** `filter(d => d.score > 0).length`. */
  function Completed(data: seq<PerformanceEntry>): (n: nat)
    ensures n <= |data|
  {
    if data == [] then 0 else Completed(data[1..]) + (if data[0].score > 0 then 1 else 0)
  }

  /** `filter(d => d.score === 0).length`. */
  function Remaining(data: seq<PerformanceEntry>): (n: nat)
    ensures n <= |data|
  {
    if data == [] then 0 else Remaining(data[1..]) + (if data[0].score == 0 then 1 else 0)
  }

  /** With no negative score, every entry is counted exactly once as completed or remaining. */
  lemma {:induction false} CompletedRemainingPartition(data: seq<PerformanceEntry>)
    requires forall i :: 0 <= i < |data| ==> data[i].score >= 0
    ensures Completed(data) + Remaining(data) == |data|
  {
    if data != [] {
      CompletedRemainingPartition(data[1..]);
    }
  }

  /** The adjusted data of the panel always partitions. */
  lemma AdjustedPartition(base: seq<PerformanceEntry>, topic: string)
    ensures Completed(AdjustScores(base, topic)) + Remaining(AdjustScores(base, topic)) == |base|
    ensures ScoresInRange(AdjustScores(base, topic))
    ensures 0 <= Sum(AdjustScores(base, topic)) <= 100 * |base|
  {
    CompletedRemainingPartition(AdjustScores(base, topic));
    SumBounds(AdjustScores(base, topic));
  }

  /** With every score positive, every entry counts as completed and none as remaining. */
  lemma {:induction false} AllPositiveCounts(data: seq<PerformanceEntry>)
    requires forall i :: 0 <= i < |data| ==> data[i].score > 0
    ensures Completed(data) == |data| && Remaining(data) == 0
  {
    if data != [] {
      AllPositiveCounts(data[1..]);
    }
  }

  /** The panel's data as it is built: for drawn scores in [60, 99] the eight chapters keep their
      labels "Ch 1" to "Ch 8" and score at least 55 after the adjustment, so every chapter counts
      as completed and the "Remaining" slice of the pie is always empty. */
  lemma PanelDataAllCompleted(scores: seq<int>, topic: string)
    requires |scores| == 8
    requires forall i :: 0 <= i < 8 ==> 60 <= scores[i] <= 99
    ensures var data := AdjustScores(BaseData(scores), topic);
            && |data| == 8
            && (forall i :: 0 <= i < 8 ==>
                  data[i].chapter == "Ch " + IntToDecimal(i + 1) && 55 <= data[i].score)
            && Completed(data) == 8
            && Remaining(data) == 0
  {
    var base := BaseData(scores);
    DrawnScoresClampOnlyAtTop(base, topic);
    AllPositiveCounts(AdjustScores(base, topic));
  }

  // ===== Best chapter =====

  /** Non-increasing scores. */
  predicate SortedDescending(data: seq<PerformanceEntry>) {
    forall i, j :: 0 <= i < j < |data| ==> data[i].score >= data[j].score
  }

  /** Every entry scores at least v. */
  predicate AllAtMost(v: int, data: seq<PerformanceEntry>) {
    forall i :: 0 <= i < |data| ==> data[i].score <= v
  }

  /** Inserts x before the first entry that does not score more than x; placing the earlier
      entry first among equal scores keeps the sort stable. */
  function Insert(x: PerformanceEntry, data: seq<PerformanceEntry>): (r: seq<PerformanceEntry>)
    requires SortedDescending(data)
    ensures SortedDescending(r)
    ensures multiset(r) == multiset(data) + multiset{x}
  {
    if data == [] || data[0].score <= x.score then [x] + data
    else
      var rest := Insert(x, data[1..]);
      InsertBehind(x, data, rest);
      [data[0]] + rest
  }

  /** When x scores less than the first entry, the first entry followed by x inserted into the
      others is sorted and holds the entries and x. */
  lemma InsertBehind(x: PerformanceEntry, data: seq<PerformanceEntry>, rest: seq<PerformanceEntry>)
    requires SortedDescending(data) && data != [] && x.score < data[0].score
    requires SortedDescending(rest) && multiset(rest) == multiset(data[1..]) + multiset{x}
    ensures SortedDescending([data[0]] + rest)
    ensures multiset([data[0]] + rest) == multiset(data) + multiset{x}
  {
    assert AllAtMost(data[0].score, data[1..] + [x]);
    assert multiset(rest) == multiset(data[1..] + [x]);
    BoundFromMultiset(data[0].score, rest, data[1..] + [x]);
    ConsSorted(data[0], rest);
    assert data == [data[0]] + data[1..];
  }

  /** An entry scoring at least every entry of a sorted sequence can go in front of it. */
  lemma ConsSorted(head: PerformanceEntry, rest: seq<PerformanceEntry>)
    requires SortedDescending(rest) && AllAtMost(head.score, rest)
    ensures SortedDescending([head] + rest)
  {
  }

  /** The inserted entry goes first when no entry scores more. */
  lemma InsertHead(x: PerformanceEntry, data: seq<PerformanceEntry>)
    requires SortedDescending(data)
    ensures Insert(x, data)[0] == if data == [] || data[0].score <= x.score then x else data[0]
  {
  }

  lemma BoundFromMultiset(v: int, s: seq<PerformanceEntry>, u: seq<PerformanceEntry>)
    requires multiset(s) == multiset(u) && AllAtMost(v, u)
    ensures AllAtMost(v, s)
  {
    forall i | 0 <= i < |s| ensures s[i].score <= v {
      assert s[i] in multiset(u);
    }
  }

  /** `sort((a, b) => b.score - a.score)` on a copy: a stable sort by descending score. */
  function SortByScore(data: seq<PerformanceEntry>): (r: seq<PerformanceEntry>)
    ensures SortedDescending(r)
    ensures multiset(r) == multiset(data)
    ensures |r| == |data|
  {
    if data == [] then []
    else
      assert data == [data[0]] + data[1..];
      Insert(data[0], SortByScore(data[1..]))
  }

  /** The entry the panel shows as best chapter: the first of the sorted copy. */
  function BestChapter(data: seq<PerformanceEntry>): (best: Option<PerformanceEntry>)
    ensures best.Some? <==> data != []
  {
    var sorted := SortByScore(data);
    if sorted == [] then None else Some(sorted[0])
  }

  /** The best chapter is the earliest entry with the highest score: every entry scores at most
      as much, and every entry before it scores strictly less. */
  lemma {:induction false} BestChapterIsEarliestMaximum(data: seq<PerformanceEntry>)
    requires data != []
    ensures exists k :: 0 <= k < |data| && IsEarliestMaximum(data, k) && BestChapter(data) == Some(data[k])
  {
    if |data| == 1 {
      assert IsEarliestMaximum(data, 0);
    } else {
      var rest := SortByScore(data[1..]);
      BestChapterIsEarliestMaximum(data[1..]);
      var k' :| 0 <= k' < |data[1..]| && IsEarliestMaximum(data[1..], k') && BestChapter(data[1..]) == Some(data[1..][k']);
      InsertHead(data[0], rest);
      assert BestChapter(data) == Some(SortByScore(data)[0]);
      if rest[0].score <= data[0].score {
        FirstStaysBest(data, k');
        assert BestChapter(data) == Some(data[0]);
      } else {
        LaterStaysBest(data, k');
        assert BestChapter(data) == Some(data[k' + 1]);
      }
    }
  }

  /** A first entry scoring at least the rest's earliest maximum is the earliest maximum. */
  lemma FirstStaysBest(data: seq<PerformanceEntry>, k': nat)
    requires |data| > 1 && k' < |data| - 1 && IsEarliestMaximum(data[1..], k')
    requires data[1..][k'].score <= data[0].score
    ensures IsEarliestMaximum(data, 0)
  {
    forall i | 0 <= i < |data| ensures data[i].score <= data[0].score {
      if i > 0 {
        assert data[i] == data[1..][i - 1];
      }
    }
  }

  /** Otherwise the rest's earliest maximum is the earliest maximum of the whole. */
  lemma LaterStaysBest(data: seq<PerformanceEntry>, k': nat)
    requires |data| > 1 && k' < |data| - 1 && IsEarliestMaximum(data[1..], k')
    requires data[1..][k'].score > data[0].score
    ensures IsEarliestMaximum(data, k' + 1)
  {
    forall i | 0 <= i < |data|
      ensures data[i].score <= data[k' + 1].score && (i < k' + 1 ==> data[i].score < data[k' + 1].score)
    {
      if i > 0 {
        assert data[i] == data[1..][i - 1];
      }
    }
  }

  /** Entry k has the highest score and is the first entry with it. */
  predicate IsEarliestMaximum(data: seq<PerformanceEntry>, k: nat)
    requires k < |data|
  {
    && (forall i :: 0 <= i < |data| ==> data[i].score <= data[k].score)
    && (forall i :: 0 <= i < k ==> data[i].score < data[k].score)
  }

  // ===== Topic display name =====

  predicate IsUpper(c: char) {
    'A' <= c <= 'Z'
  }

  /** `toUpperCase` on the ASCII letters; every other character is kept. */
  function ToUpper(c: char): (u: char)
    ensures 'a' <= c <= 'z' ==> IsUpper(u) && u as int == c as int - 32
    ensures !('a' <= c <= 'z') ==> u == c
  {
    if 'a' <= c <= 'z' then (c as int - 'a' as int + 'A' as int) as char else c
  }

  /** The characters `String.prototype.trim` removes: white space and line terminators. */
  predicate IsWhitespace(c: char) {
    c == '\t' || c == '\n' || c == '\U{B}' || c == '\U{C}' || c == '\r' || c == ' ' ||
    c == '\U{A0}' || c == '\U{1680}' || ('\U{2000}' <= c <= '\U{200A}') || c == '\U{2028}' ||
    c == '\U{2029}' || c == '\U{202F}' || c == '\U{205F}' || c == '\U{3000}' || c == '\U{FEFF}'
  }

  /** `replace(/([A-Z])/g, ' $1')`: a space before each ASCII capital. With
      CapitalsFollowSpace and RemoveInsertedSpaces, which show where the spaces go and that the
      other characters keep their order, the length determines the result. */
  function SpaceBeforeCapitals(s: string): (r: string)
    ensures |r| == |s| + CountUpper(s)
  {
    if s == [] then []
    else (if IsUpper(s[0]) then [' ', s[0]] else [s[0]]) + SpaceBeforeCapitals(s[1..])
  }

  /** Every capital of r comes right after a space. */
  predicate SpaceBeforeEachCapital(r: string) {
    forall i :: 0 <= i < |r| && IsUpper(r[i]) ==> 0 < i && r[i - 1] == ' '
  }

  /** Every capital of the spaced text comes right after a space. */
  lemma {:induction false} CapitalsFollowSpace(s: string)
    ensures SpaceBeforeEachCapital(SpaceBeforeCapitals(s))
  {
    if s != [] {
      var head := if IsUpper(s[0]) then [' ', s[0]] else [s[0]];
      var rest := SpaceBeforeCapitals(s[1..]);
      var r := head + rest;
      assert SpaceBeforeCapitals(s) == r;
      CapitalsFollowSpace(s[1..]);
      forall i | 0 <= i < |r| && IsUpper(r[i])
        ensures 0 < i && r[i - 1] == ' '
      {
        if i >= |head| {
          var j := i - |head|;
          assert r[i] == rest[j] && IsUpper(rest[j]);
          assert 0 < j && rest[j - 1] == ' ';
          assert r[i - 1] == rest[j - 1];
        } else {
          assert r[i] == head[i];
        }
      }
    }
  }

  /** The text with every space deleted. */
  function RemoveSpaces(s: string): (r: string)
    ensures |r| <= |s|
    ensures forall k :: 0 <= k < |r| ==> r[k] != ' '
  {
    if s == [] then [] else (if s[0] == ' ' then [] else [s[0]]) + RemoveSpaces(s[1..])
  }

  lemma {:induction false} RemoveSpacesAppend(a: string, b: string)
    ensures RemoveSpaces(a + b) == RemoveSpaces(a) + RemoveSpaces(b)
  {
    if a == [] {
      assert a + b == b;
    } else {
      assert (a + b)[0] == a[0] && (a + b)[1..] == a[1..] + b;
      RemoveSpacesAppend(a[1..], b);
    }
  }

  /** For a topic without spaces, deleting the inserted spaces gives the topic back: spacing
      only inserts spaces and keeps every character in its order. */
  lemma {:induction false} RemoveInsertedSpaces(s: string)
    requires forall k :: 0 <= k < |s| ==> s[k] != ' '
    ensures RemoveSpaces(SpaceBeforeCapitals(s)) == s
  {
    if s != [] {
      var head := if IsUpper(s[0]) then [' ', s[0]] else [s[0]];
      assert RemoveSpaces(head) == [s[0]] by {
        if IsUpper(s[0]) {
          assert head[1..] == [s[0]];
        }
      }
      RemoveSpacesAppend(head, SpaceBeforeCapitals(s[1..]));
      RemoveInsertedSpaces(s[1..]);
      assert s == [s[0]] + s[1..];
    }
  }

  function CountUpper(s: string): nat {
    if s == [] then 0 else (if IsUpper(s[0]) then 1 else 0) + CountUpper(s[1..])
  }

  /** `replace(/^./, str => str.toUpperCase())`: the first character upper-cased unless it is a
      line terminator, which `.` does not match. */
  function CapitalizeFirst(s: string): (r: string)
    ensures |r| == |s|
    ensures s != [] ==> r[1..] == s[1..]
    ensures s != [] && 'a' <= s[0] <= 'z' ==> IsUpper(r[0]) && r[0] as int == s[0] as int - 32
    ensures s != [] && !('a' <= s[0] <= 'z') ==> r == s
  {
    if s == [] || s[0] in {'\n', '\r', '\U{2028}', '\U{2029}'} then s
    else [ToUpper(s[0])] + s[1..]
  }

  /** Leading white space removed: a suffix of s that does not start with white space, and
      everything cut off is white space. */
  function TrimStart(s: string): (r: string)
    ensures |r| <= |s| && r == s[|s| - |r|..]
    ensures r == [] || !IsWhitespace(r[0])
    ensures forall k :: 0 <= k < |s| - |r| ==> IsWhitespace(s[k])
  {
    if s != [] && IsWhitespace(s[0]) then TrimStart(s[1..]) else s
  }

  /** Trailing white space removed: a prefix of s that does not end with white space, and
      everything cut off is white space. */
  function TrimEnd(s: string): (r: string)
    ensures |r| <= |s| && r == s[..|r|]
    ensures r == [] || !IsWhitespace(r[|r| - 1])
    ensures forall k :: |r| <= k < |s| ==> IsWhitespace(s[k])
  {
    if s != [] && IsWhitespace(s[|s| - 1]) then TrimEnd(s[..|s| - 1]) else s
  }

  /** `trim`: a slice of s that neither starts nor ends with white space (TrimKeepsMiddle shows
      that only white space is cut off before and after it). */
  function Trim(s: string): (r: string)
    ensures |r| <= |s|
    ensures r == [] || (!IsWhitespace(r[0]) && !IsWhitespace(r[|r| - 1]))
    ensures s != [] && !IsWhitespace(s[0]) && !IsWhitespace(s[|s| - 1]) ==> r == s
  {
    var e := TrimEnd(s);
    var r := TrimStart(e);
    assert r != [] ==> r[|r| - 1] == e[|e| - 1];
    r
  }

  /** The trim keeps the middle of s: the result is the slice of s starting at offset a, and
      everything before it and after it is white space. */
  lemma TrimKeepsMiddle(s: string)
    ensures var r := Trim(s);
            var a := |TrimEnd(s)| - |r|;
            && 0 <= a && a + |r| <= |s| && r == s[a..a + |r|]
            && (forall k :: 0 <= k < a ==> IsWhitespace(s[k]))
            && (forall k :: a + |r| <= k < |s| ==> IsWhitespace(s[k]))
  {
    var e := TrimEnd(s);
    var r := TrimStart(e);
    assert Trim(s) == r;
    var a := |e| - |r|;
    assert a + |r| == |e|;
    forall k | 0 <= k < a
      ensures IsWhitespace(s[k])
    {
      assert s[k] == e[k];
    }
    assert r == s[a..a + |r|] by {
      assert r == e[a..];
      assert e == s[..|e|];
    }
  }

  /** Trimming twice trims nothing more. */
  lemma TrimIdempotent(s: string)
    ensures Trim(Trim(s)) == Trim(s)
  {
  }

  /** `formatTopicName`. */
  function FormatTopicName(topic: string): (name: string)
    ensures name == [] || (!IsWhitespace(name[0]) && !IsWhitespace(name[|name| - 1]))
  {
    Trim(CapitalizeFirst(SpaceBeforeCapitals(topic)))
  }

  /** Spacing keeps the last character last: spaces only go before capitals. */
  lemma {:induction false} LastKept(s: string)
    requires s != []
    ensures SpaceBeforeCapitals(s)[|SpaceBeforeCapitals(s)| - 1] == s[|s| - 1]
  {
    if |s| > 1 {
      LastKept(s[1..]);
    }
  }

  predicate IsLetter(c: char) {
    'a' <= c <= 'z' || 'A' <= c <= 'Z'
  }

  /** A camel-case topic (ASCII letters, not starting with a capital) loses nothing to the trim:
      its name is the topic with its first letter capitalised and one space before each capital,
      one character longer per capital. */
  lemma CamelCaseName(topic: string)
    requires topic != [] && !IsUpper(topic[0])
    requires forall k :: 0 <= k < |topic| ==> IsLetter(topic[k])
    ensures FormatTopicName(topic) == CapitalizeFirst(SpaceBeforeCapitals(topic))
    ensures |FormatTopicName(topic)| == |topic| + CountUpper(topic)
  {
    var spaced := SpaceBeforeCapitals(topic);
    var c := CapitalizeFirst(spaced);
    assert spaced[0] == topic[0];
    assert IsLetter(c[0]) by {
      assert 'a' <= spaced[0] <= 'z';
    }
    LastKept(topic);
    assert IsLetter(c[|c| - 1]) by {
      if |c| > 1 {
        assert c[|c| - 1] == spaced[|spaced| - 1] == topic[|topic| - 1];
      }
    }
    LetterNotWhitespace(c[0]);
    LetterNotWhitespace(c[|c| - 1]);
  }

  lemma LetterNotWhitespace(c: char)
    requires IsLetter(c)
    ensures !IsWhitespace(c)
  {
  }

  /** Spacing works character by character. */
  lemma {:induction false} SpaceAppend(a: string, b: string)
    ensures SpaceBeforeCapitals(a + b) == SpaceBeforeCapitals(a) + SpaceBeforeCapitals(b)
  {
    if a == [] {
      assert a + b == b;
    } else {
      assert (a + b)[0] == a[0] && (a + b)[1..] == a[1..] + b;
      SpaceAppend(a[1..], b);
    }
  }

  /** Text without capitals is left as it is. */
  lemma {:induction false} NoCapitalsUnchanged(s: string)
    requires forall k :: 0 <= k < |s| ==> !IsUpper(s[k])
    ensures SpaceBeforeCapitals(s) == s
  {
    if s != [] {
      NoCapitalsUnchanged(s[1..]);
    }
  }

  /** The spacing of the linear-algebra topic, one segment at a time. */
  lemma LinearAlgebraSpaced(lower1: string, capital: string, lower2: string)
    requires lower1 == "linear" && capital == "A" && lower2 == "lgebra"
    ensures SpaceBeforeCapitals(lower1 + capital + lower2) == lower1 + " " + capital + lower2
  {
    SpaceAppend(lower1 + capital, lower2);
    SpaceAppend(lower1, capital);
    NoCapitalsUnchanged(lower1);
    NoCapitalsUnchanged(lower2);
    assert SpaceBeforeCapitals(capital) == " " + capital;
  }

  /** The display name of the linear-algebra topic (the topic is a parameter so that the
      proof steps through the spacing instead of unfolding it on the literal). */
  lemma LinearAlgebraName(topic: string)
    requires topic == "linearAlgebra"
    ensures FormatTopicName(topic) == "Linear Algebra"
  {
    assert topic == "linear" + "A" + "lgebra";
    var spaced := SpaceBeforeCapitals(topic);
    LinearAlgebraSpaced("linear", "A", "lgebra");
    assert spaced == "l" + "inear Algebra";
    CapitalizedName(spaced, "inear Algebra");
    LettersUntrimmed(CapitalizeFirst(spaced));
  }

  /** Text that starts and ends with a letter loses nothing to the trim. */
  lemma LettersUntrimmed(s: string)
    requires s != [] && IsLetter(s[0]) && IsLetter(s[|s| - 1])
    ensures Trim(s) == s
  {
    LetterNotWhitespace(s[0]);
    LetterNotWhitespace(s[|s| - 1]);
  }

  /** Capitalising the spaced linear-algebra topic. */
  lemma CapitalizedName(spaced: string, rest: string)
    requires spaced == "l" + rest && rest == "inear Algebra"
    ensures CapitalizeFirst(spaced) == "Linear Algebra"
  {
    assert spaced[0] == 'l' && spaced[1..] == rest;
    assert "L" + rest == "Linear Algebra";
  }
}
