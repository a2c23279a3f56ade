/**
 * The order in which the full solution is displayed: the entries sorted by stepNumber
 * (`fullSolution.sort((a, b) => a.stepNumber - b.stepNumber)`).
 *
 * The sort is stated as a stable insertion sort on a sequence; since the entries of a
 * consistent state carry distinct step numbers, any stored order of the same entries is
 * displayed the same way.
 */
module SolutionDisplay {
  import opened SolverSteps
  import opened SolverEngine

  /** Entries in non-decreasing order of stepNumber. */
  predicate SortedByStep(items: seq<SolutionItem>) {
    forall i, j :: 0 <= i < j < |items| ==> items[i].stepNumber <= items[j].stepNumber
  }

  /** No two entries share a step number. */
  predicate DistinctStepNumbers(items: seq<SolutionItem>) {
    forall i, j :: 0 <= i < j < |items| ==> items[i].stepNumber != items[j].stepNumber
  }

  /** Inserts one entry before the first entry whose stepNumber is not smaller. */
  function Insert(x: SolutionItem, items: seq<SolutionItem>): (r: seq<SolutionItem>)
    requires SortedByStep(items)
    ensures SortedByStep(r)
    ensures multiset(r) == multiset(items) + multiset{x}
    ensures |r| == |items| + 1
  {
    if items == [] || x.stepNumber <= items[0].stepNumber then [x] + items
    else
      var rest := Insert(x, items[1..]);
      InsertBehind(x, items, rest);
      [items[0]] + rest
  }

  /** When x comes after the first entry, the first entry followed by x inserted into the
      others is sorted and holds the entries and x. */
  lemma InsertBehind(x: SolutionItem, items: seq<SolutionItem>, rest: seq<SolutionItem>)
    requires SortedByStep(items) && items != [] && items[0].stepNumber < x.stepNumber
    requires SortedByStep(rest) && multiset(rest) == multiset(items[1..]) + multiset{x}
    ensures SortedByStep([items[0]] + rest)
    ensures multiset([items[0]] + rest) == multiset(items) + multiset{x}
  {
    assert AllAtLeast(items[0].stepNumber, items[1..] + [x]);
    assert multiset(rest) == multiset(items[1..] + [x]);
    BoundFromMultiset(items[0].stepNumber, rest, items[1..] + [x]);
    assert items == [items[0]] + items[1..];
  }

  /** Every entry has a stepNumber of at least v. */
  predicate AllAtLeast(v: nat, items: seq<SolutionItem>) {
    forall i :: 0 <= i < |items| ==> v <= items[i].stepNumber
  }

  /** A lower bound on step numbers carries over to any rearrangement. */
  lemma BoundFromMultiset(v: nat, s: seq<SolutionItem>, u: seq<SolutionItem>)
    requires multiset(s) == multiset(u) && AllAtLeast(v, u)
    ensures AllAtLeast(v, s)
  {
    forall i | 0 <= i < |s| ensures v <= s[i].stepNumber {
      assert s[i] in multiset(u);
    }
  }

  /** The entries in display order. */
  function DisplayOrder(items: seq<SolutionItem>): (r: seq<SolutionItem>)
    ensures SortedByStep(r)
    ensures multiset(r) == multiset(items)
  {
    if items == [] then []
    else
      assert items == [items[0]] + items[1..];
      Insert(items[0], DisplayOrder(items[1..]))
  }

  /** The entries of a consistent state have distinct step numbers: each names the step its
      number indexes, step ids are unique and no step has two entries. */
  lemma WellFormedDistinct(t: seq<Step>, items: seq<SolutionItem>)
    requires UniqueStepIds(t) && SolutionItemsWellFormed(t, items)
    ensures DistinctStepNumbers(items)
  {
  }

  /** Two sorted arrangements of the same entries with distinct step numbers start alike. */
  lemma SameHead(a: seq<SolutionItem>, b: seq<SolutionItem>)
    requires SortedByStep(a) && SortedByStep(b) && DistinctStepNumbers(a)
    requires multiset(a) == multiset(b) && a != [] && b != []
    ensures a[0] == b[0]
  {
    assert a[0] in multiset(b);
    var k :| 0 <= k < |b| && b[k] == a[0];
    assert b[0] in multiset(a);
    var m :| 0 <= m < |a| && a[m] == b[0];
    assert a[0].stepNumber <= a[m].stepNumber;
    assert b[0].stepNumber <= b[k].stepNumber;
  }

  /** Removing the same first entry from two arrangements of the same entries leaves arrangements
      of the same entries. */
  lemma SameTail(a: seq<SolutionItem>, b: seq<SolutionItem>)
    requires multiset(a) == multiset(b) && a != [] && b != [] && a[0] == b[0]
    ensures multiset(a[1..]) == multiset(b[1..])
  {
    assert a == [a[0]] + a[1..] && b == [b[0]] + b[1..];
    assert multiset(a[1..]) == multiset(a) - multiset{a[0]};
    assert multiset(b[1..]) == multiset(b) - multiset{b[0]};
  }

  /** Two sorted arrangements of the same entries with distinct step numbers are identical. */
  lemma {:induction false} SortedUnique(a: seq<SolutionItem>, b: seq<SolutionItem>)
    requires SortedByStep(a) && SortedByStep(b) && DistinctStepNumbers(a)
    requires multiset(a) == multiset(b)
    ensures a == b
  {
    assert |a| == |multiset(a)| == |multiset(b)| == |b|;
    if a != [] {
      SameHead(a, b);
      SameTail(a, b);
      SortedUnique(a[1..], b[1..]);
      assert a == [a[0]] + a[1..] && b == [b[0]] + b[1..];
    }
  }

  /** The displayed order depends only on which entries are stored, not on their stored order. */
  lemma DisplayIndependentOfOrder(a: seq<SolutionItem>, b: seq<SolutionItem>)
    requires multiset(a) == multiset(b) && DistinctStepNumbers(a)
    ensures DisplayOrder(a) == DisplayOrder(b)
  {
    var da := DisplayOrder(a);
    assert DistinctStepNumbers(da) by {
      forall i, j | 0 <= i < j < |da| ensures da[i].stepNumber != da[j].stepNumber {
        DistinctInMultiset(a, da, i, j);
      }
    }
    SortedUnique(da, DisplayOrder(b));
  }

  /** Two positions of a rearrangement of entries with distinct step numbers hold distinct step numbers. */
  lemma DistinctInMultiset(a: seq<SolutionItem>, d: seq<SolutionItem>, i: nat, j: nat)
    requires multiset(d) == multiset(a) && DistinctStepNumbers(a) && i < j < |d|
    ensures d[i].stepNumber != d[j].stepNumber
  {
    assert d[i] in multiset(a) && d[j] in multiset(a);
    var p :| 0 <= p < |a| && a[p] == d[i];
    var q :| 0 <= q < |a| && a[q] == d[j];
    if p == q {
      // d[i] == d[j] at two positions means the entry occurs twice in a
      OccursTwice(d, i, j);
      OccursOnce(a, p);
      assert false;
    }
  }

  /** An entry found at two positions occurs at least twice. */
  lemma OccursTwice(d: seq<SolutionItem>, i: nat, j: nat)
    requires i < j < |d| && d[i] == d[j]
    ensures multiset(d)[d[i]] >= 2
  {
    assert d == d[..j] + [d[j]] + d[j + 1..];
    assert d[..j] == d[..i] + [d[i]] + d[i + 1..j];
  }

  /** An entry of a sequence with distinct step numbers occurs in it exactly once. */
  lemma OccursOnce(a: seq<SolutionItem>, p: nat)
    requires DistinctStepNumbers(a) && p < |a|
    ensures multiset(a)[a[p]] == 1
  {
    assert a == a[..p] + [a[p]] + a[p + 1..];
    assert a[p] !in multiset(a[..p]);
    assert a[p] !in multiset(a[p + 1..]);
  }

  /** Entries already in step order are displayed as stored. */
  lemma SortedDisplayedAsStored(items: seq<SolutionItem>)
    requires SortedByStep(items) && DistinctStepNumbers(items)
    ensures DisplayOrder(items) == items
  {
    var d := DisplayOrder(items);
    SortedUnique(items, d);
  }
}
