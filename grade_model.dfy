/** The records of the grade tracker and the one formula both the page and the API use for a
    component: the plain mean of `score / max_score * 100` over the component's entries. */
module GradeModel {
  import opened Seqs

  datatype Course = Course(id: int, name: string, code: string, credits: nat, semester: string, color: string)

  /** A weighted category of a course ("Homework 40%"). */
  datatype GradeComponent = GradeComponent(id: int, courseId: int, name: string, weight: real)

  /** One scored item of a component ("Homework 1: 85/100"). */
  datatype GradeEntry = GradeEntry(id: int, courseId: int, componentId: int, name: string, score: real, maxScore: real)

  /** The division by `max_score` is unguarded in both sources, so every entry handed to the
      calculations has a positive maximum. */
  predicate ValidEntries(entries: seq<GradeEntry>) {
    forall i :: 0 <= i < |entries| ==> entries[i].maxScore > 0.0
  }

  /** Every entry scores between 0 and its maximum. */
  predicate InRangeEntries(entries: seq<GradeEntry>) {
    forall i :: 0 <= i < |entries| ==> 0.0 <= entries[i].score <= entries[i].maxScore
  }

  function Percent(e: GradeEntry): real
    requires e.maxScore > 0.0
  {
    e.score / e.maxScore * 100.0
  }

  lemma DivBounds(a: real, b: real, lo: real, hi: real)
    requires b > 0.0 && lo * b <= a <= hi * b
    ensures lo <= a / b <= hi
  {
    var q := a / b;
    assert q * b == a;
    assert (q - lo) * b >= 0.0;
    assert (hi - q) * b >= 0.0;
  }

  lemma DivPositive(a: real, b: real)
    requires a > 0.0 && b > 0.0
    ensures a / b > 0.0
  {
    var q := a / b;
    assert q * b == a;
  }

  lemma MulDivCancel(x: real, k: real)
    requires k > 0.0
    ensures x * k / k == x
  {
  }

  lemma MulBounds(x: real, w: real, lo: real, hi: real)
    requires w >= 0.0 && lo <= x <= hi
    ensures lo * w <= x * w <= hi * w
  {
    assert (x - lo) * w >= 0.0;
    assert (hi - x) * w >= 0.0;
  }

  lemma PercentInRange(e: GradeEntry)
    requires 0.0 <= e.score <= e.maxScore && e.maxScore > 0.0
    ensures 0.0 <= Percent(e) <= 100.0
  {
    DivBounds(e.score, e.maxScore, 0.0, 1.0);
  }

  /** The sum that `entries.reduce((sum, e) => sum + (e.score / e.max_score) * 100, 0)` and
      `sum(e.score / e.max_score * 100 for e in entries)` compute. */
  function SumPercent(entries: seq<GradeEntry>): real
    requires ValidEntries(entries)
  {
    if entries == [] then 0.0 else Percent(entries[0]) + SumPercent(entries[1..])
  }

  function OfComponent(componentId: int): GradeEntry -> bool {
    (e: GradeEntry) => e.componentId == componentId
  }

  function OfCourse(courseId: int): GradeComponent -> bool {
    (c: GradeComponent) => c.courseId == courseId
  }

  /** `gradeEntries.filter(e => e.component_id === comp.id)`. */
  function EntriesOf(entries: seq<GradeEntry>, componentId: int): (r: seq<GradeEntry>)
    ensures forall i :: 0 <= i < |r| ==> r[i].componentId == componentId
    ensures ValidEntries(entries) ==> ValidEntries(r)
    ensures InRangeEntries(entries) ==> InRangeEntries(r)
  {
    var r := Filter(entries, OfComponent(componentId));
    FilterSound(entries, OfComponent(componentId));
    assert forall i :: 0 <= i < |r| ==> exists j :: 0 <= j < |entries| && entries[j] == r[i];
    r
  }

  /** The component's average percentage, or `None` when it has no entries yet ("N/A"). */
  function ComponentAverage(componentId: int, entries: seq<GradeEntry>): Option<real>
    requires ValidEntries(entries)
  {
    var es := EntriesOf(entries, componentId);
    if |es| == 0 then None else Some(SumPercent(es) / |es| as real)
  }

  /** The part of the total weight that a component adds: its weight, or nothing without entries.
      Both the page and the API add a component's weight only when it has entries. */
  function WeightPart(c: GradeComponent, entries: seq<GradeEntry>): real
    requires ValidEntries(entries)
  {
    if ComponentAverage(c.id, entries).Some? then c.weight else 0.0
  }

  /** The sum of the weights of the components that have entries. */
  function WeightTotal(comps: seq<GradeComponent>, entries: seq<GradeEntry>): real
    requires ValidEntries(entries)
  {
    if comps == [] then 0.0
    else WeightTotal(comps[..|comps| - 1], entries) + WeightPart(comps[|comps| - 1], entries)
  }

  // -------- properties of the component average --------

  lemma {:induction false} SumPercentRange(entries: seq<GradeEntry>)
    requires ValidEntries(entries) && InRangeEntries(entries)
    ensures 0.0 <= SumPercent(entries) <= 100.0 * |entries| as real
  {
    if entries != [] {
      PercentInRange(entries[0]);
      SumPercentRange(entries[1..]);
    }
  }

  /** With every score between 0 and its maximum, a component average lies in [0, 100]. */
  lemma AverageInRange(componentId: int, entries: seq<GradeEntry>)
    requires ValidEntries(entries) && InRangeEntries(entries)
    ensures ComponentAverage(componentId, entries).Some? ==>
              0.0 <= ComponentAverage(componentId, entries).value <= 100.0
  {
    var es := EntriesOf(entries, componentId);
    if |es| > 0 {
      SumPercentRange(es);
      DivBounds(SumPercent(es), |es| as real, 0.0, 100.0);
    }
  }

  /** A component has no average exactly when no entry belongs to it. */
  lemma AverageAbsentIff(componentId: int, entries: seq<GradeEntry>)
    requires ValidEntries(entries)
    ensures ComponentAverage(componentId, entries).None? <==>
              forall i :: 0 <= i < |entries| ==> entries[i].componentId != componentId
  {
    var es := EntriesOf(entries, componentId);
    if exists i :: 0 <= i < |entries| && entries[i].componentId == componentId {
      var i :| 0 <= i < |entries| && entries[i].componentId == componentId;
      assert OfComponent(componentId)(entries[i]);
      FilterComplete(entries, OfComponent(componentId));
      assert entries[i] in es;
    } else {
      FilterNone(entries, OfComponent(componentId));
    }
  }

  lemma {:induction false} SumPercentFull(entries: seq<GradeEntry>)
    requires ValidEntries(entries)
    requires forall i :: 0 <= i < |entries| ==> entries[i].score == entries[i].maxScore
    ensures SumPercent(entries) == 100.0 * |entries| as real
  {
    if entries != [] {
      SumPercentFull(entries[1..]);
    }
  }

  /** Full marks on every entry of a component give exactly 100. */
  lemma FullMarksAverage(componentId: int, entries: seq<GradeEntry>)
    requires ValidEntries(entries)
    requires forall i :: 0 <= i < |entries| ==> entries[i].score == entries[i].maxScore
    ensures ComponentAverage(componentId, entries).Some? ==> ComponentAverage(componentId, entries).value == 100.0
  {
    var es := EntriesOf(entries, componentId);
    FilterSound(entries, OfComponent(componentId));
    forall i | 0 <= i < |es| ensures es[i].score == es[i].maxScore {
      var j :| 0 <= j < |entries| && entries[j] == es[i];
    }
    SumPercentFull(es);
    if |es| > 0 {
      CancelCount(|es| as real);
    }
  }

  lemma CancelCount(n: real)
    requires n > 0.0
    ensures 100.0 * n / n == 100.0
  {
  }

  lemma SumPercentConcat(a: seq<GradeEntry>, b: seq<GradeEntry>)
    requires ValidEntries(a) && ValidEntries(b)
    ensures ValidEntries(a + b) && SumPercent(a + b) == SumPercent(a) + SumPercent(b)
  {
    if a != [] {
      assert (a + b)[1..] == a[1..] + b;
      SumPercentConcat(a[1..], b);
    } else {
      assert a + b == b;
    }
  }

  lemma ValidPermutation(a: seq<GradeEntry>, b: seq<GradeEntry>)
    requires multiset(a) == multiset(b) && ValidEntries(a)
    ensures ValidEntries(b)
  {
    forall i | 0 <= i < |b| ensures b[i].maxScore > 0.0 {
      assert b[i] in multiset(b);
      assert b[i] in a;
    }
  }

  /** Taking one entry out of the sum subtracts its percentage. */
  lemma {:induction false} SumPercentRemove(b: seq<GradeEntry>, k: nat)
    requires ValidEntries(b) && k < |b|
    ensures ValidEntries(b[..k] + b[k + 1..])
    ensures SumPercent(b) == Percent(b[k]) + SumPercent(b[..k] + b[k + 1..])
  {
    var rest := b[..k] + b[k + 1..];
    assert forall i :: 0 <= i < |rest| ==> rest[i] == (if i < k then b[i] else b[i + 1]);
    if k == 0 {
      assert rest == b[1..];
    } else {
      SumPercentRemove(b[1..], k - 1);
      assert rest[0] == b[0];
      assert rest[1..] == b[1..][..k - 1] + b[1..][k..];
    }
  }

  /** The sum of percentages does not depend on the order of the entries. */
  lemma {:induction false} SumPercentPermutation(a: seq<GradeEntry>, b: seq<GradeEntry>)
    requires multiset(a) == multiset(b) && ValidEntries(a)
    ensures ValidEntries(b) && SumPercent(a) == SumPercent(b)
    decreases |a|
  {
    ValidPermutation(a, b);
    if a != [] {
      var x := a[0];
      assert x in multiset(b);
      var k :| 0 <= k < |b| && b[k] == x;
      var rest := b[..k] + b[k + 1..];
      MultisetRemoveAt(b, k);
      MultisetTail(a);
      assert multiset(rest) == multiset(b) - multiset{x};
      assert multiset(a[1..]) == multiset(a) - multiset{x};
      SumPercentRemove(a, 0);
      SumPercentPermutation(a[1..], rest);
      SumPercentRemove(b, k);
      assert SumPercent(a) == Percent(x) + SumPercent(a[1..]);
    }
  }

  /** Reordering the entries leaves every component average unchanged. */
  lemma AverageOrderInvariant(componentId: int, a: seq<GradeEntry>, b: seq<GradeEntry>)
    requires multiset(a) == multiset(b) && ValidEntries(a)
    ensures ValidEntries(b) && ComponentAverage(componentId, a) == ComponentAverage(componentId, b)
  {
    ValidPermutation(a, b);
    FilterPermutation(a, b, OfComponent(componentId));
    var ea := EntriesOf(a, componentId);
    var eb := EntriesOf(b, componentId);
    assert |ea| == |multiset(ea)| == |multiset(eb)| == |eb|;
    SumPercentPermutation(ea, eb);
  }
}
