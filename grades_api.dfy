/** The grade router of the API: the course grade report with its per-component breakdown, the
    overall average grade stored in the progress record, and the study sessions with the study
    hours derived from them. The component average is the one the page uses; the course grade
    is written `avg * (weight / 100)` summed, divided by the total weight, times 100. */
module GradesApi {
  import opened Seqs
  import opened GradeModel
  import opened GradesView
  import opened ProgressRecords

  // -------- the course grade report --------

  /** `component_avg * (component.weight / 100)`. */
  function Contribution(avg: real, weight: real): real {
    avg * (weight / 100.0)
  }

  /** What a component adds to `weighted_grade`: its contribution, or nothing without entries. */
  function ContributionPart(c: GradeComponent, entries: seq<GradeEntry>): real
    requires ValidEntries(entries)
  {
    match ComponentAverage(c.id, entries)
    case None => 0.0
    case Some(avg) => Contribution(avg, c.weight)
  }

  function WeightedGrade(cs: seq<GradeComponent>, entries: seq<GradeEntry>): real
    requires ValidEntries(entries)
  {
    if cs == [] then 0.0
    else WeightedGrade(cs[..|cs| - 1], entries) + ContributionPart(cs[|cs| - 1], entries)
  }

  /** One row of the breakdown. Averages and contributions are kept unrounded. */
  datatype BreakdownRow = BreakdownRow(component: string, weight: real, average: real, contribution: real, entriesCount: nat)

  function HasEntries(entries: seq<GradeEntry>): GradeComponent -> bool {
    (c: GradeComponent) => |EntriesOf(entries, c.id)| > 0
  }

  function RowOf(c: GradeComponent, entries: seq<GradeEntry>): BreakdownRow
    requires ValidEntries(entries) && HasEntries(entries)(c)
  {
    var avg := ComponentAverage(c.id, entries).value;
    BreakdownRow(c.name, c.weight, avg, Contribution(avg, c.weight), |EntriesOf(entries, c.id)|)
  }

  function Breakdown(cs: seq<GradeComponent>, entries: seq<GradeEntry>): seq<BreakdownRow>
    requires ValidEntries(entries)
  {
    if cs == [] then []
    else
      var c := cs[|cs| - 1];
      Breakdown(cs[..|cs| - 1], entries) + if HasEntries(entries)(c) then [RowOf(c, entries)] else []
  }

  /** `(weighted_grade / total_weight) * 100`, or `None` without weight. */
  function RawCourseGrade(cs: seq<GradeComponent>, entries: seq<GradeEntry>): Option<real>
    requires ValidEntries(entries)
  {
    var totalWeight := WeightTotal(cs, entries);
    if totalWeight > 0.0 then Some(WeightedGrade(cs, entries) / totalWeight * 100.0) else None
  }

  /** `course_grade if course_grade else None`: Python's truthiness drops a grade of 0 too. */
  function Truthy(g: Option<real>): Option<real> {
    if g.Some? && g.value != 0.0 then g else None
  }

  datatype CourseGradeReport = CourseGradeReport(courseGrade: Option<real>, totalWeight: Option<real>, breakdown: seq<BreakdownRow>)

  /** The response of `GET /courses/{id}/grade` for the course's components. A course without
      components has neither a grade nor a `total_weight` and an empty breakdown. */
  function ReportOf(cs: seq<GradeComponent>, entries: seq<GradeEntry>): CourseGradeReport
    requires ValidEntries(entries)
  {
    if |cs| == 0 then CourseGradeReport(None, None, [])
    else CourseGradeReport(Truthy(RawCourseGrade(cs, entries)), Some(WeightTotal(cs, entries)), Breakdown(cs, entries))
  }

  /** What a component with entries adds to the three accumulators. */
  lemma ReportPartsPresent(c: GradeComponent, entries: seq<GradeEntry>, avg: real)
    requires ValidEntries(entries) && ComponentAverage(c.id, entries) == Some(avg)
    ensures HasEntries(entries)(c)
    ensures ContributionPart(c, entries) == Contribution(avg, c.weight) && WeightPart(c, entries) == c.weight
    ensures RowOf(c, entries) == BreakdownRow(c.name, c.weight, avg, Contribution(avg, c.weight), |EntriesOf(entries, c.id)|)
  {
  }

  lemma ReportStep(cs: seq<GradeComponent>, i: nat, entries: seq<GradeEntry>)
    requires ValidEntries(entries) && i < |cs|
    ensures WeightedGrade(cs[..i + 1], entries) == WeightedGrade(cs[..i], entries) + ContributionPart(cs[i], entries)
    ensures WeightTotal(cs[..i + 1], entries) == WeightTotal(cs[..i], entries) + WeightPart(cs[i], entries)
    ensures Breakdown(cs[..i + 1], entries) ==
              Breakdown(cs[..i], entries) + if HasEntries(entries)(cs[i]) then [RowOf(cs[i], entries)] else []
  {
    assert cs[..i + 1][..i] == cs[..i];
  }

  /** `calculate_course_grade`, with the course's components and the entries given. */
  method CalculateCourseGrade(components: seq<GradeComponent>, gradeEntries: seq<GradeEntry>)
    returns (report: CourseGradeReport)
    requires ValidEntries(gradeEntries)
    ensures report == ReportOf(components, gradeEntries)
    ensures |components| == 0 ==> report == CourseGradeReport(None, None, [])
  {
    if |components| == 0 {
      return CourseGradeReport(None, None, []);
    }
    var totalWeight := 0.0;
    var weightedGrade := 0.0;
    var breakdown: seq<BreakdownRow> := [];
    var i := 0;
    while i < |components|
      invariant 0 <= i <= |components|
      invariant totalWeight == WeightTotal(components[..i], gradeEntries)
      invariant weightedGrade == WeightedGrade(components[..i], gradeEntries)
      invariant breakdown == Breakdown(components[..i], gradeEntries)
    {
      var component := components[i];
      var entries := EntriesOf(gradeEntries, component.id);
      ReportStep(components, i, gradeEntries);
      if |entries| > 0 {
        var componentAvg := SumPercent(entries) / |entries| as real;
        assert ComponentAverage(component.id, gradeEntries) == Some(componentAvg);
        ReportPartsPresent(component, gradeEntries, componentAvg);
        var componentContribution := Contribution(componentAvg, component.weight);
        weightedGrade := weightedGrade + componentContribution;
        totalWeight := totalWeight + component.weight;
        breakdown := breakdown + [BreakdownRow(component.name, component.weight, componentAvg, componentContribution, |entries|)];
      } else {
        assert ComponentAverage(component.id, gradeEntries) == None;
      }
      i := i + 1;
    }
    assert components[..i] == components;
    var courseGrade := if totalWeight > 0.0 then Some(weightedGrade / totalWeight * 100.0) else None;
    report := CourseGradeReport(Truthy(courseGrade), Some(totalWeight), breakdown);
  }

  // -------- properties of the report --------

  /** What a breakdown row says about a component: its name and weight, its average, the number
      of its entries and the contribution `average * weight / 100`. */
  predicate RowDescribes(row: BreakdownRow, c: GradeComponent, entries: seq<GradeEntry>)
    requires ValidEntries(entries)
  {
    row.component == c.name && row.weight == c.weight &&
    ComponentAverage(c.id, entries) == Some(row.average) &&
    row.entriesCount == |EntriesOf(entries, c.id)| &&
    row.contribution == row.average * row.weight / 100.0
  }

  /** The breakdown has one row per component with entries, in component order, each describing
      its component. */
  lemma {:induction false} BreakdownRows(cs: seq<GradeComponent>, entries: seq<GradeEntry>)
    requires ValidEntries(entries)
    ensures var populated := Filter(cs, HasEntries(entries));
            var rows := Breakdown(cs, entries);
            |rows| == |populated| &&
            forall k :: 0 <= k < |rows| ==> RowDescribes(rows[k], populated[k], entries)
  {
    if cs != [] {
      var init := cs[..|cs| - 1];
      var c := cs[|cs| - 1];
      var p := HasEntries(entries);
      BreakdownRows(init, entries);
      assert cs == init + [c];
      FilterConcat(init, [c], p);
      FilterSingle(c, p);
      if p(c) {
        assert RowDescribes(RowOf(c, entries), c, entries);
      }
    }
  }

  lemma {:induction false} WeightedGradeIsScaled(cs: seq<GradeComponent>, entries: seq<GradeEntry>)
    requires ValidEntries(entries)
    ensures WeightedGrade(cs, entries) == WeightedTotal(cs, entries) / 100.0
  {
    if cs != [] {
      var c := cs[|cs| - 1];
      WeightedGradeIsScaled(cs[..|cs| - 1], entries);
      match ComponentAverage(c.id, entries)
      case None =>
      case Some(avg) =>
        assert Contribution(avg, c.weight) == avg * c.weight / 100.0;
    }
  }

  lemma PercentOfRatio(a: real, t: real)
    requires t > 0.0
    ensures a / 100.0 / t * 100.0 == a / t
  {
  }

  /** The API's `(Σ avg·w/100) / Σw · 100` is the page's `Σ avg·w / Σw`: with weight on populated
      components the raw grade is the page's grade for the same components. */
  lemma RawGradeIsPageGrade(cs: seq<GradeComponent>, entries: seq<GradeEntry>)
    requires ValidEntries(entries)
    ensures RawCourseGrade(cs, entries).Some? <==> WeightTotal(cs, entries) > 0.0
    ensures RawCourseGrade(cs, entries).Some? ==> RawCourseGrade(cs, entries).value == GradeOf(cs, entries)
    ensures RawCourseGrade(cs, entries).None? ==> GradeOf(cs, entries) == 0.0
  {
    WeightedGradeIsScaled(cs, entries);
    GradeOfTotals(cs, entries);
    var tw := WeightTotal(cs, entries);
    if tw > 0.0 {
      PercentOfRatio(WeightedTotal(cs, entries), tw);
    }
  }

  /** The reported grade is the page's grade, except that where the page shows 0 the API reports
      no grade at all: no components, no weight with entries, or a computed grade of exactly 0. */
  lemma ReportAgreesWithPage(cs: seq<GradeComponent>, entries: seq<GradeEntry>)
    requires ValidEntries(entries)
    ensures ReportOf(cs, entries).courseGrade == if GradeOf(cs, entries) == 0.0 then None else Some(GradeOf(cs, entries))
  {
    RawGradeIsPageGrade(cs, entries);
  }

  /** A course whose one component of weight 100 has a single entry scored 0 of 10 gets no grade
      although its total weight is 100. */
  lemma ZeroGradeReportedAsNone()
    ensures ReportOf([GradeComponent(1, 1, "Final", 100.0)], [GradeEntry(1, 1, 1, "Final exam", 0.0, 10.0)]) ==
              CourseGradeReport(None, Some(100.0), [BreakdownRow("Final", 100.0, 0.0, 0.0, 1)])
  {
    var c := GradeComponent(1, 1, "Final", 100.0);
    var entries := [GradeEntry(1, 1, 1, "Final exam", 0.0, 10.0)];
    FilterAll(entries, OfComponent(1));
    assert EntriesOf(entries, 1) == entries;
    assert ComponentAverage(1, entries) == Some(0.0);
    assert [c][..0] == [];
    assert WeightTotal([c], entries) == 100.0;
    assert WeightedGrade([c], entries) == 0.0;
  }

  // -------- the overall average grade --------

  /** The grade `update_average_grade` collects from one course, if any: courses without
      components and courses without weight on populated components give none. */
  function CollectedGrade(c: Course, comps: seq<GradeComponent>, entries: seq<GradeEntry>): Option<real>
    requires ValidEntries(entries)
  {
    var cs := CourseComponents(c.id, comps);
    if |cs| == 0 then None else RawCourseGrade(cs, entries)
  }

  function CollectedGrades(courses: seq<Course>, comps: seq<GradeComponent>, entries: seq<GradeEntry>): seq<real>
    requires ValidEntries(entries)
  {
    if courses == [] then []
    else
      var n := |courses| - 1;
      var g := CollectedGrade(courses[n], comps, entries);
      CollectedGrades(courses[..n], comps, entries) + if g.Some? then [g.value] else []
  }

  /** `int(sum(total_grades) / len(total_grades))`, or `None` for an empty list. */
  function AverageGrade(grades: seq<real>): Option<int> {
    if |grades| == 0 then None else Some(Trunc(Sum(grades) / |grades| as real))
  }

  /** The inner loop of `update_average_grade` over one course's components. */
  method ComponentTotals(components: seq<GradeComponent>, gradeEntries: seq<GradeEntry>)
    returns (weightedGrade: real, totalWeight: real)
    requires ValidEntries(gradeEntries)
    ensures weightedGrade == WeightedGrade(components, gradeEntries)
    ensures totalWeight == WeightTotal(components, gradeEntries)
  {
    weightedGrade := 0.0;
    totalWeight := 0.0;
    var i := 0;
    while i < |components|
      invariant 0 <= i <= |components|
      invariant weightedGrade == WeightedGrade(components[..i], gradeEntries)
      invariant totalWeight == WeightTotal(components[..i], gradeEntries)
    {
      var component := components[i];
      var entries := EntriesOf(gradeEntries, component.id);
      ReportStep(components, i, gradeEntries);
      if |entries| > 0 {
        var componentAvg := SumPercent(entries) / |entries| as real;
        assert ComponentAverage(component.id, gradeEntries) == Some(componentAvg);
        ReportPartsPresent(component, gradeEntries, componentAvg);
        weightedGrade := weightedGrade + Contribution(componentAvg, component.weight);
        totalWeight := totalWeight + component.weight;
      } else {
        assert ComponentAverage(component.id, gradeEntries) == None;
      }
      i := i + 1;
    }
    assert components[..i] == components;
  }

  /** One course of `update_average_grade`'s outer loop: its grade, if it has one. */
  method CourseGradeOf(course: Course, gradeComponents: seq<GradeComponent>, gradeEntries: seq<GradeEntry>)
    returns (grade: Option<real>)
    requires ValidEntries(gradeEntries)
    ensures grade == CollectedGrade(course, gradeComponents, gradeEntries)
  {
    var components := Filter(gradeComponents, OfCourse(course.id));
    if |components| == 0 {
      return None;
    }
    var weightedGrade, totalWeight := ComponentTotals(components, gradeEntries);
    if totalWeight > 0.0 {
      grade := Some(weightedGrade / totalWeight * 100.0);
    } else {
      grade := None;
    }
  }

  lemma CollectedStep(courses: seq<Course>, i: nat, comps: seq<GradeComponent>, entries: seq<GradeEntry>)
    requires ValidEntries(entries) && i < |courses|
    ensures var g := CollectedGrade(courses[i], comps, entries);
            CollectedGrades(courses[..i + 1], comps, entries) ==
              CollectedGrades(courses[..i], comps, entries) + if g.Some? then [g.value] else []
  {
    assert courses[..i + 1][..i] == courses[..i];
  }

  /** `update_average_grade`: collects the grades of the student's courses and stores their
      truncated mean, or `None`, in the student's progress record, creating it when missing. */
  method UpdateAverageGrade(store: ProgressStore, studentId: int, courses: seq<Course>,
                            gradeComponents: seq<GradeComponent>, gradeEntries: seq<GradeEntry>)
    requires ValidEntries(gradeEntries)
    modifies store
    ensures var created := WithRecord(old(store.records), studentId);
            store.records == created[studentId := created[studentId].(averageGrade :=
              AverageGrade(CollectedGrades(courses, gradeComponents, gradeEntries)))]
  {
    var totalGrades: seq<real> := [];
    var i := 0;
    while i < |courses|
      invariant 0 <= i <= |courses|
      invariant totalGrades == CollectedGrades(courses[..i], gradeComponents, gradeEntries)
      invariant store.records == old(store.records)
    {
      var grade := CourseGradeOf(courses[i], gradeComponents, gradeEntries);
      CollectedStep(courses, i, gradeComponents, gradeEntries);
      if grade.Some? {
        totalGrades := totalGrades + [grade.value];
      }
      i := i + 1;
    }
    assert courses[..i] == courses;
    var progress := store.GetOrCreate(studentId);
    var averageGrade: Option<int>;
    if |totalGrades| > 0 {
      averageGrade := Some(Trunc(Sum(totalGrades) / |totalGrades| as real));
    } else {
      averageGrade := None;
    }
    store.Save(studentId, progress.(averageGrade := averageGrade));
  }

  // -------- properties of the average grade --------

  lemma {:induction false} SumBounds(grades: seq<real>, hi: real)
    requires forall i :: 0 <= i < |grades| ==> 0.0 <= grades[i] <= hi
    ensures 0.0 <= Sum(grades) <= hi * |grades| as real
  {
    if grades != [] {
      SumBounds(grades[1..], hi);
    }
  }

  /** With every collected grade a percentage, the stored average is a whole percentage. */
  lemma AverageGradeInRange(grades: seq<real>)
    requires forall i :: 0 <= i < |grades| ==> 0.0 <= grades[i] <= 100.0
    ensures AverageGrade(grades).Some? <==> |grades| > 0
    ensures AverageGrade(grades).Some? ==> 0 <= AverageGrade(grades).value <= 100
  {
    if |grades| > 0 {
      SumBounds(grades, 100.0);
      DivBounds(Sum(grades), |grades| as real, 0.0, 100.0);
    }
  }

  /** A collected grade is the page's grade of the course, so with positive weights and every
      score between 0 and its maximum it is a percentage. */
  lemma CollectedGradeInRange(c: Course, comps: seq<GradeComponent>, entries: seq<GradeEntry>)
    requires ValidEntries(entries) && InRangeEntries(entries) && PositiveWeights(comps)
    ensures CollectedGrade(c, comps, entries).Some? ==>
              CollectedGrade(c, comps, entries).value == CourseGrade(c.id, comps, entries) &&
              0.0 <= CollectedGrade(c, comps, entries).value <= 100.0
  {
    RawGradeIsPageGrade(CourseComponents(c.id, comps), entries);
    CourseGradeInRange(c.id, comps, entries);
  }

  lemma {:induction false} CollectedGradesInRange(courses: seq<Course>, comps: seq<GradeComponent>, entries: seq<GradeEntry>)
    requires ValidEntries(entries) && InRangeEntries(entries) && PositiveWeights(comps)
    ensures forall i :: 0 <= i < |CollectedGrades(courses, comps, entries)| ==>
              0.0 <= CollectedGrades(courses, comps, entries)[i] <= 100.0
  {
    if courses != [] {
      var n := |courses| - 1;
      CollectedGradesInRange(courses[..n], comps, entries);
      CollectedGradeInRange(courses[n], comps, entries);
    }
  }

  /** The average `update_average_grade` stores is a whole percentage whenever some course has a
      grade, given positive weights and every score between 0 and its maximum. */
  lemma StoredAverageInRange(courses: seq<Course>, comps: seq<GradeComponent>, entries: seq<GradeEntry>)
    requires ValidEntries(entries) && InRangeEntries(entries) && PositiveWeights(comps)
    ensures var avg := AverageGrade(CollectedGrades(courses, comps, entries));
            (avg.Some? <==> |CollectedGrades(courses, comps, entries)| > 0) &&
            (avg.Some? ==> 0 <= avg.value <= 100)
  {
    CollectedGradesInRange(courses, comps, entries);
    AverageGradeInRange(CollectedGrades(courses, comps, entries));
  }

  /** Over the same course grades the API and the page average differently: the API keeps a
      course graded 0 and truncates, the page skips it. */
  lemma ZeroGradeCoursesCount()
    ensures AverageGrade([0.0, 100.0]) == Some(50)
    ensures PositiveMean([0.0, 100.0]) == 100.0
  {
    assert Sum([0.0, 100.0]) == 100.0 by {
      assert [0.0, 100.0][1..] == [100.0];
      assert [100.0][1..] == [];
    }
    assert Filter([0.0, 100.0], IsPositive) == [100.0] by {
      assert [0.0, 100.0][1..] == [100.0];
      assert [100.0][1..] == [];
    }
    assert Sum([100.0]) == 100.0 by {
      assert [100.0][1..] == [];
    }
  }
}
