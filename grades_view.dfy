/** The grade page's calculations: a course's weight-normalised grade, the credit-weighted GPA, the
    average of the courses that have a grade, the two parallel threshold tables, and the study
    time label. */
module GradesView {
  import opened Seqs
  import opened Text
  import opened GradeModel

  // -------- specification of a course grade --------

  /** The part of `totalWeightedGrade` that a component adds: its average times its weight, or
      nothing when it has no entries. */
  function WeightedPart(c: GradeComponent, entries: seq<GradeEntry>): real
    requires ValidEntries(entries)
  {
    match ComponentAverage(c.id, entries)
    case None => 0.0
    case Some(avg) => avg * c.weight
  }

  function WeightedTotal(comps: seq<GradeComponent>, entries: seq<GradeEntry>): real
    requires ValidEntries(entries)
  {
    if comps == [] then 0.0
    else WeightedTotal(comps[..|comps| - 1], entries) + WeightedPart(comps[|comps| - 1], entries)
  }

  /** The components of one course, in the order the page holds them. */
  function CourseComponents(courseId: int, comps: seq<GradeComponent>): seq<GradeComponent> {
    Filter(comps, OfCourse(courseId))
  }

  /** The grade of a list of components: the weight-normalised mean of the averages of the
      components that have entries; 0 without components or without any weight that has entries. */
  function GradeOf(cs: seq<GradeComponent>, entries: seq<GradeEntry>): real
    requires ValidEntries(entries)
  {
    if |cs| == 0 then 0.0 else Normalised(WeightedTotal(cs, entries), WeightTotal(cs, entries))
  }

  /** `totalWeight > 0 ? totalWeightedGrade / totalWeight : 0`. */
  function Normalised(weighted: real, weight: real): real {
    if weight > 0.0 then weighted / weight else 0.0
  }

  function CourseGrade(courseId: int, comps: seq<GradeComponent>, entries: seq<GradeEntry>): real
    requires ValidEntries(entries)
  {
    GradeOf(CourseComponents(courseId, comps), entries)
  }

  /** The grade depends on the two totals alone: the "no components" case is the case of no weight. */
  lemma GradeOfTotals(cs: seq<GradeComponent>, entries: seq<GradeEntry>)
    requires ValidEntries(entries)
    ensures GradeOf(cs, entries) == Normalised(WeightedTotal(cs, entries), WeightTotal(cs, entries))
  {
  }

  /** `calculateCourseGrade`: the accumulating loop over the course's components. */
  method CalculateCourseGrade(courseId: int, gradeComponents: seq<GradeComponent>, gradeEntries: seq<GradeEntry>)
    returns (grade: real)
    requires ValidEntries(gradeEntries)
    ensures grade == CourseGrade(courseId, gradeComponents, gradeEntries)
  {
    var components := Filter(gradeComponents, OfCourse(courseId));
    if |components| == 0 {
      return 0.0;
    }
    var totalWeightedGrade := 0.0;
    var totalWeight := 0.0;
    var i := 0;
    while i < |components|
      invariant 0 <= i <= |components|
      invariant totalWeightedGrade == WeightedTotal(components[..i], gradeEntries)
      invariant totalWeight == WeightTotal(components[..i], gradeEntries)
    {
      var comp := components[i];
      var entries := EntriesOf(gradeEntries, comp.id);
      TotalsStep(components, i, gradeEntries);
      if |entries| > 0 {
        var componentAvg := SumPercent(entries) / |entries| as real;
        assert ComponentAverage(comp.id, gradeEntries) == Some(componentAvg);
        PartsOfPresent(comp, gradeEntries, componentAvg);
        totalWeightedGrade := totalWeightedGrade + componentAvg * comp.weight;
        totalWeight := totalWeight + comp.weight;
      } else {
        assert ComponentAverage(comp.id, gradeEntries) == None;
      }
      i := i + 1;
    }
    assert components[..i] == components;
    GradeOfTotals(components, gradeEntries);
    grade := Normalised(totalWeightedGrade, totalWeight);
  }

  /** What a component with entries adds to the two totals. */
  lemma PartsOfPresent(c: GradeComponent, entries: seq<GradeEntry>, avg: real)
    requires ValidEntries(entries) && ComponentAverage(c.id, entries) == Some(avg)
    ensures WeightedPart(c, entries) == avg * c.weight && WeightPart(c, entries) == c.weight
  {
  }

  lemma TotalsStep(cs: seq<GradeComponent>, i: nat, entries: seq<GradeEntry>)
    requires ValidEntries(entries) && i < |cs|
    ensures WeightedTotal(cs[..i + 1], entries) == WeightedTotal(cs[..i], entries) + WeightedPart(cs[i], entries)
    ensures WeightTotal(cs[..i + 1], entries) == WeightTotal(cs[..i], entries) + WeightPart(cs[i], entries)
  {
    assert cs[..i + 1][..i] == cs[..i];
  }

  // -------- properties of a course grade --------

  lemma {:induction false} TotalsConcat(a: seq<GradeComponent>, b: seq<GradeComponent>, entries: seq<GradeEntry>)
    requires ValidEntries(entries)
    ensures WeightedTotal(a + b, entries) == WeightedTotal(a, entries) + WeightedTotal(b, entries)
    ensures WeightTotal(a + b, entries) == WeightTotal(a, entries) + WeightTotal(b, entries)
    decreases |b|
  {
    if b == [] {
      assert a + b == a;
    } else {
      var b' := b[..|b| - 1];
      assert (a + b)[..|a + b| - 1] == a + b';
      assert (a + b)[|a + b| - 1] == b[|b| - 1];
      TotalsConcat(a, b', entries);
    }
  }

  lemma TotalsSingle(c: GradeComponent, entries: seq<GradeEntry>)
    requires ValidEntries(entries)
    ensures WeightedTotal([c], entries) == WeightedPart(c, entries)
    ensures WeightTotal([c], entries) == WeightPart(c, entries)
  {
    assert [c][..0] == [];
  }

  /** A course with no components has grade 0. */
  lemma NoComponentsGradeZero(courseId: int, comps: seq<GradeComponent>, entries: seq<GradeEntry>)
    requires ValidEntries(entries)
    requires forall i :: 0 <= i < |comps| ==> comps[i].courseId != courseId
    ensures CourseGrade(courseId, comps, entries) == 0.0
  {
    FilterNone(comps, OfCourse(courseId));
  }

  /** A component without entries adds nothing to either total, wherever it stands. */
  lemma TotalsInsertEmpty(before: seq<GradeComponent>, c: GradeComponent, after: seq<GradeComponent>, entries: seq<GradeEntry>)
    requires ValidEntries(entries) && ComponentAverage(c.id, entries).None?
    ensures WeightedTotal(before + [c] + after, entries) == WeightedTotal(before + after, entries)
    ensures WeightTotal(before + [c] + after, entries) == WeightTotal(before + after, entries)
  {
    TotalsConcat(before + [c], after, entries);
    TotalsConcat(before, [c], entries);
    TotalsConcat(before, after, entries);
    TotalsSingle(c, entries);
  }

  /** The course's components after inserting `c`: `c` joins them exactly when it belongs to the course. */
  lemma ComponentsInsert(courseId: int, before: seq<GradeComponent>, c: GradeComponent, after: seq<GradeComponent>)
    ensures var fb, fa := CourseComponents(courseId, before), CourseComponents(courseId, after);
            CourseComponents(courseId, before + after) == fb + fa &&
            (c.courseId == courseId ==> CourseComponents(courseId, before + [c] + after) == fb + [c] + fa) &&
            (c.courseId != courseId ==> CourseComponents(courseId, before + [c] + after) == fb + fa)
  {
    var p := OfCourse(courseId);
    var fb, fa := Filter(before, p), Filter(after, p);
    assert Filter(before + after, p) == fb + fa by {
      FilterConcat(before, after, p);
    }
    var fc := Filter([c], p);
    assert Filter(before + [c] + after, p) == fb + fc + fa by {
      FilterConcat(before + [c], after, p);
      FilterConcat(before, [c], p);
    }
    FilterSingle(c, p);
  }

  /** Inserting a component that has no entries anywhere in the component list leaves the course
      grade as it was: it adds to neither the weighted sum nor the total weight. */
  lemma EmptyComponentIgnored(courseId: int, before: seq<GradeComponent>, c: GradeComponent,
                              after: seq<GradeComponent>, entries: seq<GradeEntry>)
    requires ValidEntries(entries)
    requires forall i :: 0 <= i < |entries| ==> entries[i].componentId != c.id
    ensures CourseGrade(courseId, before + [c] + after, entries) == CourseGrade(courseId, before + after, entries)
  {
    AverageAbsentIff(c.id, entries);
    ComponentsInsert(courseId, before, c, after);
    var fb, fa := CourseComponents(courseId, before), CourseComponents(courseId, after);
    if c.courseId == courseId {
      TotalsInsertEmpty(fb, c, fa, entries);
      GradeOfTotals(fb + [c] + fa, entries);
      GradeOfTotals(fb + fa, entries);
    }
  }

  /** Only components with a positive weight (the page refuses a weight <= 0). */
  predicate PositiveWeights(comps: seq<GradeComponent>) {
    forall i :: 0 <= i < |comps| ==> comps[i].weight > 0.0
  }

  lemma {:induction false} TotalsBounds(comps: seq<GradeComponent>, entries: seq<GradeEntry>)
    requires ValidEntries(entries) && InRangeEntries(entries) && PositiveWeights(comps)
    ensures 0.0 <= WeightTotal(comps, entries)
    ensures 0.0 <= WeightedTotal(comps, entries) <= 100.0 * WeightTotal(comps, entries)
  {
    if comps != [] {
      var c := comps[|comps| - 1];
      TotalsBounds(comps[..|comps| - 1], entries);
      AverageInRange(c.id, entries);
      match ComponentAverage(c.id, entries)
      case None =>
      case Some(avg) =>
        PartsOfPresent(c, entries, avg);
        MulBounds(avg, c.weight, 0.0, 100.0);
    }
  }

  lemma FilterPositiveWeights(courseId: int, comps: seq<GradeComponent>)
    requires PositiveWeights(comps)
    ensures PositiveWeights(CourseComponents(courseId, comps))
  {
    var cs := CourseComponents(courseId, comps);
    FilterSound(comps, OfCourse(courseId));
    forall i | 0 <= i < |cs| ensures cs[i].weight > 0.0 {
      assert cs[i] in comps;
    }
  }

  /** With positive weights and every score between 0 and its maximum, a course grade is a
      percentage in [0, 100]. */
  lemma CourseGradeInRange(courseId: int, comps: seq<GradeComponent>, entries: seq<GradeEntry>)
    requires ValidEntries(entries) && InRangeEntries(entries) && PositiveWeights(comps)
    ensures 0.0 <= CourseGrade(courseId, comps, entries) <= 100.0
  {
    var cs := CourseComponents(courseId, comps);
    FilterPositiveWeights(courseId, comps);
    TotalsBounds(cs, entries);
    var tw := WeightTotal(cs, entries);
    if |cs| > 0 && tw > 0.0 {
      DivBounds(WeightedTotal(cs, entries), tw, 0.0, 100.0);
    }
  }

  /** Weight 30 at 100% beside an empty weight-70 component: the grade is 100, not 30. */
  lemma PopulatedComponentsOnly()
    ensures CourseGrade(1,
      [GradeComponent(1, 1, "Homework", 30.0), GradeComponent(2, 1, "Final", 70.0)],
      [GradeEntry(1, 1, 1, "Homework 1", 100.0, 100.0)]) == 100.0
  {
    var comps := [GradeComponent(1, 1, "Homework", 30.0), GradeComponent(2, 1, "Final", 70.0)];
    var entries := [GradeEntry(1, 1, 1, "Homework 1", 100.0, 100.0)];
    FilterAll(comps, OfCourse(1));
    assert EntriesOf(entries, 1) == entries;
    assert EntriesOf(entries, 2) == [];
    assert comps[..1] == [comps[0]];
    TotalsSingle(comps[0], entries);
  }

  // -------- threshold tables --------

  /** `gradeToGPA`. */
  function GradeToGPA(percentage: real): (gpa: real)
    ensures 0.0 <= gpa <= 4.0
    ensures percentage < 65.0 <==> gpa == 0.0
    ensures percentage >= 93.0 <==> gpa == 4.0
  {
    if percentage >= 93.0 then 4.0
    else if percentage >= 90.0 then 3.7
    else if percentage >= 87.0 then 3.3
    else if percentage >= 83.0 then 3.0
    else if percentage >= 80.0 then 2.7
    else if percentage >= 77.0 then 2.3
    else if percentage >= 73.0 then 2.0
    else if percentage >= 70.0 then 1.7
    else if percentage >= 67.0 then 1.3
    else if percentage >= 65.0 then 1.0
    else 0.0
  }

  /** `gradeToLetter`. */
  function GradeToLetter(percentage: real): (letter: string)
    ensures percentage < 65.0 <==> letter == "F"
    ensures percentage >= 93.0 <==> letter == "A"
  {
    if percentage >= 93.0 then "A"
    else if percentage >= 90.0 then "A-"
    else if percentage >= 87.0 then "B+"
    else if percentage >= 83.0 then "B"
    else if percentage >= 80.0 then "B-"
    else if percentage >= 77.0 then "C+"
    else if percentage >= 73.0 then "C"
    else if percentage >= 70.0 then "C-"
    else if percentage >= 67.0 then "D+"
    else if percentage >= 65.0 then "D"
    else "F"
  }

  /** The tiers both tables share: inclusive lower bounds, best tier first, and what each tier
      is worth in points and as a letter. The tier below the last bound is worth 0.0 and "F". */
  const LowerBounds: seq<real> := [93.0, 90.0, 87.0, 83.0, 80.0, 77.0, 73.0, 70.0, 67.0, 65.0]
  const TierPoints: seq<real> := [4.0, 3.7, 3.3, 3.0, 2.7, 2.3, 2.0, 1.7, 1.3, 1.0, 0.0]
  const TierLetters: seq<string> := ["A", "A-", "B+", "B", "B-", "C+", "C", "C-", "D+", "D", "F"]

  /** The tier of a percentage: the first bound it reaches, or 10 when it reaches none. */
  function TierFrom(percentage: real, i: nat): (t: nat)
    requires i <= |LowerBounds|
    ensures i <= t <= |LowerBounds|
    ensures forall j :: i <= j < t ==> percentage < LowerBounds[j]
    ensures t < |LowerBounds| ==> percentage >= LowerBounds[t]
    decreases |LowerBounds| - i
  {
    if i == |LowerBounds| then i
    else if percentage >= LowerBounds[i] then i
    else TierFrom(percentage, i + 1)
  }

  function Tier(percentage: real): nat {
    TierFrom(percentage, 0)
  }

  lemma GPAFollowsTiers(percentage: real)
    ensures Tier(percentage) < |TierPoints|
    ensures GradeToGPA(percentage) == TierPoints[Tier(percentage)]
  {
    var t := Tier(percentage);
    assert forall j :: 0 <= j < t ==> percentage < LowerBounds[j];
  }

  lemma LetterFollowsTiers(percentage: real)
    ensures Tier(percentage) < |TierLetters|
    ensures GradeToLetter(percentage) == TierLetters[Tier(percentage)]
  {
    var t := Tier(percentage);
    assert forall j :: 0 <= j < t ==> percentage < LowerBounds[j];
  }

  /** Both functions read the same row of the same table: their thresholds agree. */
  lemma TablesAgree(percentage: real)
    ensures Tier(percentage) < |TierPoints| && Tier(percentage) < |TierLetters|
    ensures GradeToGPA(percentage) == TierPoints[Tier(percentage)]
    ensures GradeToLetter(percentage) == TierLetters[Tier(percentage)]
  {
    GPAFollowsTiers(percentage);
    LetterFollowsTiers(percentage);
  }

  lemma {:induction false} TierFromMonotone(p: real, q: real, i: nat)
    requires p <= q && i <= |LowerBounds|
    ensures TierFrom(q, i) <= TierFrom(p, i)
    decreases |LowerBounds| - i
  {
    if i < |LowerBounds| && p < LowerBounds[i] {
      TierFromMonotone(p, q, i + 1);
    }
  }

  lemma {:induction false} TierPointsAntitone(i: nat, j: nat)
    requires i <= j < |TierPoints|
    ensures TierPoints[j] <= TierPoints[i]
    decreases j - i
  {
    if i < j {
      TierPointsAntitone(i, j - 1);
      assert TierPoints[j] <= TierPoints[j - 1];
    }
  }

  /** A higher percentage never lands in a worse tier, so it never earns fewer GPA points. */
  lemma TablesMonotone(p: real, q: real)
    requires p <= q
    ensures Tier(q) <= Tier(p)
    ensures GradeToGPA(p) <= GradeToGPA(q)
  {
    TierFromMonotone(p, q, 0);
    GPAFollowsTiers(p);
    GPAFollowsTiers(q);
    TierPointsAntitone(Tier(q), Tier(p));
  }

  /** The bounds are inclusive: 93 is an "A" worth 4.0, anything just below is an "A-" worth 3.7. */
  lemma BoundsInclusive(p: real)
    requires 90.0 <= p < 93.0
    ensures GradeToGPA(93.0) == 4.0 && GradeToLetter(93.0) == "A"
    ensures GradeToGPA(p) == 3.7 && GradeToLetter(p) == "A-"
  {
  }

  // -------- overall GPA --------

  /** The list of grades the page computes, one per course in order. */
  function CourseGrades(courses: seq<Course>, comps: seq<GradeComponent>, entries: seq<GradeEntry>): (grades: seq<real>)
    requires ValidEntries(entries)
    ensures |grades| == |courses|
  {
    if courses == [] then [] else [CourseGrade(courses[0].id, comps, entries)] + CourseGrades(courses[1..], comps, entries)
  }

  lemma {:induction false} CourseGradesAt(courses: seq<Course>, comps: seq<GradeComponent>, entries: seq<GradeEntry>, i: nat)
    requires ValidEntries(entries) && i < |courses|
    ensures CourseGrades(courses, comps, entries)[i] == CourseGrade(courses[i].id, comps, entries)
  {
    if i > 0 {
      CourseGradesAt(courses[1..], comps, entries, i - 1);
    }
  }

  /** `x * k` for a whole number of credits `k`, as the sum of `k` copies of `x`. The form keeps
      the verifier's arithmetic linear; `ScaledIsProduct` ties it to the product. */
  function Scaled(x: real, k: nat): real {
    if k == 0 then 0.0 else Scaled(x, k - 1) + x
  }

  lemma {:induction false} ScaledIsProduct(x: real, k: nat)
    ensures Scaled(x, k) == x * k as real
  {
    if k > 0 {
      ScaledIsProduct(x, k - 1);
    }
  }

  lemma {:induction false} ScaledBounds(x: real, k: nat, lo: real, hi: real)
    requires lo <= x <= hi
    ensures lo * k as real <= Scaled(x, k) <= hi * k as real
  {
    ScaledIsProduct(x, k);
    MulBounds(x, k as real, lo, hi);
  }

  /** The GPA points of the courses, each course's points times its credits. */
  function TotalPoints(courses: seq<Course>, grades: seq<real>): real
    requires |grades| == |courses|
  {
    if courses == [] then 0.0
    else
      var n := |courses| - 1;
      TotalPoints(courses[..n], grades[..n]) + Scaled(GradeToGPA(grades[n]), courses[n].credits)
  }

  function TotalCredits(courses: seq<Course>): nat {
    if courses == [] then 0 else TotalCredits(courses[..|courses| - 1]) + courses[|courses| - 1].credits
  }

  /** The credit-weighted mean of the courses' GPA points, 0 without courses or credits. */
  function GPAOf(courses: seq<Course>, grades: seq<real>): real
    requires |grades| == |courses|
  {
    if |courses| == 0 then 0.0
    else
      var credits := TotalCredits(courses);
      if credits > 0 then TotalPoints(courses, grades) / credits as real else 0.0
  }

  function OverallGPA(courses: seq<Course>, comps: seq<GradeComponent>, entries: seq<GradeEntry>): real
    requires ValidEntries(entries)
  {
    GPAOf(courses, CourseGrades(courses, comps, entries))
  }

  lemma PointsStep(courses: seq<Course>, grades: seq<real>, i: nat)
    requires |grades| == |courses| && i < |courses|
    ensures TotalPoints(courses[..i + 1], grades[..i + 1]) ==
              TotalPoints(courses[..i], grades[..i]) + Scaled(GradeToGPA(grades[i]), courses[i].credits)
    ensures TotalCredits(courses[..i + 1]) == TotalCredits(courses[..i]) + courses[i].credits
  {
    assert courses[..i + 1][..i] == courses[..i];
    assert grades[..i + 1][..i] == grades[..i];
  }

  /** The body of `calculateOverallGPA`'s loop for one course: its grade, its GPA points, and
      those points times its credits. */
  method CoursePoints(course: Course, gradeComponents: seq<GradeComponent>, gradeEntries: seq<GradeEntry>)
    returns (points: real)
    requires ValidEntries(gradeEntries)
    ensures points == Scaled(GradeToGPA(CourseGrade(course.id, gradeComponents, gradeEntries)), course.credits)
  {
    var grade := CalculateCourseGrade(course.id, gradeComponents, gradeEntries);
    var gradePoints := GradeToGPA(grade);
    points := gradePoints * course.credits as real;
    assert points == Scaled(gradePoints, course.credits) by {
      ScaledIsProduct(gradePoints, course.credits);
    }
  }

  /** `calculateOverallGPA`: the accumulating loop over the courses. */
  method CalculateOverallGPA(courses: seq<Course>, gradeComponents: seq<GradeComponent>, gradeEntries: seq<GradeEntry>)
    returns (gpa: real)
    requires ValidEntries(gradeEntries)
    ensures gpa == OverallGPA(courses, gradeComponents, gradeEntries)
  {
    if |courses| == 0 {
      return 0.0;
    }
    ghost var grades := CourseGrades(courses, gradeComponents, gradeEntries);
    var totalPoints := 0.0;
    var totalCredits := 0;
    var i := 0;
    while i < |courses|
      invariant 0 <= i <= |courses|
      invariant totalPoints == TotalPoints(courses[..i], grades[..i])
      invariant totalCredits == TotalCredits(courses[..i])
    {
      var course := courses[i];
      var coursePoints := CoursePoints(course, gradeComponents, gradeEntries);
      CourseGradesAt(courses, gradeComponents, gradeEntries, i);
      PointsStep(courses, grades, i);
      totalPoints := totalPoints + coursePoints;
      totalCredits := totalCredits + course.credits;
      i := i + 1;
    }
    assert courses[..i] == courses && grades[..i] == grades;
    gpa := if totalCredits > 0 then totalPoints / totalCredits as real else 0.0;
  }

  lemma {:induction false} TotalPointsBounds(courses: seq<Course>, grades: seq<real>)
    requires |grades| == |courses|
    ensures 0.0 <= TotalPoints(courses, grades) <= 4.0 * TotalCredits(courses) as real
  {
    if courses != [] {
      var n := |courses| - 1;
      TotalPointsBounds(courses[..n], grades[..n]);
      ScaledBounds(GradeToGPA(grades[n]), courses[n].credits, 0.0, 4.0);
    }
  }

  /** The overall GPA lies in [0, 4]. */
  lemma OverallGPAInRange(courses: seq<Course>, comps: seq<GradeComponent>, entries: seq<GradeEntry>)
    requires ValidEntries(entries)
    ensures 0.0 <= OverallGPA(courses, comps, entries) <= 4.0
  {
    var grades := CourseGrades(courses, comps, entries);
    TotalPointsBounds(courses, grades);
    var credits := TotalCredits(courses);
    if |courses| > 0 && credits > 0 {
      DivBounds(TotalPoints(courses, grades), credits as real, 0.0, 4.0);
    }
  }

  /** A single course with credits gives its own GPA points, whatever the number of credits. */
  lemma SingleCourseGPA(c: Course, comps: seq<GradeComponent>, entries: seq<GradeEntry>)
    requires ValidEntries(entries) && c.credits > 0
    ensures OverallGPA([c], comps, entries) == GradeToGPA(CourseGrade(c.id, comps, entries))
  {
    var grades := CourseGrades([c], comps, entries);
    CourseGradesAt([c], comps, entries, 0);
    PointsStep([c], grades, 0);
    assert [c][..1] == [c] && grades[..1] == grades;
    ScaledIsProduct(GradeToGPA(grades[0]), c.credits);
    MulDivCancel(GradeToGPA(grades[0]), c.credits as real);
  }

  // -------- overall average grade --------

  function IsPositive(g: real): bool {
    g > 0.0
  }

  function Sum(xs: seq<real>): real {
    if xs == [] then 0.0 else xs[0] + Sum(xs[1..])
  }

  /** The mean of the grades above 0, or 0 when none is. */
  function PositiveMean(grades: seq<real>): real {
    var validGrades := Filter(grades, IsPositive);
    if |validGrades| == 0 then 0.0 else Sum(validGrades) / |validGrades| as real
  }

  /** `calculateOverallAverageGrade`: the mean of the course grades that are above 0; 0 when
      there are no courses or none of them has a positive grade. */
  function OverallAverageGrade(courses: seq<Course>, comps: seq<GradeComponent>, entries: seq<GradeEntry>): (average: real)
    requires ValidEntries(entries)
    ensures average >= 0.0
    ensures average == 0.0 <==> forall i :: 0 <= i < |courses| ==> CourseGrades(courses, comps, entries)[i] <= 0.0
  {
    var grades := CourseGrades(courses, comps, entries);
    PositiveMeanZeroIff(grades);
    assert |grades| == |courses|;
    assert (forall i :: 0 <= i < |courses| ==> grades[i] <= 0.0) <==>
           (forall i :: 0 <= i < |grades| ==> grades[i] <= 0.0);
    if |courses| == 0 then 0.0 else PositiveMean(grades)
  }

  lemma {:induction false} SumPositive(xs: seq<real>)
    requires |xs| > 0 && forall i :: 0 <= i < |xs| ==> xs[i] > 0.0
    ensures Sum(xs) > 0.0
  {
    if |xs| > 1 {
      SumPositive(xs[1..]);
    }
  }

  lemma PositiveMeanZeroIff(grades: seq<real>)
    ensures PositiveMean(grades) >= 0.0
    ensures PositiveMean(grades) == 0.0 <==> forall i :: 0 <= i < |grades| ==> grades[i] <= 0.0
  {
    var valid := Filter(grades, IsPositive);
    if exists i :: 0 <= i < |grades| && grades[i] > 0.0 {
      var i :| 0 <= i < |grades| && grades[i] > 0.0;
      assert IsPositive(grades[i]);
      FilterComplete(grades, IsPositive);
      assert grades[i] in valid;
      SumPositive(valid);
      DivPositive(Sum(valid), |valid| as real);
    } else {
      FilterNone(grades, IsPositive);
    }
  }

  /** The average is 0 exactly when no course has a positive grade, and positive otherwise:
      zero-grade courses and courses without data are left out alike. */
  lemma OverallAverageZeroIff(courses: seq<Course>, comps: seq<GradeComponent>, entries: seq<GradeEntry>)
    requires ValidEntries(entries)
    ensures OverallAverageGrade(courses, comps, entries) >= 0.0
    ensures OverallAverageGrade(courses, comps, entries) == 0.0 <==>
              forall i :: 0 <= i < |courses| ==> CourseGrade(courses[i].id, comps, entries) <= 0.0
  {
    var grades := CourseGrades(courses, comps, entries);
    PositiveMeanZeroIff(grades);
    forall i | 0 <= i < |courses| ensures grades[i] == CourseGrade(courses[i].id, comps, entries) {
      CourseGradesAt(courses, comps, entries, i);
    }
  }

  /** The page shows "N/A" instead of a percentage when the average is not above 0. */
  predicate ShowsNotApplicable(average: real) {
    !(average > 0.0)
  }

  lemma NotApplicableIff(courses: seq<Course>, comps: seq<GradeComponent>, entries: seq<GradeEntry>)
    requires ValidEntries(entries)
    ensures ShowsNotApplicable(OverallAverageGrade(courses, comps, entries)) <==>
              forall i :: 0 <= i < |courses| ==> CourseGrade(courses[i].id, comps, entries) <= 0.0
  {
    OverallAverageZeroIff(courses, comps, entries);
  }

  // -------- the component table --------

  /** One row of a course's component table at lines 583-587: the number of entries and the
      average shown, which is computed as 0 (and displayed "N/A") for a component without entries. */
  datatype ComponentRow = ComponentRow(entryCount: nat, hasEntries: bool, average: real)

  function TableRow(comp: GradeComponent, gradeEntries: seq<GradeEntry>): (row: ComponentRow)
    requires ValidEntries(gradeEntries)
    ensures row.hasEntries <==> row.entryCount > 0
    ensures row.hasEntries <==> ComponentAverage(comp.id, gradeEntries).Some?
    ensures ComponentAverage(comp.id, gradeEntries).Some? ==> row.average == ComponentAverage(comp.id, gradeEntries).value
    ensures !row.hasEntries ==> row.average == 0.0
  {
    var entries := EntriesOf(gradeEntries, comp.id);
    var hasEntries := |entries| > 0;
    ComponentRow(|entries|, hasEntries, if hasEntries then SumPercent(entries) / |entries| as real else 0.0)
  }

  // -------- study time label --------

  datatype Duration = Duration(hours: nat, minutes: nat)

  /** `Math.floor(seconds / 3600)` and `Math.floor((seconds % 3600) / 60)`. */
  function StudyTimeParts(seconds: nat): (d: Duration)
    ensures d.minutes < 60
    ensures d.hours * 3600 + d.minutes * 60 <= seconds < d.hours * 3600 + d.minutes * 60 + 60
  {
    Duration(seconds / 3600, (seconds % 3600) / 60)
  }

  /** The label of a duration: "<hours>h <minutes>m". */
  function StudyTimeLabel(d: Duration): string {
    NatToString(d.hours) + "h " + NatToString(d.minutes) + "m"
  }

  /** What a label says: split at "h ", it gives the decimal hours, then the decimal minutes
      followed by "m". */
  predicate ReadsBackAs(shown: string, d: Duration) {
    var pieces := Split(shown, "h ");
    |pieces| == 2 &&
    IsDigits(pieces[0]) && DecimalValue(pieces[0]) == d.hours &&
    EndsWith(pieces[1], "m") && IsDigits(pieces[1][..|pieces[1]| - 1]) &&
    DecimalValue(pieces[1][..|pieces[1]| - 1]) == d.minutes
  }

  /** `formatStudyTime`: the label reads back as the whole hours and the minutes past them. */
  function FormatStudyTime(seconds: nat): (shown: string)
    ensures ReadsBackAs(shown, StudyTimeParts(seconds))
  {
    LabelReadsBack(StudyTimeParts(seconds));
    StudyTimeLabel(StudyTimeParts(seconds))
  }

  /** In a digit string followed by `sep`, where `sep` starts with a non-digit, the first
      occurrence of `sep` is right after the digits. */
  lemma FirstAfterDigits(digits: string, sep: string, rest: string)
    requires IsDigits(digits) && |sep| > 0 && !IsDigit(sep[0])
    ensures IndexOf(digits + sep + rest, sep) == Some(|digits|)
  {
    var s := digits + sep + rest;
    assert OccursAt(s, sep, |digits|) by {
      assert s[|digits|..|digits| + |sep|] == sep;
    }
    forall j: nat | j < |digits| ensures !OccursAt(s, sep, j) {
      if j + |sep| <= |s| {
        assert s[j..j + |sep|][0] == s[j] == digits[j];
      }
    }
  }

  /** A string without the character 'h' contains no occurrence of "h ". */
  lemma NoSeparator(s: string)
    requires forall i :: 0 <= i < |s| ==> s[i] != 'h'
    ensures IndexOf(s, "h ").None?
  {
    forall j: nat ensures !OccursAt(s, "h ", j) {
      if j + 2 <= |s| {
        assert s[j..j + 2][0] == s[j];
      }
    }
  }

  /** A label reads back as the duration it shows, so it determines the hours and minutes. */
  lemma LabelReadsBack(d: Duration)
    ensures ReadsBackAs(StudyTimeLabel(d), d)
  {
    var hs, ms := NatToString(d.hours), NatToString(d.minutes);
    var text := StudyTimeLabel(d);
    assert text == hs + "h " + (ms + "m");
    FirstAfterDigits(hs, "h ", ms + "m");
    assert text[|hs| + 2..] == ms + "m";
    assert text[..|hs|] == hs;
    NoSeparator(ms + "m");
    assert Split(ms + "m", "h ") == [ms + "m"];
    assert Split(text, "h ") == [hs, ms + "m"];
    assert (ms + "m")[..|ms|] == ms;
    DecimalRoundTrip(d.hours);
    DecimalRoundTrip(d.minutes);
  }

  /** Two amounts of seconds in the same whole minute get the same label. */
  lemma SameMinuteSameLabel(s: nat, t: nat)
    requires s / 60 == t / 60
    ensures FormatStudyTime(s) == FormatStudyTime(t)
  {
    var ds, dt := StudyTimeParts(s), StudyTimeParts(t);
    assert ds.hours * 60 + ds.minutes == s / 60;
    assert dt.hours * 60 + dt.minutes == t / 60;
    assert ds == dt;
    assert FormatStudyTime(s) == StudyTimeLabel(ds);
  }
}
