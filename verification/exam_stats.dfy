/** The exams page: the type filter, the overall average grade, the per-type averages in a
    fixed order, and the colour band of a grade. Averages are exact rationals; the page
    shows them with one decimal. */
module ExamStats {
  import opened Wrappers
  import opened Entities
  import opened Sequences

  datatype ExamFilter = AllTypes | OfType(examType: ExamType)

  /** The filter select: "all" leaves the list alone, a type keeps exactly the exams of
      that type in their original order. */
  function FilteredExams(exams: seq<Exam>, filter: ExamFilter): (r: seq<Exam>)
    ensures filter.AllTypes? ==> r == exams
    ensures filter.OfType? ==> forall i :: 0 <= i < |r| ==> r[i].examType == filter.examType && r[i] in exams
    ensures filter.OfType? ==> forall i :: 0 <= i < |exams| && exams[i].examType == filter.examType ==> exams[i] in r
  {
    match filter
    case AllTypes => exams
    case OfType(t) => Filter(exams, (e: Exam) => e.examType == t)
  }

  /** One step of a type view: the first exam is shown exactly when it has that type. */
  lemma TypeViewStep(exams: seq<Exam>, t: ExamType)
    requires exams != []
    ensures |FilteredExams(exams, OfType(t))|
      == (if exams[0].examType == t then 1 else 0) + |FilteredExams(exams[1..], OfType(t))|
  {
  }

  /** The per-type views split the list: their sizes add up to the number of exams. */
  lemma {:induction false} TypeFiltersPartition(exams: seq<Exam>)
    ensures |FilteredExams(exams, OfType(Quiz))| + |FilteredExams(exams, OfType(Midterm))|
          + |FilteredExams(exams, OfType(Final))| + |FilteredExams(exams, OfType(Speaking))| == |exams|
  {
    if exams != [] {
      TypeFiltersPartition(exams[1..]);
      TypeViewStep(exams, Quiz);
      TypeViewStep(exams, Midterm);
      TypeViewStep(exams, Final);
      TypeViewStep(exams, Speaking);
    }
  }

  predicate IsGraded(e: Exam) {
    e.grade.Some?
  }

  /** `acc + (e.grade || 0)` over a list: the sum of the grades, an ungraded exam adding 0. */
  function GradeSum(exams: seq<Exam>): real {
    if exams == [] then 0.0 else exams[0].grade.GetOr(0.0) + GradeSum(exams[1..])
  }

  lemma {:induction false} GradeSumConcat(a: seq<Exam>, b: seq<Exam>)
    ensures GradeSum(a + b) == GradeSum(a) + GradeSum(b)
  {
    if a != [] {
      assert (a + b)[1..] == a[1..] + b;
      GradeSumConcat(a[1..], b);
    } else {
      assert a + b == b;
    }
  }

  /** The mean grade of a list of graded exams, or null when the list is empty. */
  function Mean(graded: seq<Exam>): (m: Option<real>)
    ensures m.None? <==> graded == []
    ensures m.Some? ==> m.value * (|graded| as real) == GradeSum(graded)
  {
    if |graded| == 0 then None else Some(GradeSum(graded) / (|graded| as real))
  }

  /** `averageScore`: the mean of the grades that are present, or null when no exam has a
      grade. */
  function AverageScore(exams: seq<Exam>): (avg: Option<real>)
    ensures avg.None? <==> forall i :: 0 <= i < |exams| ==> !IsGraded(exams[i])
  {
    var graded := Filter(exams, IsGraded);
    assert graded == [] <==> forall i :: 0 <= i < |exams| ==> !IsGraded(exams[i]) by {
      FilterEmptyIff(exams, IsGraded);
    }
    Mean(graded)
  }

  /** The average is the sum of the grades present divided by how many there are. */
  lemma AverageIsSumOverCount(exams: seq<Exam>)
    ensures AverageScore(exams).Some? ==>
      Count(exams, IsGraded) > 0 &&
      AverageScore(exams).value == GradeSum(Filter(exams, IsGraded)) / (Count(exams, IsGraded) as real)
  {
    assert AverageScore(exams) == Mean(Filter(exams, IsGraded));
  }

  /** Ungraded exams leave the average alone: adding one changes nothing. */
  lemma AverageIgnoresUngraded(exams: seq<Exam>, e: Exam)
    requires e.grade.None?
    ensures AverageScore(exams + [e]) == AverageScore(exams)
  {
    FilterConcat(exams, [e], IsGraded);
    assert Filter([e], IsGraded) == [];
    assert Filter(exams, IsGraded) + [] == Filter(exams, IsGraded);
  }

  /** Grades 80, 60 and one ungraded exam average to 70. */
  lemma AverageExample(a: Exam, b: Exam, c: Exam)
    requires a.grade == Some(80.0) && b.grade == Some(60.0) && c.grade.None?
    ensures AverageScore([a, b, c]) == Some(70.0)
  {
    var s := [a, b, c];
    assert s[1..] == [b, c];
    assert s[1..][1..] == [c];
    assert [c][1..] == [];
    assert Filter([c], IsGraded) == [];
    assert Filter(s, IsGraded) == [a, b];
    assert [a, b][1..] == [b];
    assert [b][1..] == [];
    assert GradeSum([b]) == 60.0;
    assert GradeSum([a, b]) == 140.0;
  }

  lemma {:induction false} GradeSumBounds(graded: seq<Exam>, lo: real, hi: real)
    requires forall i :: 0 <= i < |graded| ==> graded[i].grade.Some? && lo <= graded[i].grade.value <= hi
    ensures (|graded| as real) * lo <= GradeSum(graded) <= (|graded| as real) * hi
  {
    if graded != [] {
      GradeSumBounds(graded[1..], lo, hi);
      assert (|graded| as real) * lo == lo + (|graded[1..]| as real) * lo;
      assert (|graded| as real) * hi == hi + (|graded[1..]| as real) * hi;
    }
  }

  /** A value whose n-fold lies between n·lo and n·hi lies between lo and hi. */
  lemma ScaledBetween(x: real, n: real, lo: real, hi: real)
    requires n > 0.0
    requires n * lo <= x * n <= n * hi
    ensures lo <= x <= hi
  {
  }

  /** A mean lies between bounds that every averaged grade respects. */
  lemma MeanBetween(graded: seq<Exam>, lo: real, hi: real)
    requires forall i :: 0 <= i < |graded| ==> graded[i].grade.Some? && lo <= graded[i].grade.value <= hi
    ensures Mean(graded).Some? ==> lo <= Mean(graded).value <= hi
  {
    if graded != [] {
      GradeSumBounds(graded, lo, hi);
      ScaledBetween(Mean(graded).value, |graded| as real, lo, hi);
    }
  }

  /** The average lies between the lowest and highest grade, so within 0..100 when the
      grades are. */
  lemma AverageBetween(exams: seq<Exam>, lo: real, hi: real)
    requires forall i :: 0 <= i < |exams| && exams[i].grade.Some? ==> lo <= exams[i].grade.value <= hi
    ensures AverageScore(exams).Some? ==> lo <= AverageScore(exams).value <= hi
  {
    var graded := Filter(exams, IsGraded);
    forall i | 0 <= i < |graded| ensures graded[i].grade.Some? && lo <= graded[i].grade.value <= hi {
      assert graded[i] in exams;
    }
    MeanBetween(graded, lo, hi);
  }

  /** The exams of type `t` that carry a grade. */
  function GradedOfType(exams: seq<Exam>, t: ExamType): seq<Exam> {
    Filter(exams, (e: Exam) => e.examType == t && e.grade.Some?)
  }

  /** A type has no graded exam exactly when every exam is of another type or ungraded. */
  lemma GradedOfTypeEmptyIff(exams: seq<Exam>, t: ExamType)
    ensures GradedOfType(exams, t) == [] <==>
      forall i :: 0 <= i < |exams| ==> exams[i].examType != t || exams[i].grade.None?
  {
    FilterEmptyIff(exams, (e: Exam) => e.examType == t && e.grade.Some?);
  }

  datatype TypeAverage = TypeAverage(examType: ExamType, avg: Option<real>, count: nat)

  /** `averageByType`: one entry per type in the order quiz, midterm, final, speaking, with
      the number of graded exams of that type and their mean, or null and 0 when there
      are none. */
  function AverageByType(exams: seq<Exam>): (r: seq<TypeAverage>)
    ensures |r| == 4
    ensures forall k :: 0 <= k < 4 ==> r[k].examType == ExamTypes[k]
    ensures forall k :: 0 <= k < 4 ==> r[k].count == |GradedOfType(exams, ExamTypes[k])|
    ensures forall k :: 0 <= k < 4 ==> (r[k].avg.None? <==> r[k].count == 0)
    ensures forall k :: 0 <= k < 4 ==> r[k].avg == Mean(GradedOfType(exams, ExamTypes[k]))
  {
    seq(4, k requires 0 <= k < 4 =>
      var graded := GradedOfType(exams, ExamTypes[k]);
      TypeAverage(ExamTypes[k], Mean(graded), |graded|))
  }

  lemma {:induction false} GradedCountsSplit(exams: seq<Exam>)
    ensures |GradedOfType(exams, Quiz)| + |GradedOfType(exams, Midterm)|
          + |GradedOfType(exams, Final)| + |GradedOfType(exams, Speaking)| == Count(exams, IsGraded)
  {
    if exams != [] {
      GradedCountsSplit(exams[1..]);
    }
  }

  /** The per-type counts add up to the number of graded exams. */
  lemma PerTypeCountsSum(exams: seq<Exam>)
    ensures var r := AverageByType(exams);
      r[0].count + r[1].count + r[2].count + r[3].count == Count(exams, IsGraded)
  {
    GradedCountsSplit(exams);
  }

  datatype Band = Success | Warning | Danger

  /** The colour of a grade: success from 70, warning from 50, destructive below. */
  function GradeBand(g: real): (b: Band)
    ensures b == Band.Success <==> g >= 70.0
    ensures b == Warning <==> 50.0 <= g < 70.0
    ensures b == Danger <==> g < 50.0
  {
    if g >= 70.0 then Band.Success else if g >= 50.0 then Warning else Danger
  }

  function BandRank(b: Band): nat {
    match b
    case Danger => 0
    case Warning => 1
    case _ => 2
  }

  /** A higher grade never gets a worse colour. */
  lemma GradeBandMonotone(g: real, h: real)
    requires g <= h
    ensures BandRank(GradeBand(g)) <= BandRank(GradeBand(h))
  {
  }
}
