/** The dashboard: the next exams, the open assignments, the absence total and its alert,
    course progress over the tracks, and the avatar initials. Every value is recomputed
    from the lists the hooks return, with the current time passed in as `now`. */
module Home {
  import opened Wrappers
  import opened Entities
  import opened Sequences
  import opened Rounding
  import opened Text

  /** How many exams and assignments the dashboard lists at most. */
  const DisplayCap := 3

  /** The absence total above which the absence card turns destructive. */
  const AbsenceLimit := 20

  // ----- Upcoming exams -----

  /** `isAfter(parseISO(e.exam_date), now)`: strictly later than now. */
  function IsFuture(now: Instant): Exam -> bool {
    (e: Exam) => e.examDate > now
  }

  /** `exams.filter(isAfter(..., now)).slice(0, 3)`: the first three exams dated strictly
      after now, in the order they arrived. */
  function UpcomingExams(exams: seq<Exam>, now: Instant): (r: seq<Exam>)
    ensures |r| == if Count(exams, IsFuture(now)) <= DisplayCap then Count(exams, IsFuture(now)) else DisplayCap
    ensures forall i :: 0 <= i < |r| ==> r[i].examDate > now && r[i] in exams
    ensures r == Filter(exams, IsFuture(now))[..|r|]
  {
    Prefix(Filter(exams, IsFuture(now)), DisplayCap)
  }

  /** The order the exams hook delivers: latest date first. */
  predicate LatestFirst(exams: seq<Exam>) {
    forall i, j :: 0 <= i < j < |exams| ==> exams[i].examDate >= exams[j].examDate
  }

  /** No exam of `exams` is dated after `d`. */
  predicate NoneLaterThan(d: Instant, exams: seq<Exam>) {
    forall k :: 0 <= k < |exams| ==> exams[k].examDate <= d
  }

  lemma {:induction false} FilterNoneLaterThan(d: Instant, exams: seq<Exam>, p: Exam -> bool)
    requires NoneLaterThan(d, exams)
    ensures NoneLaterThan(d, Filter(exams, p))
  {
    if exams != [] {
      FilterNoneLaterThan(d, exams[1..], p);
    }
  }

  /** A latest-first list splits into its first exam, no later exam after it, and a
      latest-first rest. */
  lemma LatestFirstUncons(exams: seq<Exam>)
    requires exams != [] && LatestFirst(exams)
    ensures NoneLaterThan(exams[0].examDate, exams[1..]) && LatestFirst(exams[1..])
  {
    forall k | 0 <= k < |exams[1..]| ensures exams[1..][k].examDate <= exams[0].examDate {
      assert exams[1..][k] == exams[k + 1];
    }
    forall i, j | 0 <= i < j < |exams[1..]| ensures exams[1..][i].examDate >= exams[1..][j].examDate {
      assert exams[1..][i] == exams[i + 1] && exams[1..][j] == exams[j + 1];
    }
  }

  /** Putting an exam in front of a latest-first list dated no later than it keeps the
      order. */
  lemma LatestFirstCons(x: Exam, rest: seq<Exam>)
    requires NoneLaterThan(x.examDate, rest) && LatestFirst(rest)
    ensures LatestFirst([x] + rest)
  {
    var r := [x] + rest;
    forall i, j | 0 <= i < j < |r| ensures r[i].examDate >= r[j].examDate {
      assert r[j] == rest[j - 1];
      if i > 0 { assert r[i] == rest[i - 1]; }
    }
  }

  /** Filtering keeps the latest-first order. */
  lemma {:induction false} FilterLatestFirst(exams: seq<Exam>, p: Exam -> bool)
    requires LatestFirst(exams)
    ensures LatestFirst(Filter(exams, p))
  {
    if exams != [] {
      LatestFirstUncons(exams);
      var rest := Filter(exams[1..], p);
      FilterLatestFirst(exams[1..], p);
      if p(exams[0]) {
        FilterNoneLaterThan(exams[0].examDate, exams[1..], p);
        assert Filter(exams, p) == [exams[0]] + rest;
        LatestFirstCons(exams[0], rest);
      } else {
        assert Filter(exams, p) == rest;
      }
    }
  }

  /** With exams delivered latest first, the upcoming exams are the latest-dated future
      ones: any future exam left out is dated no later than every exam shown. */
  lemma UpcomingAreLatest(exams: seq<Exam>, now: Instant, i: int)
    requires LatestFirst(exams)
    requires 0 <= i < |exams| && exams[i].examDate > now
    requires exams[i] !in UpcomingExams(exams, now)
    ensures forall x :: x in UpcomingExams(exams, now) ==> x.examDate >= exams[i].examDate
  {
    var f := Filter(exams, IsFuture(now));
    var r := UpcomingExams(exams, now);
    FilterLatestFirst(exams, IsFuture(now));
    assert exams[i] in f;
    var k :| 0 <= k < |f| && f[k] == exams[i];
    assert k >= |r|;
    forall x | x in r ensures x.examDate >= exams[i].examDate {
      var j :| 0 <= j < |r| && r[j] == x;
      assert f[j] == x;
    }
  }

  /** Yesterday, tomorrow and next week, delivered latest first: the dashboard shows next
      week and then tomorrow, and not yesterday. */
  lemma UpcomingExample(now: Instant)
    ensures var yesterday := Exam("y", "Quiz 1", Quiz, now - 1, None, None);
      var tomorrow := Exam("t", "Quiz 2", Quiz, now + 1, None, None);
      var nextWeek := Exam("w", "Midterm", Midterm, now + 7, None, None);
      UpcomingExams([nextWeek, tomorrow, yesterday], now) == [nextWeek, tomorrow]
  {
    var yesterday := Exam("y", "Quiz 1", Quiz, now - 1, None, None);
    var tomorrow := Exam("t", "Quiz 2", Quiz, now + 1, None, None);
    var nextWeek := Exam("w", "Midterm", Midterm, now + 7, None, None);
    var s := [nextWeek, tomorrow, yesterday];
    assert s[1..] == [tomorrow, yesterday];
    assert s[1..][1..] == [yesterday];
    assert [yesterday][1..] == [];
    assert Filter([yesterday], IsFuture(now)) == [];
    assert Filter([tomorrow, yesterday], IsFuture(now)) == [tomorrow];
    assert Filter(s, IsFuture(now)) == [nextWeek, tomorrow];
  }

  // ----- Pending assignments -----

  predicate IsOpen(a: Assignment) {
    a.status != Completed
  }

  /** `assignments.filter(a => a.status !== 'completed').slice(0, 3)`. */
  function PendingAssignments(assignments: seq<Assignment>): (r: seq<Assignment>)
    ensures |r| == if Count(assignments, IsOpen) <= DisplayCap then Count(assignments, IsOpen) else DisplayCap
    ensures forall i :: 0 <= i < |r| ==> r[i].status != Completed && r[i] in assignments
    ensures r == Filter(assignments, IsOpen)[..|r|]
  {
    Prefix(Filter(assignments, IsOpen), DisplayCap)
  }

  /** With at most three open assignments, every one of them is listed. */
  lemma FewPendingAllShown(assignments: seq<Assignment>, i: int)
    requires Count(assignments, IsOpen) <= DisplayCap
    requires 0 <= i < |assignments| && assignments[i].status != Completed
    ensures assignments[i] in PendingAssignments(assignments)
  {
  }

  // ----- Absences -----

  predicate IsAbsent(a: Attendance) {
    a.status == Absent
  }

  /** `rows.reduce((sum, a) => sum + a.hours, 0)`. */
  function HoursSum(rows: seq<Attendance>): int {
    if rows == [] then 0 else rows[0].hours + HoursSum(rows[1..])
  }

  lemma {:induction false} HoursSumConcat(a: seq<Attendance>, b: seq<Attendance>)
    ensures HoursSum(a + b) == HoursSum(a) + HoursSum(b)
  {
    if a != [] {
      assert (a + b)[1..] == a[1..] + b;
      HoursSumConcat(a[1..], b);
    } else {
      assert a + b == b;
    }
  }

  /** Total absence hours: the hours of the absent rows added up. */
  function TotalAbsences(rows: seq<Attendance>): (total: int)
    ensures (forall i :: 0 <= i < |rows| ==> rows[i].hours >= 0) ==> total >= 0
  {
    var absent := Filter(rows, IsAbsent);
    assert (forall i :: 0 <= i < |rows| ==> rows[i].hours >= 0) ==> HoursSum(absent) >= 0 by {
      if forall i :: 0 <= i < |rows| ==> rows[i].hours >= 0 {
        HoursSumNonNegative(absent);
      }
    }
    HoursSum(absent)
  }

  lemma {:induction false} HoursSumNonNegative(rows: seq<Attendance>)
    requires forall i :: 0 <= i < |rows| ==> rows[i].hours >= 0
    ensures HoursSum(rows) >= 0
  {
    if rows != [] {
      HoursSumNonNegative(rows[1..]);
    }
  }

  /** What one row adds to the absence total: its hours when absent, nothing when present. */
  function AbsenceContribution(a: Attendance): int {
    if a.status == Absent then a.hours else 0
  }

  /** The absence total computed row by row, without filtering first. */
  function AbsenceHours(rows: seq<Attendance>): int {
    if rows == [] then 0 else AbsenceContribution(rows[0]) + AbsenceHours(rows[1..])
  }

  /** Filtering then summing agrees with summing each row's contribution, so present rows
      add nothing whatever their hours. */
  lemma {:induction false} TotalAbsencesRowByRow(rows: seq<Attendance>)
    ensures TotalAbsences(rows) == AbsenceHours(rows)
  {
    if rows != [] {
      TotalAbsencesRowByRow(rows[1..]);
      var head := if IsAbsent(rows[0]) then [rows[0]] else [];
      assert Filter(rows, IsAbsent) == head + Filter(rows[1..], IsAbsent);
      HoursSumConcat(head, Filter(rows[1..], IsAbsent));
    }
  }

  /** The absence total of two lists together is the sum of their totals. */
  lemma TotalAbsencesConcat(a: seq<Attendance>, b: seq<Attendance>)
    ensures TotalAbsences(a + b) == TotalAbsences(a) + TotalAbsences(b)
  {
    FilterConcat(a, b, IsAbsent);
    HoursSumConcat(Filter(a, IsAbsent), Filter(b, IsAbsent));
  }

  datatype StatVariant = Default | Destructive

  /** The absence card's variant: destructive exactly when the total exceeds 20 hours. */
  function AbsenceVariant(total: int): (v: StatVariant)
    ensures v == Destructive <==> total > AbsenceLimit
  {
    if total > AbsenceLimit then Destructive else Default
  }

  /** Recording more attendance never clears the absence alert. */
  lemma AbsenceAlertStays(rows: seq<Attendance>, more: seq<Attendance>)
    requires forall i :: 0 <= i < |more| ==> more[i].hours >= 0
    requires AbsenceVariant(TotalAbsences(rows)) == Destructive
    ensures AbsenceVariant(TotalAbsences(rows + more)) == Destructive
  {
    TotalAbsencesConcat(rows, more);
  }

  // ----- Tracks -----

  predicate IsComplete(t: Track) {
    t.completion == 100
  }

  /** `tracks.filter(t => t.completion_percentage === 100).length`. */
  function CompletedTracks(tracks: seq<Track>): (n: nat)
    ensures n <= |tracks|
    ensures n == |tracks| <==> forall i :: 0 <= i < |tracks| ==> tracks[i].completion == 100
  {
    CountAllIff(tracks, IsComplete);
    Count(tracks, IsComplete)
  }

  /** `tracks.reduce((sum, t) => sum + t.completion_percentage, 0)`. */
  function PercentSum(tracks: seq<Track>): int {
    if tracks == [] then 0 else tracks[0].completion + PercentSum(tracks[1..])
  }

  /** Course progress: the mean completion rounded to the nearest integer (a half rounds
      up), or 0 with no tracks. */
  function CourseProgress(tracks: seq<Track>): (p: int)
    ensures tracks == [] ==> p == 0
    ensures tracks != [] ==> 2 * PercentSum(tracks) - |tracks| < 2 * |tracks| * p <= 2 * PercentSum(tracks) + |tracks|
  {
    if |tracks| > 0 then Round(PercentSum(tracks), |tracks|) else 0
  }

  lemma {:induction false} PercentSumBounds(tracks: seq<Track>, lo: int, hi: int)
    requires forall i :: 0 <= i < |tracks| ==> lo <= tracks[i].completion <= hi
    ensures |tracks| * lo <= PercentSum(tracks) <= |tracks| * hi
  {
    if tracks != [] {
      PercentSumBounds(tracks[1..], lo, hi);
      assert |tracks| * lo == lo + |tracks[1..]| * lo;
      assert |tracks| * hi == hi + |tracks[1..]| * hi;
    }
  }

  /** Course progress lies between the lowest and the highest track percentage, so it is
      within 0..100 when every track is. */
  lemma CourseProgressBetween(tracks: seq<Track>, lo: int, hi: int)
    requires tracks != []
    requires forall i :: 0 <= i < |tracks| ==> lo <= tracks[i].completion <= hi
    ensures lo <= CourseProgress(tracks) <= hi
  {
    PercentSumBounds(tracks, lo, hi);
    RoundBetween(PercentSum(tracks), |tracks|, lo, hi);
  }

  // ----- Initials -----

  /** `parts.map(n => n[0]).join('')`: the first character of every part; an empty part
      gives `undefined`, which `join` renders as nothing. */
  function FirstChars(parts: seq<string>): string {
    if parts == [] then ""
    else (if parts[0] == [] then "" else [parts[0][0]]) + FirstChars(parts[1..])
  }

  /** `getInitials(name)`: "U" for a missing or empty name, otherwise the upper-cased first
      characters of the space-separated parts, at most two of them. */
  function Initials(name: Option<string>): (r: string)
    ensures |r| <= 2
    ensures name.None? || name == Some("") ==> r == "U"
  {
    if name.None? || name.value == "" then "U"
    else Prefix(Upper(FirstChars(Split(name.value))), 2)
  }

  /** The characters of `s` that begin a word, that is, a non-space character at the start
      of `s` (when `atStart`) or right after a space. */
  function WordStarts(s: string, atStart: bool): string {
    if s == [] then ""
    else if s[0] == ' ' then WordStarts(s[1..], true)
    else (if atStart then [s[0]] else "") + WordStarts(s[1..], false)
  }

  lemma FirstCharsCons(p: string, ps: seq<string>)
    ensures FirstChars([p] + ps) == (if p == [] then "" else [p[0]]) + FirstChars(ps)
  {
    assert ([p] + ps)[1..] == ps;
  }

  /** The split-based computation picks exactly the word-start characters; the first part
      and the remaining parts are handled by the two halves of the claim. */
  lemma {:induction false} FirstCharsAreWordStarts(s: string)
    ensures FirstChars(Split(s)) == WordStarts(s, true)
    ensures FirstChars(Split(s)[1..]) == WordStarts(s, false)
  {
    if s != [] {
      FirstCharsAreWordStarts(s[1..]);
      var rest := Split(s[1..]);
      if s[0] == ' ' {
        assert Split(s) == [""] + rest;
        FirstCharsCons("", rest);
        assert ([""] + rest)[1..] == rest;
      } else {
        var head := [s[0]] + rest[0];
        assert Split(s) == [head] + rest[1..];
        FirstCharsCons(head, rest[1..]);
        assert ([head] + rest[1..])[1..] == rest[1..];
      }
    }
  }

  /** A non-empty name's initials are the first two word starts, upper-cased: runs of
      spaces contribute nothing. */
  lemma InitialsAreWordStarts(s: string)
    requires s != ""
    ensures Initials(Some(s)) == Prefix(Upper(WordStarts(s, true)), 2)
  {
    FirstCharsAreWordStarts(s);
  }

  /** A name made of one space is not empty, so it gets no "U", and it has no word, so
      its initials are empty. */
  lemma BlankNameHasNoInitials()
    ensures Initials(Some(" ")) == ""
  {
    InitialsAreWordStarts(" ");
    assert " "[1..] == "";
  }
}
