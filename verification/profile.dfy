/** The profile page: the absence total with its warning colour, the per-type exam
    averages, the avatar initials and the edit-profile dialog. The absence total and the
    initials are computed exactly as on the home page and reuse those definitions. */
module ProfilePage {
  import opened Wrappers
  import opened Entities
  import opened Text
  import ExamStats
  import Home

  datatype IconTone = WarningTone | DestructiveTone

  /** The absence icon: destructive above 20 hours, warning otherwise. */
  function AbsenceTone(rows: seq<Attendance>): (t: IconTone)
    ensures t == DestructiveTone <==> Home.TotalAbsences(rows) > Home.AbsenceLimit
  {
    if Home.TotalAbsences(rows) > Home.AbsenceLimit then DestructiveTone else WarningTone
  }

  /** The profile icon and the home card raise the absence alert on the same attendance. */
  lemma AbsenceToneAgreesWithHome(rows: seq<Attendance>)
    ensures AbsenceTone(rows) == DestructiveTone <==>
      Home.AbsenceVariant(Home.TotalAbsences(rows)) == Home.Destructive
  {
  }

  datatype TypeAverage = TypeAverage(examType: ExamType, avg: Option<real>)

  /** `examAverages`: the four types in fixed order, each with the mean grade of its graded
      exams or null when it has none. */
  function ExamAverages(exams: seq<Exam>): (r: seq<TypeAverage>)
    ensures |r| == 4
    ensures forall k :: 0 <= k < 4 ==> r[k].examType == ExamTypes[k]
    ensures forall k :: 0 <= k < 4 ==>
      (r[k].avg.None? <==> forall i :: 0 <= i < |exams| ==> exams[i].examType != ExamTypes[k] || exams[i].grade.None?)
  {
    seq(4, k requires 0 <= k < 4 =>
      var graded := ExamStats.GradedOfType(exams, ExamTypes[k]);
      assert graded == [] <==> forall i :: 0 <= i < |exams| ==> exams[i].examType != ExamTypes[k] || exams[i].grade.None? by {
        ExamStats.GradedOfTypeEmptyIff(exams, ExamTypes[k]);
      }
      TypeAverage(ExamTypes[k], ExamStats.Mean(graded)))
  }

  /** The profile's averages are the exams page's per-type averages without the counts. */
  lemma ExamAveragesMatchExamsPage(exams: seq<Exam>)
    ensures var p := ExamAverages(exams);
      var e := ExamStats.AverageByType(exams);
      forall k :: 0 <= k < 4 ==> p[k].examType == e[k].examType && p[k].avg == e[k].avg
  {
  }

  /** The header name: the profile's name, or "Student" when it is missing or empty. */
  function DisplayName(profile: Option<Profile>): (r: string)
    ensures r != []
    ensures profile.Some? && profile.value.name.Some? && profile.value.name.value != [] ==> r == profile.value.name.value
  {
    if profile.Some? && profile.value.name.Some? && profile.value.name.value != [] then profile.value.name.value
    else "Student"
  }

  /** The avatar fallback: the profile name's initials, "U" without a name. */
  function AvatarInitials(profile: Option<Profile>): (r: string)
    ensures |r| <= 2
    ensures profile.None? || profile.value.name.None? || profile.value.name == Some("") ==> r == "U"
  {
    Home.Initials(if profile.Some? then profile.value.name else None)
  }

  datatype EditProfileForm = EditProfileForm(name: string, level: Level, open: bool)

  /** The dialog as first mounted: the profile's name or empty text, its level or A1. */
  function InitialEditForm(profile: Option<Profile>, open: bool): (f: EditProfileForm)
    ensures profile.None? ==> f.name == "" && f.level == A1
    ensures profile.Some? ==> f.level == profile.value.englishLevel
    ensures profile.Some? ==> f.name == profile.value.name.GetOr("")
    ensures f.open == open
  {
    match profile
    case None => EditProfileForm("", A1, open)
    case Some(p) => EditProfileForm(p.name.GetOr(""), p.englishLevel, open)
  }

  datatype ProfileUpdate = ProfileUpdate(name: string, englishLevel: Level)

  const NameRequired := Toast("Name is required", None, true)

  /** The edit dialog's submit: a blank name is refused with a notice and no update;
      otherwise the trimmed name and the selected level are sent. The dialog closes only
      when the update succeeds; a failed update leaves it open (the hook shows its own
      error notice). */
  function SubmitEditProfile(f: EditProfileForm, outcome: Outcome): (s: Submission<EditProfileForm, ProfileUpdate>)
    ensures s.call.None? <==> AllSpace(f.name)
    ensures s.call.None? ==> s.notice == Some(NameRequired) && s.form == f
    ensures s.call.Some? ==> s.notice.None?
    ensures s.call.Some? ==> s.call.value.name == Trim(f.name) && s.call.value.name != []
    ensures s.call.Some? ==> s.call.value.englishLevel == f.level
    ensures s.call.Some? ==> s.form == f.(open := outcome.Err? && f.open)
  {
    if IsBlank(f.name) then Submission(f, None, Some(NameRequired))
    else
      var closed := if outcome.Ok? then f.(open := false) else f;
      Submission(closed, Some(ProfileUpdate(Trim(f.name), f.level)), None)
  }

  /** Saving twice sends the same update: the trimmed name is already trimmed. */
  lemma EditProfileSendsTrimmedName(f: EditProfileForm, outcome: Outcome)
    requires SubmitEditProfile(f, outcome).call.Some?
    ensures var u := SubmitEditProfile(f, outcome).call.value;
      SubmitEditProfile(f.(name := u.name), outcome).call == Some(u)
  {
    var u := SubmitEditProfile(f, outcome).call.value;
    TrimIdempotent(f.name);
  }

  /** A name of spaces only is refused, whatever the level. */
  lemma SpacesOnlyNameRefused(level: Level, outcome: Outcome)
    ensures SubmitEditProfile(EditProfileForm("   ", level, true), outcome).call.None?
  {
    assert AllSpace("   ") by {
      assert forall i :: 0 <= i < 3 ==> IsSpace("   "[i]);
    }
  }
}
