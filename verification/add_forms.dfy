/** The four forms of the "Add Data" page. Each submit handler either rejects the input
    locally (a notice, no backend call, nothing cleared) or hands one payload to its create
    mutation; the fields are cleared only if that call succeeds, because a rejected
    `mutateAsync` skips the clearing statements after it. The track form also keeps
    draft lists of words and grammar topics that are edited one item at a time. */
module AddForms {
  import opened Wrappers
  import opened Entities
  import opened Text
  import opened Sequences
  import TrackStore
  import TrackProgress

  const RequiredFields := Toast("Please fill required fields", None, true)
  const UnitNameRequired := Toast("Please enter a unit name", None, true)

  /** `text.trim() || null`: the trimmed text, or null when only white space was typed. */
  function OptionalText(s: string): (r: Option<string>)
    ensures r.None? <==> AllSpace(s)
    ensures r.Some? ==> r.value == Trim(s) && r.value != []
  {
    if IsBlank(s) then None else Some(Trim(s))
  }

  // ----- Exam form -----

  datatype ExamForm = ExamForm(title: string, examType: ExamType, date: string, grade: string, notes: string)

  datatype NewExam = NewExam(
    examTitle: string,
    examType: ExamType,
    examDate: string,
    grade: Option<real>,
    notes: Option<string>)

  /** The exam form as first shown: every field empty and the type set to quiz. */
  const InitialExamForm := ExamForm("", Quiz, "", "", "")

  /** The exam payload: trimmed title, the grade parsed only when one was typed, and
      trimmed notes or null. `parseFloat` stands for JavaScript's number parsing. */
  function ExamPayload(f: ExamForm, parseFloat: string -> real): NewExam {
    NewExam(Trim(f.title), f.examType, f.date,
            if f.grade == "" then None else Some(parseFloat(f.grade)),
            OptionalText(f.notes))
  }

  /** The exam form's submit handler; `outcome` is how `createExam` settles if it is called. */
  function SubmitExam(f: ExamForm, parseFloat: string -> real, outcome: Outcome): (s: Submission<ExamForm, NewExam>)
    ensures s.call.None? <==> AllSpace(f.title) || f.date == ""
    ensures s.call.None? ==> s.form == f && s.notice == Some(RequiredFields)
    ensures s.call.Some? ==> s.notice.None?
    ensures s.call.Some? ==> s.call.value.examTitle == Trim(f.title) && s.call.value.examTitle != []
    ensures s.call.Some? ==> s.call.value.examType == f.examType && s.call.value.examDate == f.date
    ensures s.call.Some? ==> (s.call.value.grade.None? <==> f.grade == "")
    ensures s.call.Some? && f.grade != "" ==> s.call.value.grade == Some(parseFloat(f.grade))
    ensures s.call.Some? ==> s.call.value.notes == OptionalText(f.notes)
    ensures s.call.Some? && outcome.Ok? ==> s.form == InitialExamForm.(examType := f.examType)
    ensures outcome.Err? ==> s.form == f
  {
    if IsBlank(f.title) || f.date == "" then
      Submission(f, None, Some(RequiredFields))
    else
      var after := if outcome.Ok? then f.(title := "", date := "", grade := "", notes := "") else f;
      Submission(after, Some(ExamPayload(f, parseFloat)), None)
  }

  /** After a successful exam submit, pressing submit again sends nothing. */
  lemma ExamResubmitSendsNothing(f: ExamForm, parseFloat: string -> real, parseFloat': string -> real, outcome': Outcome)
    ensures var s := SubmitExam(f, parseFloat, Ok);
      s.call.Some? ==> SubmitExam(s.form, parseFloat', outcome').call.None?
  {
  }

  // ----- Assignment form -----

  datatype AssignmentForm = AssignmentForm(title: string, description: string, dueDate: string, status: AssignmentStatus)

  datatype NewAssignment = NewAssignment(
    title: string,
    description: Option<string>,
    dueDate: string,
    status: AssignmentStatus)

  const InitialAssignmentForm := AssignmentForm("", "", "", Pending)

  /** The assignment form's submit handler; `outcome` is how `createAssignment` settles. */
  function SubmitAssignment(f: AssignmentForm, outcome: Outcome): (s: Submission<AssignmentForm, NewAssignment>)
    ensures s.call.None? <==> AllSpace(f.title) || f.dueDate == ""
    ensures s.call.None? ==> s.form == f && s.notice == Some(RequiredFields)
    ensures s.call.Some? ==> s.notice.None?
    ensures s.call.Some? ==> s.call.value.title == Trim(f.title) && s.call.value.title != []
    ensures s.call.Some? ==> s.call.value.description == OptionalText(f.description)
    ensures s.call.Some? ==> s.call.value.dueDate == f.dueDate && s.call.value.status == f.status
    ensures s.call.Some? && outcome.Ok? ==> s.form == InitialAssignmentForm
    ensures outcome.Err? ==> s.form == f
  {
    if IsBlank(f.title) || f.dueDate == "" then
      Submission(f, None, Some(RequiredFields))
    else
      var payload := NewAssignment(Trim(f.title), OptionalText(f.description), f.dueDate, f.status);
      Submission(if outcome.Ok? then InitialAssignmentForm else f, Some(payload), None)
  }

  lemma AssignmentResubmitSendsNothing(f: AssignmentForm, outcome': Outcome)
    ensures var s := SubmitAssignment(f, Ok);
      s.call.Some? ==> SubmitAssignment(s.form, outcome').call.None?
  {
  }

  // ----- Attendance form -----

  datatype AttendanceForm = AttendanceForm(date: string, hours: string, status: AttendanceStatus)

  datatype NewAttendance = NewAttendance(date: string, hours: int, status: AttendanceStatus)

  const InitialAttendanceForm := AttendanceForm("", "1", Present)

  /** The attendance form's submit handler. Only an empty date or hours field is
      rejected; the hours are whatever `parseInt` makes of the text, with no range check. */
  function SubmitAttendance(f: AttendanceForm, parseInt: string -> int, outcome: Outcome): (s: Submission<AttendanceForm, NewAttendance>)
    ensures s.call.None? <==> f.date == "" || f.hours == ""
    ensures s.call.None? ==> s.form == f && s.notice == Some(RequiredFields)
    ensures s.call.Some? ==> s.notice.None?
    ensures s.call.Some? ==> s.call.value == NewAttendance(f.date, parseInt(f.hours), f.status)
    ensures s.call.Some? && outcome.Ok? ==> s.form == InitialAttendanceForm
    ensures outcome.Err? ==> s.form == f
  {
    if f.date == "" || f.hours == "" then
      Submission(f, None, Some(RequiredFields))
    else
      Submission(if outcome.Ok? then InitialAttendanceForm else f,
                 Some(NewAttendance(f.date, parseInt(f.hours), f.status)), None)
  }

  /** The handler sends hours outside 1..12: forty hours of absence go straight through. */
  lemma AttendanceHoursUnchecked()
    ensures var s := SubmitAttendance(AttendanceForm("2024-03-01", "40", Absent), _ => 40, Ok);
      s.call == Some(NewAttendance("2024-03-01", 40, Absent))
  {
  }

  lemma AttendanceResubmitSendsNothing(f: AttendanceForm, parseInt: string -> int, parseInt': string -> int, outcome': Outcome)
    ensures var s := SubmitAttendance(f, parseInt, Ok);
      s.call.Some? ==> SubmitAttendance(s.form, parseInt', outcome').call.None?
  {
  }

  // ----- Track form -----

  datatype DraftWord = DraftWord(word: string, meaning: string)

  datatype TrackForm = TrackForm(
    unitName: string,
    vocabulary: seq<DraftWord>,
    grammarTopics: seq<string>,
    newWord: string,
    newMeaning: string,
    newGrammar: string)

  /** The plus button next to the word and meaning inputs: when both hold some non-space
      text, one trimmed entry is appended and both inputs are cleared; otherwise nothing
      changes. */
  function AddVocabulary(f: TrackForm): (g: TrackForm)
    ensures AllSpace(f.newWord) || AllSpace(f.newMeaning) ==> g == f
    ensures !AllSpace(f.newWord) && !AllSpace(f.newMeaning) ==>
      && g.vocabulary == f.vocabulary + [DraftWord(Trim(f.newWord), Trim(f.newMeaning))]
      && g.newWord == "" && g.newMeaning == ""
      && g == f.(vocabulary := g.vocabulary, newWord := "", newMeaning := "")
  {
    if !IsBlank(f.newWord) && !IsBlank(f.newMeaning) then
      f.(vocabulary := f.vocabulary + [DraftWord(Trim(f.newWord), Trim(f.newMeaning))], newWord := "", newMeaning := "")
    else
      f
  }

  /** The plus button next to the grammar input: appends the trimmed topic when it holds
      some non-space text and clears the input; otherwise nothing changes. */
  function AddGrammar(f: TrackForm): (g: TrackForm)
    ensures AllSpace(f.newGrammar) ==> g == f
    ensures !AllSpace(f.newGrammar) ==>
      && g.grammarTopics == f.grammarTopics + [Trim(f.newGrammar)]
      && g == f.(grammarTopics := g.grammarTopics, newGrammar := "")
  {
    if !IsBlank(f.newGrammar) then
      f.(grammarTopics := f.grammarTopics + [Trim(f.newGrammar)], newGrammar := "")
    else
      f
  }

  /** The cross on draft word `i`: that entry goes, the others keep their order, and
      nothing else in the form changes. */
  function RemoveVocabulary(f: TrackForm, i: int): (g: TrackForm)
    ensures 0 <= i < |f.vocabulary| ==> g.vocabulary == f.vocabulary[..i] + f.vocabulary[i + 1..]
    ensures g == f.(vocabulary := g.vocabulary)
  {
    f.(vocabulary := RemoveAt(f.vocabulary, i))
  }

  /** The cross on draft grammar topic `i`. */
  function RemoveGrammar(f: TrackForm, i: int): (g: TrackForm)
    ensures 0 <= i < |f.grammarTopics| ==> g.grammarTopics == f.grammarTopics[..i] + f.grammarTopics[i + 1..]
    ensures g == f.(grammarTopics := g.grammarTopics)
  {
    f.(grammarTopics := RemoveAt(f.grammarTopics, i))
  }

  /** Removing the entry just added restores the draft list. */
  lemma RemoveUndoesAdd(f: TrackForm)
    requires !AllSpace(f.newWord) && !AllSpace(f.newMeaning)
    ensures RemoveVocabulary(AddVocabulary(f), |f.vocabulary|).vocabulary == f.vocabulary
  {
    RemoveAppended(f.vocabulary, DraftWord(Trim(f.newWord), Trim(f.newMeaning)));
  }

  /** `vocabulary.map(v => ({ ...v, learned: false }))`. */
  function Unlearned(words: seq<DraftWord>): (items: seq<VocabularyItem>)
    ensures |items| == |words|
    ensures forall k :: 0 <= k < |words| ==> items[k] == VocabularyItem(words[k].word, words[k].meaning, false)
  {
    if words == [] then [] else [VocabularyItem(words[0].word, words[0].meaning, false)] + Unlearned(words[1..])
  }

  /** The track form's submit handler; `outcome` is how `createTrack` settles. On success
      the unit name and both drafts are cleared, but the three entry inputs are not. */
  function SubmitTrack(f: TrackForm, outcome: Outcome): (s: Submission<TrackForm, TrackStore.NewTrack>)
    ensures s.call.None? <==> AllSpace(f.unitName)
    ensures s.call.None? ==> s.form == f && s.notice == Some(UnitNameRequired)
    ensures s.call.Some? ==> s.notice.None?
    ensures s.call.Some? ==> s.call.value.unitName == Trim(f.unitName) && s.call.value.unitName != []
    ensures s.call.Some? ==> s.call.value.vocabulary == Unlearned(f.vocabulary)
    ensures s.call.Some? ==> s.call.value.grammarTopics == f.grammarTopics && s.call.value.completion == 0
    ensures s.call.Some? && outcome.Ok? ==> s.form == f.(unitName := "", vocabulary := [], grammarTopics := [])
    ensures outcome.Err? ==> s.form == f
  {
    if IsBlank(f.unitName) then
      Submission(f, None, Some(UnitNameRequired))
    else
      var payload := TrackStore.NewTrack(Trim(f.unitName), Unlearned(f.vocabulary), f.grammarTopics, 0);
      Submission(if outcome.Ok? then f.(unitName := "", vocabulary := [], grammarTopics := []) else f,
                 Some(payload), None)
  }

  lemma TrackResubmitSendsNothing(f: TrackForm, outcome': Outcome)
    ensures var s := SubmitTrack(f, Ok);
      s.call.Some? ==> SubmitTrack(s.form, outcome').call.None?
  {
  }

  /** A new track is stored with completion 0, and that agrees with the percentage the
      detail dialog would compute from it: nothing in it is learned yet. */
  lemma NewTrackCompletionConsistent(f: TrackForm, outcome: Outcome, user: string)
    requires !AllSpace(f.unitName)
    ensures var payload := SubmitTrack(f, outcome).call.value;
      var insert := TrackStore.CreateTrack(Some(user), payload).value;
      && insert.userId == user
      && insert.completion == 0
      && TrackProgress.TrackCompletion(insert.vocabulary.value, insert.grammarTopics.value) == insert.completion
  {
    NothingLearnedYet(f.vocabulary);
    TrackProgress.CompletionNothingLearned(|f.vocabulary| + |f.grammarTopics|);
  }

  /** Every word of a new track starts unlearned. */
  lemma {:induction false} NothingLearnedYet(words: seq<DraftWord>)
    ensures TrackProgress.LearnedCount(Unlearned(words)) == 0
  {
    if words != [] {
      NothingLearnedYet(words[1..]);
      var items := Unlearned(words);
      assert items[1..] == Unlearned(words[1..]);
      assert !TrackProgress.IsLearned(items[0]);
    }
  }
}
