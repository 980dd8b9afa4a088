/** The rows the data hooks read from the hosted backend, one datatype per table, with the
    string unions of the source as enumerations and nullable columns as `Option`. */
module Entities {
  import opened Wrappers

  /** A point on the time line: what `parseISO` makes of a stored date string. Only the
      order of instants matters to the model, so an integer stands for one. */
  type Instant = int

  datatype ExamType = Quiz | Midterm | Final | Speaking

  /** The fixed order in which the pages list per-type averages. */
  const ExamTypes: seq<ExamType> := [Quiz, Midterm, Final, Speaking]

  datatype Exam = Exam(
    id: string,
    examTitle: string,
    examType: ExamType,
    examDate: Instant,
    grade: Option<real>,
    notes: Option<string>)

  datatype AssignmentStatus = Pending | InProgress | Completed

  datatype Assignment = Assignment(
    id: string,
    title: string,
    description: Option<string>,
    dueDate: Instant,
    status: AssignmentStatus)

  datatype AttendanceStatus = Present | Absent

  datatype Attendance = Attendance(id: string, date: Instant, hours: int, status: AttendanceStatus)

  datatype Level = A1 | A2 | B1 | B2 | C1

  datatype Profile = Profile(
    id: string,
    email: string,
    name: Option<string>,
    englishLevel: Level,
    photoUrl: Option<string>)

  datatype VocabularyItem = VocabularyItem(word: string, meaning: string, learned: bool)

  datatype Track = Track(
    id: string,
    userId: string,
    unitName: string,
    vocabulary: seq<VocabularyItem>,
    grammarTopics: seq<string>,
    completion: int,
    createdAt: string,
    updatedAt: string)

  /** `Partial<Track> & { id }`: the fields an update names; an absent field is left
      alone by the update. Only the fields the pages send are represented: the source type
      would also admit `user_id`, `created_at` and `updated_at`, which no caller sets. */
  datatype TrackPatch = TrackPatch(
    id: string,
    unitName: Option<string>,
    vocabulary: Option<seq<VocabularyItem>>,
    grammarTopics: Option<seq<string>>,
    completion: Option<int>)
}
