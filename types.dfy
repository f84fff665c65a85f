/**
 * The record shapes of the application. Most come from src/types/index.ts;
 * the fields marked "used by the pages" are read or written by the pages but
 * are missing from that file, so they are added here.
 */
module Types {
  import opened Wrappers

  /** `list.map(s => s.id)` */
  function Ids(list: seq<Student>): (ids: seq<string>)
    ensures |ids| == |list| && forall i :: 0 <= i < |list| ==> ids[i] == list[i].id
  {
    seq(|list|, i requires 0 <= i < |list| => list[i].id)
  }

  /**
   * The clamp both score inputs apply, `Math.max(0, Math.min(100, x))` on the teacher sheet and
   * `Math.min(100, Math.max(0, x))` on the input page: the same value either way.
   */
  function ClampScore(score: int): (c: int)
    ensures 0 <= c <= 100
    ensures 0 <= score <= 100 ==> c == score
    ensures score < 0 ==> c == 0
    ensures score > 100 ==> c == 100
  {
    if score < 0 then 0 else if score > 100 then 100 else score
  }

  datatype Teacher = Teacher(
    id: string,
    name: string,
    subject: string,
    pin: string,
    isAdmin: bool,
    subjects: seq<string>)  // used by the pages (`teacher.subjects || []`)

  datatype Student = Student(
    id: string,
    name: string,
    grade: string,
    subjects: seq<string>,
    parentName: Option<string>,
    parentKakaoId: Option<string>,
    examDate: Option<string>,      // used by the pages
    status: Option<string>,        // used by the pages ('inactive' hides a student)
    absenceReason: Option<string>) // used by the pages

  /** Difficulty grades A (hardest) to F; used by the pages. */
  datatype Grade = A | B | C | D | E | F

  datatype SubjectScore = SubjectScore(
    subject: string,
    score: int,
    teacherId: string,
    teacherName: string,
    comment: Option<string>,
    difficulty: Option<Grade>,     // used by the pages
    updatedAt: string)

  datatype ReportStatus = Draft | Complete | Sent

  datatype MonthlyReport = MonthlyReport(
    id: string,
    studentId: string,
    studentName: string,
    yearMonth: string,
    scores: seq<SubjectScore>,
    totalComment: Option<string>,
    status: ReportStatus,
    createdAt: string,
    updatedAt: string)

  datatype RecipientType = Parent | Self

  datatype SendStatus = Success | Failed | Pending

  datatype SendHistory = SendHistory(
    id: Option<string>,
    studentId: string,
    studentName: string,
    reportId: string,
    recipientName: string,
    recipientType: Option<RecipientType>,
    sentAt: string,
    status: SendStatus,
    errorMessage: Option<string>)

  datatype KakaoFriend = KakaoFriend(uuid: string, nickname: string, thumbnail: Option<string>)

  datatype CurrentUser = CurrentUser(teacher: Teacher, loginAt: string)

  /** One subject line of the report the input page builds. */
  datatype Score = Score(subject: string, score: int)

  /**
   * The store declares `currentReport` as a MonthlyReport, but the input page
   * stores this smaller shape there, and the send and preview pages read it.
   */
  datatype PreviewReport = PreviewReport(
    studentId: string,
    studentName: string,
    yearMonth: string,
    scores: seq<Score>,
    comment: string)
}
