/**
 * The single-student input form of src/pages/InputPage.tsx: the zero scores a
 * selection starts from, the clamped score edit, the search filter over the
 * student list, the preview guard, and the reset button. The page only ever
 * replaces its state wholesale, so every step is a function.
 */
module InputPage {
  import opened Wrappers
  import opened Text
  import opened Seqs
  import opened Types

  /** The page's local state: the score lines, the comment and the search box. */
  datatype Form = Form(scores: seq<Score>, comment: string, searchTerm: string)

  // ---------------------------------------------------------------------
  // selection and score edits

  /** One zero score per subject, in subject order. */
  function ZeroScores(subjects: seq<string>): (scores: seq<Score>)
    ensures |scores| == |subjects|
    ensures forall i :: 0 <= i < |scores| ==> scores[i] == Score(subjects[i], 0)
  {
    seq(|subjects|, i requires 0 <= i < |subjects| => Score(subjects[i], 0))
  }

  /**
   * The effect run when the selected student changes (InputPage.tsx:56-66): a selected student
   * gets one zero score per subject and an empty comment; with no selection the form stays.
   */
  function OnSelect(f: Form, selected: Option<Student>): (g: Form)
    ensures selected.None? ==> g == f
    ensures selected.Some? ==> g == Form(ZeroScores(selected.value.subjects), "", f.searchTerm)
  {
    match selected
    case None => f
    case Some(s) => f.(scores := ZeroScores(s.subjects), comment := "")
  }

  /** `Math.min(100, Math.max(0, parseInt(value) || 0))`: a non-numeric entry counts as 0. */
  function ScoreValue(value: string): (v: int)
    ensures 0 <= v <= 100
    ensures ParseInt(value).None? ==> v == 0
  {
    ClampScore(ParseInt(value).GetOr(0))
  }

  /** A score typed as its numeral reads back as itself. */
  lemma ScoreValueOfNumeral(n: int)
    requires 0 <= n <= 100
    ensures ScoreValue(IntToString(n)) == n
  {
    ParseIntToString(n);
  }

  /**
   * `handleScoreChange` (InputPage.tsx:77-82): every line of the subject gets the clamped value;
   * the other lines and the order stay.
   */
  function ScoreChange(scores: seq<Score>, subject: string, value: string): (r: seq<Score>)
    ensures |r| == |scores|
    ensures forall i :: 0 <= i < |r| ==> r[i].subject == scores[i].subject
    ensures forall i :: 0 <= i < |r| && scores[i].subject == subject ==> r[i].score == ScoreValue(value)
    ensures forall i :: 0 <= i < |r| && scores[i].subject != subject ==> r[i] == scores[i]
  {
    seq(|scores|, i requires 0 <= i < |scores| =>
      if scores[i].subject == subject then scores[i].(score := ScoreValue(value)) else scores[i])
  }

  /** Entering the same value twice is entering it once. */
  lemma ScoreChangeIdempotent(scores: seq<Score>, subject: string, value: string)
    ensures ScoreChange(ScoreChange(scores, subject, value), subject, value) == ScoreChange(scores, subject, value)
  {
  }

  // ---------------------------------------------------------------------
  // the search filter

  /** A student matches when the name, the grade or one of the subjects contains the term. */
  predicate Matches(student: Student, term: string) {
    Contains(student.name, term) || Contains(student.grade, term) ||
    exists i :: 0 <= i < |student.subjects| && Contains(student.subjects[i], term)
  }

  function MatchesTerm(term: string): Student -> bool {
    (s: Student) => Matches(s, term)
  }

  /** `filteredStudents` (InputPage.tsx:70-74), in list order. */
  function Filtered(students: seq<Student>, term: string): (r: seq<Student>)
    ensures forall x :: x in r <==> x in students && Matches(x, term)
    ensures |r| <= |students|
  {
    Filter(students, MatchesTerm(term))
  }

  /** An empty search box shows the whole list, in order. */
  lemma {:induction false} EmptyTermKeepsAll(students: seq<Student>)
    ensures Filtered(students, "") == students
    decreases |students|
  {
    if students != [] {
      ContainsEmpty(students[0].name);
      assert MatchesTerm("")(students[0]);
      EmptyTermKeepsAll(students[1..]);
      assert [students[0]] + students[1..] == students;
    }
  }

  // ---------------------------------------------------------------------
  // preview and reset

  /** `scores.every((s) => s.score === 0)`; true of the empty list. */
  predicate AllZero(scores: seq<Score>) {
    forall i :: 0 <= i < |scores| ==> scores[i].score == 0
  }

  /** What the preview button does: raise an alert, or store the report and go to `/preview`. */
  datatype PreviewStep = Alert(message: string) | ToPreview(report: PreviewReport)

  /**
   * `handlePreview` (InputPage.tsx:85-105): a missing student and a sheet of zeros are
   * rejected in that order; otherwise the report carries the student, the month, the scores
   * and the comment.
   */
  function HandlePreview(selected: Option<Student>, f: Form, yearMonth: string): (r: PreviewStep)
    ensures selected.None? ==> r == Alert("학생을 선택해주세요.")
    ensures selected.Some? && AllZero(f.scores) ==> r == Alert("점수를 입력해주세요.")
    ensures r.ToPreview? <==> selected.Some? && exists i :: 0 <= i < |f.scores| && f.scores[i].score != 0
    ensures r.ToPreview? ==>
              r.report == PreviewReport(selected.value.id, selected.value.name, yearMonth, f.scores, f.comment)
  {
    if selected.None? then Alert("학생을 선택해주세요.")
    else if AllZero(f.scores) then Alert("점수를 입력해주세요.")
    else ToPreview(PreviewReport(selected.value.id, selected.value.name, yearMonth, f.scores, f.comment))
  }

  /** A freshly selected student cannot be previewed before a score is entered. */
  lemma SelectThenPreviewRejected(f: Form, student: Student, yearMonth: string)
    ensures HandlePreview(Some(student), OnSelect(f, Some(student)), yearMonth) == Alert("점수를 입력해주세요.")
  {
  }

  /** Entering a non-zero score for one of the subjects is enough to allow the preview. */
  lemma ScoreEnablesPreview(student: Student, f: Form, subject: string, value: string, yearMonth: string)
    requires subject in student.subjects && ScoreValue(value) != 0
    ensures var g := OnSelect(f, Some(student));
            var h := g.(scores := ScoreChange(g.scores, subject, value));
            HandlePreview(Some(student), h, yearMonth).ToPreview?
  {
    var g := OnSelect(f, Some(student));
    var s2 := ScoreChange(g.scores, subject, value);
    var i :| 0 <= i < |student.subjects| && student.subjects[i] == subject;
    assert s2[i].score != 0;
  }

  /** The reset button (InputPage.tsx:241-245): no selection, no scores, no comment. */
  function Reset(f: Form): (r: (Option<Student>, Form))
    ensures r.0.None? && r.1.scores == [] && r.1.comment == "" && r.1.searchTerm == f.searchTerm
  {
    (None, f.(scores := [], comment := ""))
  }

  /** After a reset the preview asks for a student again. */
  lemma ResetBlocksPreview(f: Form, yearMonth: string)
    ensures HandlePreview(Reset(f).0, Reset(f).1, yearMonth) == Alert("학생을 선택해주세요.")
  {
  }
}
