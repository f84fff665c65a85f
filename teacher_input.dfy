/**
 * The score sheet of src/pages/TeacherInputPage.tsx: the students taking the
 * selected subject, the per-student score map and its two edit handlers, and
 * the save-all loop that saves each non-zero score, then upserts it into
 * that student's report for the month or adds a new draft report. The
 * `saveScore` service is an outcome per loop position supplied by the
 * caller; `updateReport`, which the page imports but the store does not
 * define, is an abstract action whose calls are returned as a list.
 */
module TeacherInputPage {
  import opened Wrappers
  import opened Text
  import opened Seqs
  import opened Types
  import ReportStore
  import AdminPage

  // ---------------------------------------------------------------------
  // the students of the subject

  function TakesSubject(subject: string): Student -> bool {
    (s: Student) => subject in s.subjects
  }

  /** `students.filter((s) => s.subjects.includes(selectedSubject))` (TeacherInputPage.tsx:100). */
  function MyStudents(students: seq<Student>, subject: string): (r: seq<Student>)
    ensures forall x :: x in r <==> x in students && subject in x.subjects
    ensures |r| <= |students|
  {
    Filter(students, TakesSubject(subject))
  }

  // ---------------------------------------------------------------------
  // the score map

  /** One entry of `studentScores`. */
  datatype Entry = Entry(score: int, comment: string)

  function BySubject(subject: string): SubjectScore -> bool {
    (x: SubjectScore) => x.subject == subject
  }

  /** Position `j` holds the first score of the subject. */
  predicate FirstOfSubject(scores: seq<SubjectScore>, j: nat, subject: string)
    requires j < |scores|
  {
    scores[j].subject == subject && forall k :: 0 <= k < j ==> scores[k].subject != subject
  }

  /**
   * The entry loaded for a student: the score and comment already recorded for the subject in
   * the student's report of the month, else 0 and the empty comment (TeacherInputPage.tsx:86-95).
   */
  function ExistingEntry(reports: seq<MonthlyReport>, id: string, yearMonth: string, subject: string): (e: Entry)
    ensures AdminPage.GetStudentReport(reports, id, yearMonth).None? ==> e == Entry(0, "")
    ensures AdminPage.GetStudentReport(reports, id, yearMonth).Some? ==>
              var r := AdminPage.GetStudentReport(reports, id, yearMonth).value;
              && ((forall j :: 0 <= j < |r.scores| ==> r.scores[j].subject != subject) ==> e == Entry(0, ""))
              && (forall j :: 0 <= j < |r.scores| && FirstOfSubject(r.scores, j, subject) ==>
                        e == Entry(r.scores[j].score, r.scores[j].comment.GetOr("")))
  {
    match AdminPage.GetStudentReport(reports, id, yearMonth)
    case None => Entry(0, "")
    case Some(r) =>
      match Find(r.scores, BySubject(subject))
      case None => Entry(0, "")
      case Some(sc) => Entry(sc.score, sc.comment.GetOr(""))
  }

  /** The score map the selection effect builds: one entry per student id of the subject. */
  function InitialScores(students: seq<Student>, reports: seq<MonthlyReport>, yearMonth: string, subject: string)
    : map<string, Entry>
  {
    map id | id in Ids(MyStudents(students, subject)) :: ExistingEntry(reports, id, yearMonth, subject)
  }

  /**
   * The map holds exactly the ids of the students taking the subject, each with its loaded entry
   * (TeacherInputPage.tsx:82-97).
   */
  lemma InitialScoresExact(students: seq<Student>, reports: seq<MonthlyReport>, yearMonth: string,
                           subject: string, id: string)
    ensures id in InitialScores(students, reports, yearMonth, subject) <==>
            exists i :: 0 <= i < |students| && students[i].id == id && subject in students[i].subjects
    ensures id in InitialScores(students, reports, yearMonth, subject) ==>
            InitialScores(students, reports, yearMonth, subject)[id] == ExistingEntry(reports, id, yearMonth, subject)
  {
    var mine := MyStudents(students, subject);
    var ids := Ids(mine);
    if id in ids {
      var k :| 0 <= k < |ids| && ids[k] == id;
      assert mine[k] in students;
      var i :| 0 <= i < |students| && students[i] == mine[k];
    }
    if exists i :: 0 <= i < |students| && students[i].id == id && subject in students[i].subjects {
      var i :| 0 <= i < |students| && students[i].id == id && subject in students[i].subjects;
      assert students[i] in mine;
      var k :| 0 <= k < |mine| && mine[k] == students[i];
      assert ids[k] == id;
    }
  }

  /** The entry an edit starts from: the current one, or `{score: 0, comment: ''}`. */
  function Current(m: map<string, Entry>, id: string): Entry {
    if id in m then m[id] else Entry(0, "")
  }

  /**
   * `handleScoreChange` (TeacherInputPage.tsx:107-114): the student's entry gets the clamped
   * score and keeps its comment; every other entry stays.
   */
  function ScoreChange(m: map<string, Entry>, id: string, score: int): (r: map<string, Entry>)
    ensures r.Keys == m.Keys + {id}
    ensures r[id].score == ClampScore(score)
    ensures r[id].comment == if id in m then m[id].comment else ""
    ensures forall k :: k in m && k != id ==> r[k] == m[k]
  {
    m[id := Current(m, id).(score := ClampScore(score))]
  }

  /**
   * `handleCommentChange` (TeacherInputPage.tsx:116-123): the student's entry gets the comment
   * and keeps its score; every other entry stays.
   */
  function CommentChange(m: map<string, Entry>, id: string, comment: string): (r: map<string, Entry>)
    ensures r.Keys == m.Keys + {id}
    ensures r[id].comment == comment
    ensures r[id].score == if id in m then m[id].score else 0
    ensures forall k :: k in m && k != id ==> r[k] == m[k]
  {
    m[id := Current(m, id).(comment := comment)]
  }

  /** The two edits touch different fields, so their order does not matter. */
  lemma EditsCommute(m: map<string, Entry>, id: string, score: int, comment: string)
    ensures ScoreChange(CommentChange(m, id, comment), id, score) ==
            CommentChange(ScoreChange(m, id, score), id, comment)
  {
    var a := ScoreChange(CommentChange(m, id, comment), id, score);
    var b := CommentChange(ScoreChange(m, id, score), id, comment);
    assert a.Keys == b.Keys;
    assert a[id] == b[id];
  }

  /** Entering the same score twice is the same as entering it once. */
  lemma ScoreChangeIdempotent(m: map<string, Entry>, id: string, score: int)
    ensures ScoreChange(ScoreChange(m, id, score), id, score) == ScoreChange(m, id, score)
  {
    var a := ScoreChange(ScoreChange(m, id, score), id, score);
    var b := ScoreChange(m, id, score);
    assert a.Keys == b.Keys;
  }

  // ---------------------------------------------------------------------
  // the upsert

  /**
   * The report's scores with `s` in place of the first score of the same subject, or `s`
   * appended when the subject has none (TeacherInputPage.tsx:166-174).
   */
  function Upsert(scores: seq<SubjectScore>, s: SubjectScore): (r: seq<SubjectScore>)
  {
    var k := FindIndex(scores, BySubject(s.subject));
    if k >= 0 then scores[k := s] else scores + [s]
  }

  /**
   * When the subject is present, its first score is replaced and the length is kept; otherwise
   * `s` comes last. Every other score stays where it was.
   */
  lemma UpsertEffect(scores: seq<SubjectScore>, s: SubjectScore)
    ensures forall j :: 0 <= j < |scores| && scores[j].subject != s.subject ==> Upsert(scores, s)[j] == scores[j]
    ensures (forall j :: 0 <= j < |scores| ==> scores[j].subject != s.subject) ==> Upsert(scores, s) == scores + [s]
    ensures forall j :: 0 <= j < |scores| && FirstOfSubject(scores, j, s.subject) ==>
              |Upsert(scores, s)| == |scores| && Upsert(scores, s)[j] == s &&
              forall k :: 0 <= k < |scores| && k != j ==> Upsert(scores, s)[k] == scores[k]
  {
    var k := FindIndex(scores, BySubject(s.subject));
    forall j | 0 <= j < |scores| && FirstOfSubject(scores, j, s.subject)
      ensures j == k
    {
      assert BySubject(s.subject)(scores[j]);
    }
  }

  /** After the upsert, looking the subject up finds exactly the new score. */
  lemma UpsertFinds(scores: seq<SubjectScore>, s: SubjectScore)
    ensures Find(Upsert(scores, s), BySubject(s.subject)) == Some(s)
    ensures |Upsert(scores, s)| <= |scores| + 1
  {
    var p := BySubject(s.subject);
    var k := FindIndex(scores, p);
    var r := Upsert(scores, s);
    var i := FindIndex(r, p);
    assert p(s);
    if k >= 0 {
      assert p(r[k]);
    } else {
      assert p(r[|scores|]);
    }
  }

  /** Upserting the same score again changes nothing. */
  lemma UpsertIdempotent(scores: seq<SubjectScore>, s: SubjectScore)
    ensures Upsert(Upsert(scores, s), s) == Upsert(scores, s)
  {
    var p := BySubject(s.subject);
    var r := Upsert(scores, s);
    UpsertFinds(scores, s);
    var i := FindIndex(r, p);
    assert i >= 0 && r[i] == s;
    assert r[i := s] == r;
  }

  // ---------------------------------------------------------------------
  // saving

  /** How one `saveScore` call came back. */
  datatype SaveCall = Saved | NotSaved | Threw

  /** What the save loop reads besides the score map. `reports` is the list as rendered. */
  datatype SaveContext = SaveContext(
    reports: seq<MonthlyReport>,
    yearMonth: string,
    subject: string,
    teacher: Teacher,
    calls: nat -> SaveCall,
    now: string)

  /** The loop's results: saved count, `updateReport` calls, `addReport` calls, and whether a call threw. */
  datatype SaveLog = SaveLog(count: nat, updated: seq<MonthlyReport>, added: seq<MonthlyReport>, failed: bool)

  /** A student is saved only with an entry whose score is non-zero (TeacherInputPage.tsx:134-135). */
  predicate Attempted(m: map<string, Entry>, student: Student) {
    student.id in m && m[student.id].score != 0
  }

  /** The `SubjectScore` the loop records (TeacherInputPage.tsx:152-159). */
  function NewScore(ctx: SaveContext, e: Entry): (s: SubjectScore)
    ensures s.subject == ctx.subject && s.score == e.score && s.comment == Some(e.comment)
    ensures s.teacherId == ctx.teacher.id && s.teacherName == ctx.teacher.name && s.updatedAt == ctx.now
  {
    SubjectScore(ctx.subject, e.score, ctx.teacher.id, ctx.teacher.name, Some(e.comment), None, ctx.now)
  }

  /** The draft report added for a student without one (TeacherInputPage.tsx:181-190). */
  function DraftReport(ctx: SaveContext, student: Student, s: SubjectScore): (r: MonthlyReport)
    ensures r.scores == [s] && r.status == Draft && r.totalComment.None?
    ensures r.id == student.id + "-" + ctx.yearMonth && r.studentId == student.id
    ensures r.studentName == student.name && r.yearMonth == ctx.yearMonth
    ensures r.createdAt == ctx.now && r.updatedAt == ctx.now
  {
    MonthlyReport(student.id + "-" + ctx.yearMonth, student.id, student.name, ctx.yearMonth, [s], None,
                  Draft, ctx.now, ctx.now)
  }

  /** One iteration of the loop for the student at position `i`. */
  function SaveStep(prev: SaveLog, student: Student, i: nat, m: map<string, Entry>, ctx: SaveContext): (t: SaveLog)
    ensures prev.failed || !Attempted(m, student) ==> t == prev
    ensures t.failed <==> prev.failed || (Attempted(m, student) && ctx.calls(i) == Threw)
    ensures t.count == prev.count + (if !prev.failed && Attempted(m, student) && ctx.calls(i) == Saved then 1 else 0)
    ensures |t.updated| + |t.added| - |prev.updated| - |prev.added| == t.count - prev.count
    ensures |t.updated| >= |prev.updated| && t.updated[..|prev.updated|] == prev.updated
    ensures |t.added| >= |prev.added| && t.added[..|prev.added|] == prev.added
  {
    if prev.failed || !Attempted(m, student) then prev
    else
      match ctx.calls(i)
      case NotSaved => prev
      case Threw => prev.(failed := true)
      case Saved =>
        var ns := NewScore(ctx, m[student.id]);
        match AdminPage.GetStudentReport(ctx.reports, student.id, ctx.yearMonth)
        case Some(r) =>
          prev.(count := prev.count + 1,
                updated := prev.updated + [r.(scores := Upsert(r.scores, ns), updatedAt := ctx.now)])
        case None =>
          prev.(count := prev.count + 1, added := prev.added + [DraftReport(ctx, student, ns)])
  }

  /** The results of the loop over `students`, up to the first call that throws. */
  function SaveLogOf(students: seq<Student>, m: map<string, Entry>, ctx: SaveContext): (t: SaveLog)
    ensures t.count == |t.updated| + |t.added| <= |students|
    decreases |students|
  {
    if students == [] then SaveLog(0, [], [], false)
    else
      var n := |students| - 1;
      SaveStep(SaveLogOf(students[..n], m, ctx), students[n], n, m, ctx)
  }

  lemma SaveUnfold(students: seq<Student>, i: nat, m: map<string, Entry>, ctx: SaveContext)
    requires i < |students|
    ensures SaveLogOf(students[..i + 1], m, ctx) == SaveStep(SaveLogOf(students[..i], m, ctx), students[i], i, m, ctx)
  {
    assert students[..i + 1][..i] == students[..i];
  }

  /** Once a call has thrown, the rest of the students change nothing. */
  lemma {:induction false} FailedIsFinal(students: seq<Student>, i: nat, m: map<string, Entry>, ctx: SaveContext)
    requires i <= |students| && SaveLogOf(students[..i], m, ctx).failed
    ensures SaveLogOf(students, m, ctx) == SaveLogOf(students[..i], m, ctx)
    decreases |students| - i
  {
    if i < |students| {
      SaveUnfold(students, i, m, ctx);
      FailedIsFinal(students, i + 1, m, ctx);
    } else {
      assert students[..i] == students;
    }
  }

  /** The positions whose save returned true. */
  ghost function SavedPositions(students: seq<Student>, m: map<string, Entry>, calls: nat -> SaveCall, n: nat): set<nat>
    requires n <= |students|
  {
    set i: nat | i < n && Attempted(m, students[i]) && calls(i) == Saved
  }

  /** One more position adds itself to the saved positions exactly when its save returned true. */
  lemma SavedPositionsStep(students: seq<Student>, m: map<string, Entry>, calls: nat -> SaveCall, n: nat)
    requires n < |students|
    ensures SavedPositions(students, m, calls, n + 1) ==
            SavedPositions(students, m, calls, n) + (if Attempted(m, students[n]) && calls(n) == Saved then {n} else {})
  {
  }

  /** The loop over the first `k` students, without a throw, counts the saved positions below `k`. */
  lemma {:induction false} CountIsSavesUpTo(students: seq<Student>, k: nat, m: map<string, Entry>, ctx: SaveContext)
    requires k <= |students|
    requires forall i :: 0 <= i < k && Attempted(m, students[i]) ==> ctx.calls(i) != Threw
    ensures !SaveLogOf(students[..k], m, ctx).failed
    ensures SaveLogOf(students[..k], m, ctx).count == |SavedPositions(students, m, ctx.calls, k)|
    decreases k
  {
    if k > 0 {
      var n := k - 1;
      CountIsSavesUpTo(students, n, m, ctx);
      SaveUnfold(students, n, m, ctx);
      var prev := SaveLogOf(students[..n], m, ctx);
      var next := SaveStep(prev, students[n], n, m, ctx);
      var before := SavedPositions(students, m, ctx.calls, n);
      SavedPositionsStep(students, m, ctx.calls, n);
      if Attempted(m, students[n]) && ctx.calls(n) == Saved {
        assert n !in before;
        assert |before + {n}| == |before| + 1;
      }
    }
  }

  /**
   * When no call throws, the saved count is the number of students whose `saveScore` returned
   * true (TeacherInputPage.tsx:132, 149-150, 196).
   */
  lemma CountIsSaves(students: seq<Student>, m: map<string, Entry>, ctx: SaveContext)
    requires forall i :: 0 <= i < |students| && Attempted(m, students[i]) ==> ctx.calls(i) != Threw
    ensures !SaveLogOf(students, m, ctx).failed
    ensures SaveLogOf(students, m, ctx).count == |SavedPositions(students, m, ctx.calls, |students|)|
  {
    CountIsSavesUpTo(students, |students|, m, ctx);
    assert students[..|students|] == students;
  }

  /** With no non-zero score in the map, saving calls nothing and changes nothing (TeacherInputPage.tsx:135). */
  lemma {:induction false} NothingToSave(students: seq<Student>, m: map<string, Entry>, ctx: SaveContext)
    requires forall i :: 0 <= i < |students| ==> !Attempted(m, students[i])
    ensures SaveLogOf(students, m, ctx) == SaveLog(0, [], [], false)
    decreases |students|
  {
    if students != [] {
      NothingToSave(students[..|students| - 1], m, ctx);
    }
  }

  /** A report that is updated keeps its identity and, looked up by the subject, yields the new score. */
  lemma UpdatedReportFindsScore(prev: SaveLog, student: Student, i: nat, m: map<string, Entry>, ctx: SaveContext)
    requires !prev.failed && Attempted(m, student) && ctx.calls(i) == Saved
    requires AdminPage.GetStudentReport(ctx.reports, student.id, ctx.yearMonth).Some?
    ensures var r := AdminPage.GetStudentReport(ctx.reports, student.id, ctx.yearMonth).value;
            var u := SaveStep(prev, student, i, m, ctx).updated;
            && |u| == |prev.updated| + 1
            && u[|prev.updated|].id == r.id && u[|prev.updated|].updatedAt == ctx.now
            && Find(u[|prev.updated|].scores, BySubject(ctx.subject)) == Some(NewScore(ctx, m[student.id]))
  {
    var r := AdminPage.GetStudentReport(ctx.reports, student.id, ctx.yearMonth).value;
    UpsertFinds(r.scores, NewScore(ctx, m[student.id]));
  }

  /** The status line after the loop. */
  function SavedMessage(t: SaveLog): string {
    if t.failed then "저장 중 오류가 발생했습니다." else NatToString(t.count) + "명 저장 완료!"
  }

  /** One iteration: call, on success upsert into the rendered report or add a draft. */
  method SaveOne(store: ReportStore.Store, ghost s0: ReportStore.StoreState, prev: SaveLog, student: Student,
                 i: nat, m: map<string, Entry>, ctx: SaveContext)
    returns (next: SaveLog)
    requires store.State() == s0.(reports := s0.reports + prev.added)
    modifies store
    ensures next == SaveStep(prev, student, i, m, ctx)
    ensures store.State() == s0.(reports := s0.reports + next.added)
  {
    if prev.failed || !Attempted(m, student) {
      return prev;
    }
    match ctx.calls(i) {
      case NotSaved =>
        next := prev;
      case Threw =>
        next := prev.(failed := true);
      case Saved =>
        var ns := NewScore(ctx, m[student.id]);
        var report := AdminPage.GetStudentReport(ctx.reports, student.id, ctx.yearMonth);
        if report.Some? {
          var r := report.value;
          next := prev.(count := prev.count + 1,
                        updated := prev.updated + [r.(scores := Upsert(r.scores, ns), updatedAt := ctx.now)]);
        } else {
          var d := DraftReport(ctx, student, ns);
          store.AddReport(d);
          next := prev.(count := prev.count + 1, added := prev.added + [d]);
          assert s0.reports + prev.added + [d] == s0.reports + next.added;
        }
    }
  }

  /** The `for (const student of myStudents)` loop, left early by the first call that throws. */
  method SaveAll(store: ReportStore.Store, students: seq<Student>, m: map<string, Entry>, ctx: SaveContext)
    returns (t: SaveLog)
    modifies store
    ensures t == SaveLogOf(students, m, ctx)
    ensures store.State() == old(store.State()).(reports := old(store.reports) + t.added)
  {
    ghost var s0 := store.State();
    t := SaveLog(0, [], [], false);
    var i := 0;
    while i < |students| && !t.failed
      invariant i <= |students|
      invariant t == SaveLogOf(students[..i], m, ctx)
      invariant store.State() == s0.(reports := s0.reports + t.added)
    {
      SaveUnfold(students, i, m, ctx);
      t := SaveOne(store, s0, t, students[i], i, m, ctx);
      i := i + 1;
    }
    if t.failed {
      FailedIsFinal(students, i, m, ctx);
    } else {
      assert students[..i] == students;
    }
  }

  // ---------------------------------------------------------------------
  // the screen

  class TeacherScreen {
    var selectedSubject: string
    var studentScores: map<string, Entry>
    var saving: bool
    var savedMessage: string
    const store: ReportStore.Store

    constructor(store: ReportStore.Store)
      ensures selectedSubject == "" && studentScores == map[] && !saving && savedMessage == ""
      ensures this.store == store
    {
      selectedSubject := "";
      studentScores := map[];
      saving := false;
      savedMessage := "";
      this.store := store;
    }

    /** The first of the teacher's subjects is selected when none is (TeacherInputPage.tsx:60-62). */
    method SelectDefaultSubject(subjects: seq<string>)
      modifies this
      ensures selectedSubject == if old(selectedSubject) == "" && |subjects| > 0 then subjects[0]
                                 else old(selectedSubject)
      ensures studentScores == old(studentScores) && saving == old(saving) && savedMessage == old(savedMessage)
    {
      if |subjects| > 0 && selectedSubject == "" {
        selectedSubject := subjects[0];
      }
    }

    /** The effect that reloads the score map when the subject or the data change (TeacherInputPage.tsx:78-98). */
    method LoadScores()
      modifies this
      ensures selectedSubject == old(selectedSubject) && saving == old(saving) && savedMessage == old(savedMessage)
      ensures selectedSubject == "" || |store.students| == 0 ==> studentScores == old(studentScores)
      ensures selectedSubject != "" && |store.students| > 0 ==>
                studentScores == InitialScores(store.students, store.reports, store.currentYearMonth, selectedSubject)
    {
      if selectedSubject == "" || |store.students| == 0 {
        return;
      }
      var filtered := MyStudents(store.students, selectedSubject);
      var ids := Ids(filtered);
      var scoreMap: map<string, Entry> := map[];
      for i := 0 to |filtered|
        invariant scoreMap == map id | id in ids[..i] ::
                                ExistingEntry(store.reports, id, store.currentYearMonth, selectedSubject)
      {
        var id := filtered[i].id;
        scoreMap := scoreMap[id := ExistingEntry(store.reports, id, store.currentYearMonth, selectedSubject)];
        assert ids[..i + 1] == ids[..i] + [id];
      }
      assert ids[..|filtered|] == ids;
      studentScores := scoreMap;
    }

    method HandleScoreChange(id: string, score: int)
      modifies this
      ensures studentScores == ScoreChange(old(studentScores), id, score)
      ensures selectedSubject == old(selectedSubject) && saving == old(saving) && savedMessage == old(savedMessage)
    {
      studentScores := ScoreChange(studentScores, id, score);
    }

    method HandleCommentChange(id: string, comment: string)
      modifies this
      ensures studentScores == CommentChange(old(studentScores), id, comment)
      ensures selectedSubject == old(selectedSubject) && saving == old(saving) && savedMessage == old(savedMessage)
    {
      studentScores := CommentChange(studentScores, id, comment);
    }

    /**
     * `handleSaveAll` (TeacherInputPage.tsx:125-204). `updated` lists the `updateReport`
     * calls; added drafts go to the store. Without a signed-in teacher nothing happens.
     */
    method HandleSaveAll(user: Option<CurrentUser>, calls: nat -> SaveCall, now: string)
      returns (updated: seq<MonthlyReport>)
      modifies this, store
      ensures selectedSubject == old(selectedSubject) && studentScores == old(studentScores)
      ensures user.None? ==> updated == [] && saving == old(saving) && savedMessage == old(savedMessage) &&
                             store.State() == old(store.State())
      ensures user.Some? ==>
        var ctx := SaveContext(old(store.reports), old(store.currentYearMonth), selectedSubject,
                               user.value.teacher, calls, now);
        var t := SaveLogOf(MyStudents(old(store.students), selectedSubject), studentScores, ctx);
        && updated == t.updated && !saving && savedMessage == SavedMessage(t)
        && store.State() == old(store.State()).(reports := old(store.reports) + t.added)
    {
      if user.None? {
        return [];
      }
      saving := true;
      savedMessage := "";
      var ctx := SaveContext(store.reports, store.currentYearMonth, selectedSubject, user.value.teacher, calls, now);
      var t := SaveAll(store, MyStudents(store.students, selectedSubject), studentScores, ctx);
      updated := t.updated;
      savedMessage := SavedMessage(t);
      saving := false;
    }
  }
}
