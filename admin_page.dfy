/**
 * The administrator's dashboard of src/pages/AdminPage.tsx: report lookup
 * and status, the completion count and percentage, the selection used for
 * bulk sending, the mock bulk send with its tallies, and the score editor.
 * The selection is a JavaScript `Set`, so it is kept here as a sequence
 * without duplicates in insertion order, which is the order `for … of`
 * visits it. The mock send's `Math.random() > 0.1` is the `draws`
 * parameter, `draws(i)` being the draw for the i-th selected id; the clock
 * is the `now` text; `updateScores` is a boolean outcome.
 */
module AdminPage {
  import opened Wrappers
  import opened Text
  import opened Seqs
  import opened Types
  import Kakao
  import ReportStore

  // ---------------------------------------------------------------------
  // report lookup and status

  /** `getStudentReport`: the first report of the student for the month (AdminPage.tsx:68-70). */
  function GetStudentReport(reports: seq<MonthlyReport>, studentId: string, yearMonth: string)
    : (r: Option<MonthlyReport>)
    ensures r.None? <==> forall j :: 0 <= j < |reports| ==>
              !(reports[j].studentId == studentId && reports[j].yearMonth == yearMonth)
    ensures r.Some? ==> r.value.studentId == studentId && r.value.yearMonth == yearMonth
    ensures r.Some? ==> exists i :: 0 <= i < |reports| && reports[i] == r.value && NoneBefore(reports, i, studentId, yearMonth)
  {
    Find(reports, (r: MonthlyReport) => r.studentId == studentId && r.yearMonth == yearMonth)
  }

  predicate NoneBefore(reports: seq<MonthlyReport>, i: nat, studentId: string, yearMonth: string)
    requires i <= |reports|
  {
    forall j :: 0 <= j < i ==> !(reports[j].studentId == studentId && reports[j].yearMonth == yearMonth)
  }

  datatype Label = NotEntered | InProgress | Entered | SentDone

  /** The label's display text. */
  function LabelText(l: Label): string {
    match l
    case NotEntered => "미입력"
    case InProgress => "진행중"
    case Entered => "입력완료"
    case SentDone => "전송완료"
  }

  datatype Status = Status(kind: Label, color: string, progress: string)

  function Progress(entered: nat, total: nat): string {
    NatToString(entered) + "/" + NatToString(total)
  }

  /** `getReportStatus` (AdminPage.tsx:72-90). */
  function ReportStatusOf(student: Student, report: Option<MonthlyReport>): Status {
    if report.None? || |report.value.scores| == 0 then
      Status(NotEntered, "#dc2626", "0/" + NatToString(|student.subjects|))
    else
      var entered := |report.value.scores|;
      var total := |student.subjects|;
      if entered < total then Status(InProgress, "#f59e0b", Progress(entered, total))
      else if report.value.status == Sent then Status(SentDone, "#16a34a", Progress(entered, total))
      else Status(Entered, "#2563eb", Progress(entered, total))
  }

  /** The four labels, each with the exact condition that yields it. */
  lemma StatusCases(student: Student, report: Option<MonthlyReport>)
    ensures ReportStatusOf(student, report).kind == NotEntered <==>
              report.None? || report.value.scores == []
    ensures ReportStatusOf(student, report).kind == InProgress <==>
              report.Some? && 0 < |report.value.scores| < |student.subjects|
    ensures ReportStatusOf(student, report).kind == SentDone <==>
              report.Some? && 0 < |report.value.scores| && |student.subjects| <= |report.value.scores| &&
              report.value.status == Sent
    ensures ReportStatusOf(student, report).kind == Entered <==>
              report.Some? && 0 < |report.value.scores| && |student.subjects| <= |report.value.scores| &&
              report.value.status != Sent
    ensures ReportStatusOf(student, report).progress ==
              if report.None? || report.value.scores == [] then Progress(0, |student.subjects|)
              else Progress(|report.value.scores|, |student.subjects|)
  {
  }

  predicate Completed(student: Student, reports: seq<MonthlyReport>, yearMonth: string) {
    var l := ReportStatusOf(student, GetStudentReport(reports, student.id, yearMonth)).kind;
    l == Entered || l == SentDone
  }

  /** `completedCount` (AdminPage.tsx:256-259). */
  function CompletedCount(students: seq<Student>, reports: seq<MonthlyReport>, yearMonth: string): (c: nat)
    ensures c <= |students|
  {
    |Filter(students, s => Completed(s, reports, yearMonth))|
  }

  /**
   * `Math.round(completed / total * 100)`, or 0 without students (AdminPage.tsx:331),
   * in exact arithmetic: `floor(100c/n + 1/2)`.
   */
  function Percentage(completed: nat, total: nat): int {
    if total > 0 then (200 * completed + total) / (2 * total) else 0
  }

  /** The percentage lies in 0..100, is within one half of the exact ratio, and is 100 when all are done. */
  lemma PercentageBounds(completed: nat, total: nat)
    requires completed <= total
    ensures 0 <= Percentage(completed, total) <= 100
    ensures total > 0 ==> 2 * total * Percentage(completed, total) <= 200 * completed + total
                          < 2 * total * Percentage(completed, total) + 2 * total
    ensures total > 0 && completed == total ==> Percentage(completed, total) == 100
    ensures completed == 0 ==> Percentage(completed, total) == 0
  {
    if total > 0 {
      var d := 2 * total;
      var m := 200 * completed + total;
      DivBelow(m, d, 101);
      if completed == total {
        DivExact(m, d, 100, total);
      }
      if completed == 0 {
        DivExact(m, d, 0, total);
      }
    }
  }

  lemma DivBelow(m: nat, d: nat, k: nat)
    requires d > 0 && m < k * d
    ensures m / d < k
  {
    if m / d >= k {
      MulMonotone(d, k, m / d);
    }
  }

  lemma DivExact(m: nat, d: nat, q: nat, r: nat)
    requires r < d && m == d * q + r
    ensures m / d == q
  {
    var k := m / d;
    assert m == d * k + m % d;
    if k > q {
      assert d * (q + 1) == d * q + d;
      MulMonotone(d, q + 1, k);
    }
    if k < q {
      assert d * (k + 1) == d * k + d;
      MulMonotone(d, k + 1, q);
    }
  }

  lemma MulMonotone(d: nat, a: int, b: int)
    requires a <= b
    ensures d * a <= d * b
  {
  }

  // ---------------------------------------------------------------------
  // selection

  predicate NoDuplicates(s: seq<string>) {
    forall i, j :: 0 <= i < j < |s| ==> s[i] != s[j]
  }

  /** `new Set(ids)`: the first occurrence of each id, in order. */
  function Dedup(s: seq<string>): (r: seq<string>)
    ensures NoDuplicates(r)
    ensures forall x :: x in r <==> x in s
    decreases |s|
  {
    if s == [] then []
    else
      var init := Dedup(s[..|s| - 1]);
      if s[|s| - 1] in init then init else init + [s[|s| - 1]]
  }

  /** `handleSelectStudent` (AdminPage.tsx:100-110) on the insertion-ordered set. */
  function Toggle(selected: seq<string>, id: string): (r: seq<string>)
    requires NoDuplicates(selected)
    ensures NoDuplicates(r)
    ensures id in r <==> id !in selected
    ensures forall x :: x != id ==> (x in r <==> x in selected)
  {
    if id in selected then Remove(selected, id) else selected + [id]
  }

  /** `set.delete(id)` on the insertion-ordered set. */
  function Remove(s: seq<string>, id: string): (r: seq<string>)
    requires NoDuplicates(s)
    ensures NoDuplicates(r)
    ensures forall x :: x in r <==> x in s && x != id
    decreases |s|
  {
    if s == [] then []
    else
      var init := Remove(s[..|s| - 1], id);
      var last := s[|s| - 1];
      assert last !in s[..|s| - 1];
      if last == id then init else init + [last]
  }

  /**
   * `handleSelectAll` (AdminPage.tsx:92-98): clear when the selection's size equals the
   * number of students, otherwise select every student's id.
   */
  function SelectAll(selected: seq<string>, students: seq<Student>): (r: seq<string>)
    ensures |selected| == |students| ==> r == []
    ensures |selected| != |students| ==> forall x :: x in r <==> x in Ids(students)
    ensures NoDuplicates(r)
  {
    if |selected| == |students| then [] else Dedup(Ids(students))
  }

  /**
   * Select-all compares sizes only. With a repeated student id the selection never reaches
   * the student count, so the button selects again instead of clearing.
   */
  lemma SelectAllWithRepeatedId(a: Student)
    ensures SelectAll(SelectAll([], [a, a]), [a, a]) == [a.id]
  {
    assert Ids([a, a]) == [a.id, a.id];
    assert Dedup([a.id, a.id]) == [a.id] by {
      assert [a.id, a.id][..1] == [a.id];
      assert Dedup([a.id]) == [a.id] by {
        assert [a.id][..0] == [];
      }
    }
  }

  /** With distinct ids, a second select-all clears what the first selected. */
  lemma SelectAllTwice(students: seq<Student>)
    requires |students| > 0
    requires NoDuplicates(Ids(students))
    ensures forall x :: x in SelectAll([], students) <==> x in Ids(students)
    ensures SelectAll(SelectAll([], students), students) == []
  {
    DedupDistinct(Ids(students));
  }

  lemma {:induction false} DedupDistinct(s: seq<string>)
    requires NoDuplicates(s)
    ensures Dedup(s) == s
    decreases |s|
  {
    if s != [] {
      var init := s[..|s| - 1];
      DedupDistinct(init);
      assert s == init + [s[|s| - 1]];
    }
  }

  // ---------------------------------------------------------------------
  // bulk send

  /** The history entry of one mock delivery to a parent (AdminPage.tsx:147-167). */
  function ParentEntry(student: Student, report: MonthlyReport, ok: bool, sentAt: string): (h: SendHistory)
    ensures h.studentId == student.id && h.reportId == report.id && h.recipientType == Some(Parent)
    ensures h.recipientName == if Kakao.Truthy(student.parentName) then student.parentName.value else "학부모"
    ensures ok ==> h.status == Success && h.errorMessage.None?
    ensures !ok ==> h.status == Failed && h.errorMessage == Some("전송 실패 (목업)")
  {
    SendHistory(None, student.id, student.name, report.id,
                if Kakao.Truthy(student.parentName) then student.parentName.value else "학부모",
                Some(Parent), sentAt, if ok then Success else Failed,
                if ok then None else Some("전송 실패 (목업)"))
  }

  datatype Tally = Tally(entries: seq<SendHistory>, success: nat, failed: nat)

  function FindStudent(students: seq<Student>, id: string): Option<Student> {
    Find(students, (s: Student) => s.id == id)
  }

  /** Whether an id names a known student with a report for the month. */
  predicate Deliverable(id: string, students: seq<Student>, reports: seq<MonthlyReport>, yearMonth: string) {
    FindStudent(students, id).Some? && GetStudentReport(reports, id, yearMonth).Some?
  }

  /** One id's contribution: a failure without a history entry, or a delivery by the i-th draw. */
  function TallyStep(prev: Tally, id: string, i: nat, students: seq<Student>, reports: seq<MonthlyReport>,
                     yearMonth: string, draws: nat -> bool, sentAt: string): (t: Tally)
    ensures t.success + t.failed == prev.success + prev.failed + 1
    ensures |t.entries| >= |prev.entries| && t.entries[..|prev.entries|] == prev.entries
    ensures !Deliverable(id, students, reports, yearMonth) ==> t.entries == prev.entries && t.success == prev.success
    ensures Deliverable(id, students, reports, yearMonth) ==>
              |t.entries| == |prev.entries| + 1 && (t.success == prev.success + 1 <==> draws(i))
  {
    var student := FindStudent(students, id);
    var report := GetStudentReport(reports, id, yearMonth);
    if student.None? || report.None? then prev.(failed := prev.failed + 1)
    else
      Tally(prev.entries + [ParentEntry(student.value, report.value, draws(i), sentAt)],
            if draws(i) then prev.success + 1 else prev.success,
            if draws(i) then prev.failed else prev.failed + 1)
  }

  /**
   * The tallies and history entries of the bulk send over `ids`: every id counts once, as a
   * success or a failure, and only deliverable ids leave a history entry.
   */
  function BulkTally(ids: seq<string>, students: seq<Student>, reports: seq<MonthlyReport>, yearMonth: string,
                     draws: nat -> bool, sentAt: string): (t: Tally)
    ensures t.success + t.failed == |ids|
    ensures t.success <= |t.entries| <= |ids|
    decreases |ids|
  {
    if ids == [] then Tally([], 0, 0)
    else
      var n := |ids| - 1;
      TallyStep(BulkTally(ids[..n], students, reports, yearMonth, draws, sentAt), ids[n], n,
                students, reports, yearMonth, draws, sentAt)
  }

  /** Without a deliverable id there is no history entry and no success. */
  lemma {:induction false} NothingDeliverable(ids: seq<string>, students: seq<Student>, reports: seq<MonthlyReport>,
                                              yearMonth: string, draws: nat -> bool, sentAt: string)
    requires forall i :: 0 <= i < |ids| ==> !Deliverable(ids[i], students, reports, yearMonth)
    ensures BulkTally(ids, students, reports, yearMonth, draws, sentAt).entries == []
    ensures BulkTally(ids, students, reports, yearMonth, draws, sentAt).success == 0
    decreases |ids|
  {
    if ids != [] {
      var n := |ids| - 1;
      var init := ids[..n];
      forall i | 0 <= i < |init|
        ensures !Deliverable(init[i], students, reports, yearMonth)
      {
        assert init[i] == ids[i];
      }
      NothingDeliverable(init, students, reports, yearMonth, draws, sentAt);
      var prev := BulkTally(init, students, reports, yearMonth, draws, sentAt);
      assert BulkTally(ids, students, reports, yearMonth, draws, sentAt) ==
             TallyStep(prev, ids[n], n, students, reports, yearMonth, draws, sentAt);
      assert !Deliverable(ids[n], students, reports, yearMonth);
    }
  }

  /** When every id is deliverable, each leaves exactly one history entry. */
  lemma {:induction false} AllDeliverable(ids: seq<string>, students: seq<Student>, reports: seq<MonthlyReport>,
                                          yearMonth: string, draws: nat -> bool, sentAt: string)
    requires forall i :: 0 <= i < |ids| ==> Deliverable(ids[i], students, reports, yearMonth)
    ensures |BulkTally(ids, students, reports, yearMonth, draws, sentAt).entries| == |ids|
    decreases |ids|
  {
    if ids != [] {
      var n := |ids| - 1;
      var init := ids[..n];
      forall i | 0 <= i < |init|
        ensures Deliverable(init[i], students, reports, yearMonth)
      {
        assert init[i] == ids[i];
      }
      AllDeliverable(init, students, reports, yearMonth, draws, sentAt);
      var prev := BulkTally(init, students, reports, yearMonth, draws, sentAt);
      assert BulkTally(ids, students, reports, yearMonth, draws, sentAt) ==
             TallyStep(prev, ids[n], n, students, reports, yearMonth, draws, sentAt);
      assert Deliverable(ids[n], students, reports, yearMonth);
    }
  }

  // ---------------------------------------------------------------------
  // score editor

  /** The placeholder row for a subject with no score yet. */
  function DefaultScore(subject: string, now: string): SubjectScore {
    SubjectScore(subject, 0, "", "", Some(""), Some(C), now)
  }

  /** `openEditModal`'s rows (AdminPage.tsx:177-193): one per subject, in subject order. */
  function EditRows(student: Student, report: Option<MonthlyReport>, now: string): (rows: seq<SubjectScore>)
    ensures |rows| == |student.subjects|
    ensures forall i :: 0 <= i < |rows| ==> rows[i].subject == student.subjects[i]
    ensures forall i :: 0 <= i < |rows| ==>
              rows[i] == match (if report.None? then None
                                else Find(report.value.scores, (s: SubjectScore) => s.subject == student.subjects[i]))
                         case Some(e) => e
                         case None => DefaultScore(student.subjects[i], now)
  {
    seq(|student.subjects|, i requires 0 <= i < |student.subjects| =>
      var subject := student.subjects[i];
      var existing := if report.None? then None else Find(report.value.scores, (s: SubjectScore) => s.subject == subject);
      match existing
      case Some(e) => e
      case None => DefaultScore(subject, now))
  }

  /** With no report every row is the placeholder: score 0, difficulty C. */
  lemma EditRowsWithoutReport(student: Student, now: string, i: nat)
    requires i < |student.subjects|
    ensures EditRows(student, None, now)[i].score == 0
    ensures EditRows(student, None, now)[i].difficulty == Some(C)
  {
  }

  /** One field edit of `handleScoreChange`. */
  datatype Edit = SetScore(score: int) | SetDifficulty(grade: Grade) | SetComment(comment: string)

  function ApplyEdit(s: SubjectScore, e: Edit): SubjectScore {
    match e
    case SetScore(v) => s.(score := v)
    case SetDifficulty(g) => s.(difficulty := Some(g))
    case SetComment(c) => s.(comment := Some(c))
  }

  /** `handleScoreChange` (AdminPage.tsx:195-199): the edit applies to the rows of that subject only. */
  function ChangeScore(rows: seq<SubjectScore>, subject: string, e: Edit): (r: seq<SubjectScore>)
    ensures |r| == |rows|
    ensures forall i :: 0 <= i < |rows| ==> r[i].subject == rows[i].subject
    ensures forall i :: 0 <= i < |rows| && rows[i].subject != subject ==> r[i] == rows[i]
    ensures forall i :: 0 <= i < |rows| && rows[i].subject == subject ==> r[i] == ApplyEdit(rows[i], e)
  {
    seq(|rows|, i requires 0 <= i < |rows| => if rows[i].subject == subject then ApplyEdit(rows[i], e) else rows[i])
  }

  /** The reports after a successful save (AdminPage.tsx:213-236). */
  function SavedReports(reports: seq<MonthlyReport>, student: Student, yearMonth: string,
                        rows: seq<SubjectScore>, now: string): seq<MonthlyReport>
  {
    match GetStudentReport(reports, student.id, yearMonth)
    case Some(existing) =>
      seq(|reports|, i requires 0 <= i < |reports| =>
        if reports[i].id == existing.id then reports[i].(scores := rows, updatedAt := now) else reports[i])
    case None =>
      reports + [MonthlyReport(student.id + "-" + yearMonth, student.id, student.name, yearMonth, rows,
                               None, Draft, now, now)]
  }

  /**
   * After a successful save the student's report for the month carries exactly the edited
   * rows; a new report is a draft with id `studentId-yearMonth` and reports keep their count
   * or grow by that one.
   */
  lemma SavedScoresVisible(reports: seq<MonthlyReport>, student: Student, yearMonth: string,
                           rows: seq<SubjectScore>, now: string)
    ensures var after := SavedReports(reports, student, yearMonth, rows, now);
            GetStudentReport(after, student.id, yearMonth).Some? &&
            GetStudentReport(after, student.id, yearMonth).value.scores == rows
    ensures GetStudentReport(reports, student.id, yearMonth).None? ==>
              var after := SavedReports(reports, student, yearMonth, rows, now);
              |after| == |reports| + 1 && after[..|reports|] == reports &&
              after[|reports|].id == student.id + "-" + yearMonth && after[|reports|].status == Draft
    ensures GetStudentReport(reports, student.id, yearMonth).Some? ==>
              |SavedReports(reports, student, yearMonth, rows, now)| == |reports|
  {
    var after := SavedReports(reports, student, yearMonth, rows, now);
    var p := (r: MonthlyReport) => r.studentId == student.id && r.yearMonth == yearMonth;
    match GetStudentReport(reports, student.id, yearMonth)
    case Some(existing) =>
      var i :| 0 <= i < |reports| && reports[i] == existing && p(existing) &&
               forall j :: 0 <= j < i ==> !p(reports[j]);
      assert p(after[i]) && after[i].scores == rows;
      forall j | 0 <= j < i
        ensures !p(after[j])
      {
      }
      FindFirst(after, p, i);
    case None =>
      var k := |reports|;
      assert p(after[k]);
      forall j | 0 <= j < k
        ensures !p(after[j])
      {
        assert after[j] == reports[j];
      }
      FindFirst(after, p, k);
  }

  /** `find` returns the element at the first satisfying index. */
  lemma FindFirst<T>(s: seq<T>, p: T -> bool, i: nat)
    requires i < |s| && p(s[i])
    requires forall j :: 0 <= j < i ==> !p(s[j])
    ensures Find(s, p) == Some(s[i])
  {
    var r := Find(s, p);
    var k :| 0 <= k < |s| && s[k] == r.value && p(s[k]) && forall j :: 0 <= j < k ==> !p(s[j]);
    if k < i {
    } else if k > i {
    }
  }

  /**
   * The loop of `handleBulkSend` (AdminPage.tsx:129-169): visit the ids in order, count each
   * as a success or a failure, and append a history entry for each deliverable one.
   */
  method DeliverAll(store: ReportStore.Store, ids: seq<string>, students: seq<Student>,
                    reports: seq<MonthlyReport>, yearMonth: string, draws: nat -> bool, sentAt: string)
    returns (success: nat, failed: nat)
    modifies store
    ensures var t := BulkTally(ids, students, reports, yearMonth, draws, sentAt);
            success == t.success && failed == t.failed &&
            store.State() == old(store.State()).(sendHistories := old(store.sendHistories) + t.entries)
  {
    ghost var s0 := store.State();
    var t := Tally([], 0, 0);
    for i := 0 to |ids|
      invariant t == BulkTally(ids[..i], students, reports, yearMonth, draws, sentAt)
      invariant store.State() == s0.(sendHistories := s0.sendHistories + t.entries)
    {
      TallyUnfold(ids, i, students, reports, yearMonth, draws, sentAt);
      t := DeliverOne(store, s0, t, ids[i], i, students, reports, yearMonth, draws, sentAt);
    }
    assert ids[..|ids|] == ids;
    success, failed := t.success, t.failed;
  }

  lemma TallyUnfold(ids: seq<string>, i: nat, students: seq<Student>, reports: seq<MonthlyReport>,
                    yearMonth: string, draws: nat -> bool, sentAt: string)
    requires i < |ids|
    ensures BulkTally(ids[..i + 1], students, reports, yearMonth, draws, sentAt) ==
            TallyStep(BulkTally(ids[..i], students, reports, yearMonth, draws, sentAt), ids[i], i,
                      students, reports, yearMonth, draws, sentAt)
  {
    assert ids[..i + 1][..i] == ids[..i];
  }

  /** One iteration of the loop: look the id up, draw, count, and record the delivery. */
  method DeliverOne(store: ReportStore.Store, ghost s0: ReportStore.StoreState, prev: Tally, id: string,
                    i: nat, students: seq<Student>, reports: seq<MonthlyReport>, yearMonth: string,
                    draws: nat -> bool, sentAt: string)
    returns (next: Tally)
    requires store.State() == s0.(sendHistories := s0.sendHistories + prev.entries)
    modifies store
    ensures next == TallyStep(prev, id, i, students, reports, yearMonth, draws, sentAt)
    ensures store.State() == s0.(sendHistories := s0.sendHistories + next.entries)
  {
    var student := FindStudent(students, id);
    var report := GetStudentReport(reports, id, yearMonth);
    if student.None? || report.None? {
      next := prev.(failed := prev.failed + 1);
    } else {
      var entry := ParentEntry(student.value, report.value, draws(i), sentAt);
      store.AddSendHistory(entry);
      if draws(i) {
        next := Tally(prev.entries + [entry], prev.success + 1, prev.failed);
      } else {
        next := Tally(prev.entries + [entry], prev.success, prev.failed + 1);
      }
      assert s0.sendHistories + prev.entries + [entry] == s0.sendHistories + next.entries;
    }
  }

  // ---------------------------------------------------------------------
  // the screen

  class AdminScreen {
    var selected: seq<string>
    var sending: bool
    var sendResult: Option<(nat, nat)>
    var editingStudent: Option<Student>
    var editScores: seq<SubjectScore>
    const store: ReportStore.Store

    /** The selection is a set: no id twice. */
    predicate Valid()
      reads this
    {
      NoDuplicates(selected)
    }

    constructor(store: ReportStore.Store)
      ensures Valid() && selected == [] && !sending && sendResult.None? && editingStudent.None?
      ensures editScores == [] && this.store == store
    {
      selected := [];
      sending := false;
      sendResult := None;
      editingStudent := None;
      editScores := [];
      this.store := store;
    }

    method HandleSelectStudent(id: string)
      requires Valid()
      modifies this
      ensures Valid() && selected == Toggle(old(selected), id)
      ensures sending == old(sending) && sendResult == old(sendResult)
      ensures editingStudent == old(editingStudent) && editScores == old(editScores)
    {
      selected := Toggle(selected, id);
    }

    method HandleSelectAll()
      requires Valid()
      modifies this
      ensures Valid() && selected == SelectAll(old(selected), store.students)
      ensures sending == old(sending) && sendResult == old(sendResult)
      ensures editingStudent == old(editingStudent) && editScores == old(editScores)
    {
      selected := SelectAll(selected, store.students);
    }

    /**
     * `handleBulkSend` (AdminPage.tsx:120-174): one history entry per deliverable id, the
     * two tallies in `sendResult`, and the selection cleared; an empty selection only alerts.
     */
    method HandleBulkSend(draws: nat -> bool, sentAt: string) returns (alerted: bool)
      requires Valid()
      modifies this, store
      ensures Valid()
      ensures alerted <==> old(selected) == []
      ensures alerted ==> selected == old(selected) && sendResult == old(sendResult) &&
                          sending == old(sending) && store.State() == old(store.State())
      ensures !alerted ==>
        var t := BulkTally(old(selected), old(store.students), old(store.reports),
                           old(store.currentYearMonth), draws, sentAt);
        && sendResult == Some((t.success, t.failed)) && !sending && selected == []
        && store.State() == old(store.State()).(sendHistories := old(store.sendHistories) + t.entries)
      ensures editingStudent == old(editingStudent) && editScores == old(editScores)
    {
      if |selected| == 0 {
        return true;
      }
      alerted := false;
      sending := true;
      sendResult := None;
      var success, failed := DeliverAll(store, selected, store.students, store.reports, store.currentYearMonth,
                                        draws, sentAt);
      sendResult := Some((success, failed));
      sending := false;
      selected := [];
    }

    /** `openEditModal` (AdminPage.tsx:177-193). */
    method OpenEditModal(student: Student, now: string)
      requires Valid()
      modifies this
      ensures Valid() && editingStudent == Some(student)
      ensures editScores == EditRows(student, GetStudentReport(store.reports, student.id, store.currentYearMonth), now)
      ensures selected == old(selected) && sending == old(sending) && sendResult == old(sendResult)
    {
      editScores := EditRows(student, GetStudentReport(store.reports, student.id, store.currentYearMonth), now);
      editingStudent := Some(student);
    }

    method HandleScoreChange(subject: string, e: Edit)
      requires Valid()
      modifies this
      ensures Valid() && editScores == ChangeScore(old(editScores), subject, e)
      ensures editingStudent == old(editingStudent)
      ensures selected == old(selected) && sending == old(sending) && sendResult == old(sendResult)
    {
      editScores := ChangeScore(editScores, subject, e);
    }

    /**
     * `handleSaveScores` (AdminPage.tsx:201-244); `success` is the answer of `updateScores`.
     * `alerted` is the failure alert.
     */
    method HandleSaveScores(success: bool, now: string) returns (alerted: bool)
      requires Valid()
      modifies this, store
      ensures Valid()
      ensures alerted <==> old(editingStudent).Some? && !success
      ensures old(editingStudent).None? || !success ==>
                editingStudent == old(editingStudent) && store.State() == old(store.State())
      ensures old(editingStudent).Some? && success ==>
                && editingStudent.None?
                && store.State() == old(store.State()).(reports :=
                     SavedReports(old(store.reports), old(editingStudent).value, old(store.currentYearMonth),
                                  old(editScores), now))
      ensures editScores == old(editScores)
      ensures selected == old(selected) && sending == old(sending) && sendResult == old(sendResult)
    {
      if editingStudent.None? {
        return false;
      }
      if success {
        store.SetReports(SavedReports(store.reports, editingStudent.value, store.currentYearMonth, editScores, now));
        editingStudent := None;
        alerted := false;
      } else {
        alerted := true;
      }
    }
  }
}
