/**
 * The exam schedule screen of src/pages/ExamSchedulePage.tsx: the three
 * tabs (today, absent or unscheduled, upcoming), the selection set and its
 * handlers, and the date and absence updates. The date `today` is a
 * parameter (`toISOString().split('T')[0]` in the source), and each call to
 * the student service is a boolean outcome supplied by the caller.
 */
module ExamSchedulePage {
  import opened Wrappers
  import opened Text
  import opened Seqs
  import opened Types
  import ReportStore

  // ---------------------------------------------------------------------
  // the three tabs

  predicate Active(s: Student) {
    s.status != Some("inactive")
  }

  /** `s.examDate === today && s.status !== 'inactive'` */
  predicate IsToday(s: Student, today: string) {
    s.examDate == Some(today) && Active(s)
  }

  /** Active, and the exam date is missing, empty, or before today. */
  predicate IsAbsent(s: Student, today: string) {
    Active(s) && (s.examDate.None? || s.examDate.value == "" || Less(s.examDate.value, today))
  }

  /** Active, with a non-empty exam date after today. */
  predicate IsUpcoming(s: Student, today: string) {
    Active(s) && s.examDate.Some? && s.examDate.value != "" && Less(today, s.examDate.value)
  }

  function TodayStudents(students: seq<Student>, today: string): seq<Student> {
    Filter(students, s => IsToday(s, today))
  }

  function AbsentStudents(students: seq<Student>, today: string): seq<Student> {
    Filter(students, s => IsAbsent(s, today))
  }

  function UpcomingStudents(students: seq<Student>, today: string): seq<Student> {
    Filter(students, s => IsUpcoming(s, today))
  }

  /** Each active student falls in exactly one tab, and only active students appear. */
  lemma OneTab(s: Student, today: string)
    requires today != ""
    ensures Active(s) ==> IsToday(s, today) || IsAbsent(s, today) || IsUpcoming(s, today)
    ensures IsToday(s, today) ==> !IsAbsent(s, today) && !IsUpcoming(s, today)
    ensures IsAbsent(s, today) ==> !IsUpcoming(s, today)
    ensures IsToday(s, today) || IsAbsent(s, today) || IsUpcoming(s, today) ==> Active(s)
  {
    if s.examDate.Some? {
      LessTrichotomy(s.examDate.value, today);
    }
  }

  /**
   * For a real date `today` (the source's is never empty), the three tabs are pairwise
   * disjoint and together hold the active students, each as often as it occurs.
   */
  lemma TabsPartition(students: seq<Student>, today: string)
    requires today != ""
    ensures multiset(TodayStudents(students, today)) + multiset(AbsentStudents(students, today))
            + multiset(UpcomingStudents(students, today)) == multiset(Filter(students, Active))
    ensures forall x :: x in TodayStudents(students, today) ==>
              x !in AbsentStudents(students, today) && x !in UpcomingStudents(students, today)
    ensures forall x :: x in AbsentStudents(students, today) ==> x !in UpcomingStudents(students, today)
  {
    var p := Active;
    var a := (s: Student) => IsToday(s, today);
    var b := (s: Student) => IsAbsent(s, today);
    var c := (s: Student) => IsUpcoming(s, today);
    forall i | 0 <= i < |students|
      ensures p(students[i]) ==> a(students[i]) || b(students[i]) || c(students[i])
      ensures a(students[i]) ==> p(students[i]) && !b(students[i]) && !c(students[i])
      ensures b(students[i]) ==> p(students[i]) && !c(students[i])
      ensures c(students[i]) ==> p(students[i])
    {
      OneTab(students[i], today);
    }
    FilterPartition3(students, p, a, b, c);
    forall x | x in TodayStudents(students, today)
      ensures x !in AbsentStudents(students, today) && x !in UpcomingStudents(students, today)
    {
      OneTab(x, today);
    }
    forall x | x in AbsentStudents(students, today)
      ensures x !in UpcomingStudents(students, today)
    {
      OneTab(x, today);
    }
  }

  /** The boundary case: with an empty `today` a student with an empty date shows in two tabs. */
  lemma EmptyTodayOverlaps(s: Student)
    requires Active(s) && s.examDate == Some("")
    ensures IsToday(s, "") && IsAbsent(s, "")
  {
  }

  // ---------------------------------------------------------------------
  // selection

  function ToSet<T(!new)>(s: seq<T>): (r: set<T>)
    ensures forall x :: x in r <==> x in s
  {
    set x | x in s
  }

  /** `handleSelectStudent`: flip one id. */
  function Toggle(selected: set<string>, id: string): set<string> {
    if id in selected then selected - {id} else selected + {id}
  }

  /** The toggled id changes membership, every other id keeps it, and toggling again undoes it. */
  lemma ToggleEffect(selected: set<string>, id: string, other: string)
    ensures id in Toggle(selected, id) <==> id !in selected
    ensures other != id ==> (other in Toggle(selected, id) <==> other in selected)
    ensures Toggle(Toggle(selected, id), id) == selected
  {
  }

  predicate AllSelected(ids: seq<string>, selected: set<string>) {
    forall i :: 0 <= i < |ids| ==> ids[i] in selected
  }

  /** `handleSelectAll`: deselect the list if all of it is selected, else select all of it. */
  function SelectAll(selected: set<string>, ids: seq<string>): set<string> {
    if AllSelected(ids, selected) then selected - ToSet(ids) else selected + ToSet(ids)
  }

  /** Ids outside the list keep their membership; the listed ids end all out or all in. */
  lemma SelectAllEffect(selected: set<string>, ids: seq<string>, x: string)
    ensures x !in ids ==> (x in SelectAll(selected, ids) <==> x in selected)
    ensures x in ids && AllSelected(ids, selected) ==> x !in SelectAll(selected, ids)
    ensures x in ids && !AllSelected(ids, selected) ==> x in SelectAll(selected, ids)
    ensures !AllSelected(ids, selected) ==> AllSelected(ids, SelectAll(selected, ids))
  {
  }

  // ---------------------------------------------------------------------
  // date and absence updates

  /** `value || undefined` for a string. */
  function OrUndefined(v: string): (r: Option<string>)
    ensures r.None? <==> v == ""
    ensures r.Some? ==> r.value == v
  {
    if v == "" then None else Some(v)
  }

  /** The reason saved: the custom text when `기타` ("other") is chosen, else the choice. */
  function AbsenceReason(chosen: string, custom: string): (r: Option<string>)
    ensures chosen == "기타" ==> r == OrUndefined(custom)
    ensures chosen != "기타" ==> r == OrUndefined(chosen)
  {
    OrUndefined(if chosen == "기타" then custom else chosen)
  }

  /** The students with every selected one given the exam date `date`. */
  function WithBulkDate(students: seq<Student>, selected: set<string>, date: string): (r: seq<Student>)
    ensures |r| == |students|
    ensures forall i :: 0 <= i < |students| && students[i].id in selected ==>
              r[i] == students[i].(examDate := Some(date))
    ensures forall i :: 0 <= i < |students| && students[i].id !in selected ==> r[i] == students[i]
  {
    seq(|students|, i requires 0 <= i < |students| =>
      if students[i].id in selected then students[i].(examDate := Some(date)) else students[i])
  }

  /** The students with the ones carrying `id` changed by the absence form. */
  function WithAbsence(students: seq<Student>, id: string, date: Option<string>, reason: Option<string>)
    : (r: seq<Student>)
    ensures |r| == |students|
    ensures forall i :: 0 <= i < |students| && students[i].id == id ==>
              r[i] == students[i].(examDate := date, absenceReason := reason)
    ensures forall i :: 0 <= i < |students| && students[i].id != id ==> r[i] == students[i]
  {
    seq(|students|, i requires 0 <= i < |students| =>
      if students[i].id == id then students[i].(examDate := date, absenceReason := reason) else students[i])
  }

  /** Setting today's date on a selection moves every selected active student to the today tab. */
  lemma BulkTodayLandsInToday(students: seq<Student>, selected: set<string>, today: string, i: nat)
    requires i < |students| && students[i].id in selected && Active(students[i])
    ensures WithBulkDate(students, selected, today)[i] in TodayStudents(WithBulkDate(students, selected, today), today)
  {
  }

  /** A quick date set is a one-student bulk update. */
  lemma QuickIsSingleBulk(students: seq<Student>, id: string, date: string)
    ensures WithBulkDate(students, {id}, date) ==
            seq(|students|, i requires 0 <= i < |students| =>
              if students[i].id == id then students[i].(examDate := Some(date)) else students[i])
  {
  }

  class ExamScreen {
    var selected: set<string>
    var absenceModal: Option<Student>
    var newExamDate: string
    var absenceReason: string
    var customReason: string
    var bulkDateModal: bool
    var bulkDate: string
    const store: ReportStore.Store

    constructor(store: ReportStore.Store)
      ensures selected == {} && absenceModal.None? && !bulkDateModal && bulkDate == ""
      ensures newExamDate == "" && absenceReason == "" && customReason == "" && this.store == store
    {
      selected := {};
      absenceModal := None;
      newExamDate := "";
      absenceReason := "";
      customReason := "";
      bulkDateModal := false;
      bulkDate := "";
      this.store := store;
    }

    /** `handleSelectStudent` (ExamSchedulePage.tsx:77-87). */
    method HandleSelectStudent(id: string)
      modifies this
      ensures selected == Toggle(old(selected), id)
      ensures absenceModal == old(absenceModal) && bulkDate == old(bulkDate) && bulkDateModal == old(bulkDateModal)
      ensures newExamDate == old(newExamDate) && absenceReason == old(absenceReason) && customReason == old(customReason)
    {
      var newSet := selected;
      if id in newSet {
        newSet := newSet - {id};
      } else {
        newSet := newSet + {id};
      }
      selected := newSet;
    }

    /** `handleSelectAll` (ExamSchedulePage.tsx:89-102). */
    method HandleSelectAll(list: seq<Student>)
      modifies this
      ensures selected == SelectAll(old(selected), Ids(list))
      ensures absenceModal == old(absenceModal) && bulkDate == old(bulkDate) && bulkDateModal == old(bulkDateModal)
      ensures newExamDate == old(newExamDate) && absenceReason == old(absenceReason) && customReason == old(customReason)
    {
      var allIds := Ids(list);
      var allSelected := true;
      for i := 0 to |allIds|
        invariant allSelected <==> AllSelected(allIds[..i], selected)
      {
        assert allIds[..i + 1] == allIds[..i] + [allIds[i]];
        if allIds[i] !in selected {
          allSelected := false;
        }
      }
      assert allIds[..|allIds|] == allIds;
      if allSelected {
        var newSet := selected;
        for i := 0 to |allIds|
          invariant newSet == selected - ToSet(allIds[..i])
        {
          assert allIds[..i + 1] == allIds[..i] + [allIds[i]];
          newSet := newSet - {allIds[i]};
        }
        selected := newSet;
      } else {
        selected := selected + ToSet(allIds);
      }
    }

    /** `openAbsenceModal` (ExamSchedulePage.tsx:104-109). */
    method OpenAbsenceModal(student: Student)
      modifies this
      ensures absenceModal == Some(student) && newExamDate == "" && absenceReason == "" && customReason == ""
      ensures selected == old(selected) && bulkDate == old(bulkDate) && bulkDateModal == old(bulkDateModal)
    {
      absenceModal := Some(student);
      newExamDate := "";
      absenceReason := "";
      customReason := "";
    }

    /** `handleSaveAbsence` (ExamSchedulePage.tsx:111-133); `success` is the service's answer. */
    method HandleSaveAbsence(success: bool)
      modifies this, store
      ensures old(absenceModal).None? || !success ==>
                absenceModal == old(absenceModal) && store.State() == old(store.State())
      ensures old(absenceModal).Some? && success ==>
                && absenceModal.None?
                && store.State() == old(store.State()).(students :=
                     WithAbsence(old(store.students), old(absenceModal).value.id,
                                 OrUndefined(newExamDate), AbsenceReason(absenceReason, customReason)))
      ensures selected == old(selected) && bulkDate == old(bulkDate) && bulkDateModal == old(bulkDateModal)
      ensures newExamDate == old(newExamDate) && absenceReason == old(absenceReason) && customReason == old(customReason)
    {
      if absenceModal.None? {
        return;
      }
      var reason := if absenceReason == "기타" then customReason else absenceReason;
      if success {
        var id := absenceModal.value.id;
        store.SetStudents(WithAbsence(store.students, id, OrUndefined(newExamDate), OrUndefined(reason)));
        absenceModal := None;
      }
    }

    /**
     * `handleBulkDateChange` (ExamSchedulePage.tsx:135-155). `rejected` is the alert for an
     * empty selection or an empty date; `success` is the service's answer.
     */
    method HandleBulkDateChange(success: bool) returns (rejected: bool)
      modifies this, store
      ensures rejected <==> old(selected) == {} || old(bulkDate) == ""
      ensures rejected || !success ==>
                selected == old(selected) && bulkDate == old(bulkDate) && bulkDateModal == old(bulkDateModal) &&
                store.State() == old(store.State())
      ensures !rejected && success ==>
                && selected == {} && bulkDate == "" && !bulkDateModal
                && store.State() == old(store.State()).(students :=
                     WithBulkDate(old(store.students), old(selected), old(bulkDate)))
      ensures absenceModal == old(absenceModal)
      ensures newExamDate == old(newExamDate) && absenceReason == old(absenceReason) && customReason == old(customReason)
    {
      if |selected| == 0 || bulkDate == "" {
        return true;
      }
      rejected := false;
      if success {
        store.SetStudents(WithBulkDate(store.students, selected, bulkDate));
        selected := {};
        bulkDateModal := false;
        bulkDate := "";
      }
    }

    /** `handleQuickDateSet` (ExamSchedulePage.tsx:157-169). */
    method HandleQuickDateSet(id: string, date: string, success: bool)
      modifies store
      ensures !success ==> store.State() == old(store.State())
      ensures success ==> store.State() == old(store.State()).(students := WithBulkDate(old(store.students), {id}, date))
    {
      if success {
        store.SetStudents(WithBulkDate(store.students, {id}, date));
      }
    }
  }
}
