/**
 * The zustand store of src/stores/reportStore.ts: nine fields replaced
 * through setters, two append operations, a reset, the `YYYY-MM` month
 * key, and the subset of fields the persist middleware writes to
 * localStorage. The clock is a parameter: `year` and `month0` are
 * `getFullYear()` and the zero-based `getMonth()`.
 */
module ReportStore {
  import opened Wrappers
  import opened Text
  import opened Types
  import Kakao

  // ---------------------------------------------------------------------
  // the month key

  /** `String(month0 + 1).padStart(2, '0')` */
  function MonthText(month0: nat): string
    requires month0 < 12
  {
    PadStart(NatToString(month0 + 1), 2, '0')
  }

  /** `getCurrentYearMonth()` for a clock reading `year`, `month0` (reportStore.ts:39-42). */
  function GetCurrentYearMonth(year: nat, month0: nat): string
    requires month0 < 12
  {
    NatToString(year) + "-" + MonthText(month0)
  }

  lemma DigitsWithoutDash(s: string)
    requires AllDigits(s)
    ensures '-' !in s
  {
  }

  /** Two pieces joined by a dash: the first piece, the dash, then the second. */
  lemma DashJoinShape(y: string, m: string)
    ensures var k := y + "-" + m;
            |k| == |y| + 1 + |m| && k[..|y|] == y && k[|y|] == '-' && EndsWith(k, m)
  {
    var k := y + "-" + m;
    assert k[..|y|] == y;
    assert k[|k| - |m|..] == m;
  }

  /** Two digit strings joined by a dash split back into the two. */
  lemma DashJoinSplit(y: string, m: string)
    requires AllDigits(y) && AllDigits(m)
    ensures Split(y + "-" + m, '-') == [y, m]
  {
    DigitsWithoutDash(y);
    DigitsWithoutDash(m);
    assert y + "-" + m == y + ['-'] + m;
    SplitFront(y, '-', m);
    SplitNone(m, '-');
    assert [y] + [m] == [y, m];
  }

  /** The month part is two digits. */
  lemma MonthTextDigits(month0: nat)
    requires month0 < 12
    ensures |MonthText(month0)| == 2 && AllDigits(MonthText(month0))
  {
    var m := month0 + 1;
    var t := MonthText(month0);
    if m < 10 {
      assert NatToString(m) == [DigitChar(m)];
      assert t == ['0', DigitChar(m)];
    } else {
      assert NatToString(m) == NatToString(1) + [DigitChar(m % 10)];
      assert t == NatToString(m);
    }
  }

  /** The month part is two digits whose value is the one-based month. */
  lemma MonthTextValue(month0: nat)
    requires month0 < 12
    ensures |MonthText(month0)| == 2 && AllDigits(MonthText(month0))
    ensures ParseInt(MonthText(month0)) == Some(month0 + 1)
  {
    var m := month0 + 1;
    var t := MonthText(month0);
    MonthTextDigits(month0);
    NatToStringValue(m);
    if m < 10 {
      assert NatToString(m) == [DigitChar(m)];
      assert t == ['0', DigitChar(m)];
      assert t[..1] == ['0'];
      assert DigitsValue(t[..1]) == 0 by {
        assert t[..1][..0] == [];
      }
    } else {
      assert t == NatToString(m);
    }
    LeadingDigitsOfDigits(t);
  }

  /** The key is the year's numeral, a dash and the two-digit month. */
  lemma YearMonthShape(year: nat, month0: nat)
    requires month0 < 12
    ensures var ym := GetCurrentYearMonth(year, month0);
            |ym| == |NatToString(year)| + 3 && ym[..|NatToString(year)|] == NatToString(year) &&
            ym[|NatToString(year)|] == '-' && EndsWith(ym, MonthText(month0))
  {
    MonthTextDigits(month0);
    DashJoinShape(NatToString(year), MonthText(month0));
  }

  /** The key splits at its one dash into the year's numeral and the two-digit month. */
  lemma YearMonthSplit(year: nat, month0: nat)
    requires month0 < 12
    ensures Split(GetCurrentYearMonth(year, month0), '-') == [NatToString(year), MonthText(month0)]
  {
    MonthTextDigits(month0);
    DashJoinSplit(NatToString(year), MonthText(month0));
  }

  /**
   * The key splits at its one dash into the year's numeral and the two-digit month, which
   * reads back as the one-based month.
   */
  lemma YearMonthFields(year: nat, month0: nat)
    requires month0 < 12
    ensures Split(GetCurrentYearMonth(year, month0), '-') == [NatToString(year), MonthText(month0)]
    ensures Field(GetCurrentYearMonth(year, month0), '-', 1).Some?
    ensures ParseInt(Field(GetCurrentYearMonth(year, month0), '-', 1).value) == Some(month0 + 1)
  {
    YearMonthSplit(year, month0);
    MonthTextValue(month0);
    assert Field(GetCurrentYearMonth(year, month0), '-', 1) == Some(MonthText(month0));
  }

  // ---------------------------------------------------------------------
  // state

  datatype StoreState = StoreState(
    students: seq<Student>,
    selectedStudent: Option<Student>,
    currentReport: Option<PreviewReport>,
    reports: seq<MonthlyReport>,
    sendHistories: seq<SendHistory>,
    kakaoFriends: seq<KakaoFriend>,
    isKakaoLoggedIn: bool,
    kakaoAccessToken: Option<string>,
    currentYearMonth: string)

  /** The initial state, and the state `reset()` returns to (reportStore.ts:48-73, 77-87). */
  function Initial(yearMonth: string): (s: StoreState)
    ensures s.students == [] && s.reports == [] && s.sendHistories == [] && s.kakaoFriends == []
    ensures s.selectedStudent.None? && s.currentReport.None? && s.kakaoAccessToken.None?
    ensures !s.isKakaoLoggedIn && s.currentYearMonth == yearMonth
  {
    StoreState([], None, None, [], [], [], false, None, yearMonth)
  }

  /** `addReport(report)`: the report goes to the end, nothing else changes (reportStore.ts:58). */
  function WithReport(s: StoreState, report: MonthlyReport): (t: StoreState)
    ensures |t.reports| == |s.reports| + 1 && t.reports[..|s.reports|] == s.reports
    ensures t.reports[|s.reports|] == report
    ensures t.(reports := s.reports) == s
  {
    s.(reports := s.reports + [report])
  }

  /** `addSendHistory(history)`: appended at the end, nothing else changes (reportStore.ts:62). */
  function WithHistory(s: StoreState, history: SendHistory): (t: StoreState)
    ensures |t.sendHistories| == |s.sendHistories| + 1 && t.sendHistories[..|s.sendHistories|] == s.sendHistories
    ensures t.sendHistories[|s.sendHistories|] == history
    ensures t.(sendHistories := s.sendHistories) == s
  {
    s.(sendHistories := s.sendHistories + [history])
  }

  /** `setKakaoAccessToken(token)`: the login flag follows the token's truthiness (reportStore.ts:70). */
  function WithKakaoToken(s: StoreState, token: Option<string>): (t: StoreState)
    ensures t.kakaoAccessToken == token
    ensures t.isKakaoLoggedIn <==> token.Some? && token.value != ""
    ensures t.(kakaoAccessToken := s.kakaoAccessToken, isKakaoLoggedIn := s.isKakaoLoggedIn) == s
  {
    s.(kakaoAccessToken := token, isKakaoLoggedIn := Kakao.Truthy(token))
  }

  /** The fields `partialize` selects for localStorage (reportStore.ts:91-100). */
  datatype Persisted = Persisted(
    currentReport: Option<PreviewReport>,
    reports: seq<MonthlyReport>,
    sendHistories: seq<SendHistory>,
    currentYearMonth: string,
    selectedStudent: Option<Student>,
    kakaoAccessToken: Option<string>,
    isKakaoLoggedIn: bool)

  function Partialize(s: StoreState): Persisted {
    Persisted(s.currentReport, s.reports, s.sendHistories, s.currentYearMonth,
              s.selectedStudent, s.kakaoAccessToken, s.isKakaoLoggedIn)
  }

  /** Rehydration: the persisted fields laid over the freshly created state `blank` (zustand's shallow merge). */
  function Rehydrate(p: Persisted, blank: StoreState): StoreState {
    blank.(currentReport := p.currentReport, reports := p.reports, sendHistories := p.sendHistories,
           currentYearMonth := p.currentYearMonth, selectedStudent := p.selectedStudent,
           kakaoAccessToken := p.kakaoAccessToken, isKakaoLoggedIn := p.isKakaoLoggedIn)
  }

  /**
   * A reload restores the seven persisted fields exactly; the student list and the friend list
   * come from the blank state instead.
   */
  lemma ReloadRestoresPersisted(s: StoreState, blank: StoreState)
    ensures var r := Rehydrate(Partialize(s), blank);
            Partialize(r) == Partialize(s) && r.students == blank.students && r.kakaoFriends == blank.kakaoFriends
    ensures Rehydrate(Partialize(s), blank) == s <==>
            blank.students == s.students && blank.kakaoFriends == s.kakaoFriends
  {
  }

  /** Students and Kakao friends never reach storage. */
  lemma NotPersisted(s: StoreState, students: seq<Student>, friends: seq<KakaoFriend>)
    ensures Partialize(s.(students := students, kakaoFriends := friends)) == Partialize(s)
  {
  }

  /** Two appends keep both entries in order after what was there. */
  lemma AppendOrder(s: StoreState, a: MonthlyReport, b: MonthlyReport)
    ensures WithReport(WithReport(s, a), b).reports == s.reports + [a, b]
  {
  }

  /** The store object; `State()` is a snapshot of its fields. */
  class Store {
    var students: seq<Student>
    var selectedStudent: Option<Student>
    var currentReport: Option<PreviewReport>
    var reports: seq<MonthlyReport>
    var sendHistories: seq<SendHistory>
    var kakaoFriends: seq<KakaoFriend>
    var isKakaoLoggedIn: bool
    var kakaoAccessToken: Option<string>
    var currentYearMonth: string

    function State(): StoreState
      reads this
    {
      StoreState(students, selectedStudent, currentReport, reports, sendHistories, kakaoFriends,
                 isKakaoLoggedIn, kakaoAccessToken, currentYearMonth)
    }

    constructor(year: nat, month0: nat)
      requires month0 < 12
      ensures State() == Initial(GetCurrentYearMonth(year, month0))
    {
      students := [];
      selectedStudent := None;
      currentReport := None;
      reports := [];
      sendHistories := [];
      kakaoFriends := [];
      isKakaoLoggedIn := false;
      kakaoAccessToken := None;
      currentYearMonth := GetCurrentYearMonth(year, month0);
    }

    method SetStudents(s: seq<Student>)
      modifies this
      ensures State() == old(State()).(students := s)
    {
      students := s;
    }

    method SetSelectedStudent(student: Option<Student>)
      modifies this
      ensures State() == old(State()).(selectedStudent := student)
    {
      selectedStudent := student;
    }

    method SetCurrentReport(report: Option<PreviewReport>)
      modifies this
      ensures State() == old(State()).(currentReport := report)
    {
      currentReport := report;
    }

    method SetReports(r: seq<MonthlyReport>)
      modifies this
      ensures State() == old(State()).(reports := r)
    {
      reports := r;
    }

    method AddReport(report: MonthlyReport)
      modifies this
      ensures State() == WithReport(old(State()), report)
    {
      reports := reports + [report];
    }

    method AddSendHistory(history: SendHistory)
      modifies this
      ensures State() == WithHistory(old(State()), history)
    {
      sendHistories := sendHistories + [history];
    }

    method SetKakaoFriends(friends: seq<KakaoFriend>)
      modifies this
      ensures State() == old(State()).(kakaoFriends := friends)
    {
      kakaoFriends := friends;
    }

    method SetKakaoLoggedIn(loggedIn: bool)
      modifies this
      ensures State() == old(State()).(isKakaoLoggedIn := loggedIn)
    {
      isKakaoLoggedIn := loggedIn;
    }

    method SetKakaoAccessToken(token: Option<string>)
      modifies this
      ensures State() == WithKakaoToken(old(State()), token)
    {
      kakaoAccessToken := token;
      isKakaoLoggedIn := token.Some? && token.value != "";
    }

    method SetCurrentYearMonth(yearMonth: string)
      modifies this
      ensures State() == old(State()).(currentYearMonth := yearMonth)
    {
      currentYearMonth := yearMonth;
    }

    method Reset(year: nat, month0: nat)
      requires month0 < 12
      modifies this
      ensures State() == Initial(GetCurrentYearMonth(year, month0))
    {
      var ym := GetCurrentYearMonth(year, month0);
      students, selectedStudent, currentReport, reports, sendHistories, kakaoFriends,
        isKakaoLoggedIn, kakaoAccessToken, currentYearMonth := [], None, None, [], [], [], false, None, ym;
    }
  }
}
