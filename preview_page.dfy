/**
 * The report preview of src/pages/PreviewPage.tsx: the chart's month labels,
 * the trend series (fixed sample history plus the current month), the
 * one-page PDF placement, the download names and the header's month text.
 */
module PreviewPage {
  import opened Wrappers
  import opened Text
  import opened Seqs
  import opened Types
  import ReportStore
  import Pdf

  // ---------------------------------------------------------------------
  // month labels

  /**
   * `formatMonth` (PreviewPage.tsx:147-150): `parseInt` of the text after the first dash,
   * then `월`. Without a dash, or without digits there, JavaScript prints `NaN월`.
   */
  function FormatMonth(month: string): (text: string)
    ensures EndsWith(text, "월")
    ensures Field(month, '-', 1).None? ==> text == "NaN월"
  {
    match Field(month, '-', 1)
    case None => "NaN월"
    case Some(m) =>
      match ParseInt(m)
      case None => "NaN월"
      case Some(v) => IntToString(v) + "월"
  }

  /** A month key of the store is labelled with its month number, without the leading zero. */
  lemma FormatMonthOfKey(year: nat, month0: nat)
    requires month0 < 12
    ensures FormatMonth(ReportStore.GetCurrentYearMonth(year, month0)) == NatToString(month0 + 1) + "월"
  {
    var ym := ReportStore.GetCurrentYearMonth(year, month0);
    ReportStore.YearMonthFields(year, month0);
    var m := Field(ym, '-', 1).value;
    assert ParseInt(m) == Some(month0 + 1);
    assert IntToString(month0 + 1) == NatToString(month0 + 1);
  }

  /** `2025-08` is labelled `8월`. */
  lemma FormatMonthExample()
    ensures FormatMonth("2025-08") == "8월"
  {
    assert "2025-08" == "2025" + "-" + "08";
    ReportStore.DashJoinSplit("2025", "08");
    assert Field("2025-08", '-', 1) == Some("08");
    LeadingDigitsOfDigits("08");
    assert DigitsValue("08") == 8 by {
      assert "08"[..1] == "0" && "0"[..0] == [];
    }
    assert ParseInt("08") == Some(8);
  }

  /**
   * The header's `currentYearMonth.replace('-', '년 ')` followed by `월` (PreviewPage.tsx:206):
   * the year, `년 `, the two-digit month and `월`, so the zero stays.
   */
  function HeaderMonth(yearMonth: string): (h: string)
    ensures '-' !in yearMonth ==> h == yearMonth + "월"
  {
    ReplaceFirst(yearMonth, '-', "년 ") + "월"
  }

  lemma HeaderMonthOfKey(year: nat, month0: nat)
    requires month0 < 12
    ensures HeaderMonth(ReportStore.GetCurrentYearMonth(year, month0)) ==
            NatToString(year) + "년 " + ReportStore.MonthText(month0) + "월"
  {
    ReportStore.DigitsWithoutDash(NatToString(year));
    ReplaceFirstAt(NatToString(year), '-', "년 ", ReportStore.MonthText(month0));
    assert ReportStore.GetCurrentYearMonth(year, month0) == NatToString(year) + ['-'] + ReportStore.MonthText(month0);
  }

  // ---------------------------------------------------------------------
  // the trend series

  /** One chart point: the month and a score per subject key. */
  datatype TrendEntry = TrendEntry(month: string, values: map<string, int>)

  /** The sample history the page charts (PreviewPage.tsx:19-25). */
  const DummyHistory: seq<TrendEntry> := [
    TrendEntry("2025-08", map["국어" := 72, "영어" := 68]),
    TrendEntry("2025-09", map["국어" := 75, "영어" := 72]),
    TrendEntry("2025-10", map["국어" := 78, "영어" := 75]),
    TrendEntry("2025-11", map["국어" := 80, "영어" := 82]),
    TrendEntry("2025-12", map["국어" := 82, "영어" := 85])
  ]

  /** The names every plain object answers to through `Object.prototype`. */
  const InheritedKeys: set<string> := {
    "constructor", "hasOwnProperty", "isPrototypeOf", "propertyIsEnumerable", "toLocaleString",
    "toString", "valueOf", "__proto__", "__defineGetter__", "__defineSetter__", "__lookupGetter__",
    "__lookupSetter__"
  }

  /** JavaScript's `key in h`: the `month` field, a subject key, or an inherited name. */
  predicate HasKey(h: TrendEntry, key: string) {
    key == "month" || key in h.values || key in InheritedKeys
  }

  /** `currentReport.scores.some((s) => s.subject in h)` */
  predicate Relevant(scores: seq<Score>, h: TrendEntry) {
    exists i :: 0 <= i < |scores| && HasKey(h, scores[i].subject)
  }

  function RelevantTo(scores: seq<Score>): TrendEntry -> bool {
    (h: TrendEntry) => Relevant(scores, h)
  }

  /** Position `i` holds the last score of its subject. */
  predicate LastOfSubject(scores: seq<Score>, i: nat)
    requires i < |scores|
  {
    forall j :: i < j < |scores| ==> scores[j].subject != scores[i].subject
  }

  /** `scores.reduce((acc, s) => ({ ...acc, [s.subject]: s.score }), {})`: later scores overwrite earlier ones. */
  function FinalValues(scores: seq<Score>): map<string, int>
    decreases |scores|
  {
    if scores == [] then map[]
    else
      var n := |scores| - 1;
      FinalValues(scores[..n])[scores[n].subject := scores[n].score]
  }

  /** The reduced object has one key per subject of the scores, and no other. */
  lemma {:induction false} FinalValuesKeys(scores: seq<Score>, k: string)
    ensures k in FinalValues(scores) <==> exists i :: 0 <= i < |scores| && scores[i].subject == k
    decreases |scores|
  {
    if scores != [] {
      var n := |scores| - 1;
      FinalValuesKeys(scores[..n], k);
      if exists i :: 0 <= i < n && scores[..n][i].subject == k {
        var i :| 0 <= i < n && scores[..n][i].subject == k;
        assert scores[i].subject == k;
      }
      if exists i :: 0 <= i < |scores| && scores[i].subject == k {
        var i :| 0 <= i < |scores| && scores[i].subject == k;
        if i < n {
          assert scores[..n][i].subject == k;
        }
      }
    }
  }

  /** Each subject's key holds the score of its last occurrence: later duplicates win. */
  lemma {:induction false} FinalValuesLast(scores: seq<Score>, i: nat)
    requires i < |scores| && LastOfSubject(scores, i)
    ensures scores[i].subject in FinalValues(scores)
    ensures FinalValues(scores)[scores[i].subject] == scores[i].score
    decreases |scores|
  {
    var n := |scores| - 1;
    if i < n {
      assert scores[..n][i] == scores[i];
      assert LastOfSubject(scores[..n], i);
      FinalValuesLast(scores[..n], i);
    }
  }

  /**
   * `trendData` (PreviewPage.tsx:76-88): the history entries that know one of the current
   * subjects, in history order, then the current month with the current scores.
   */
  function TrendData(history: seq<TrendEntry>, yearMonth: string, scores: seq<Score>): (t: seq<TrendEntry>)
    ensures |t| >= 1 && t[|t| - 1] == TrendEntry(yearMonth, FinalValues(scores))
    ensures t[..|t| - 1] == Filter(history, RelevantTo(scores))
  {
    var t := Filter(history, RelevantTo(scores)) + [TrendEntry(yearMonth, FinalValues(scores))];
    assert t[..|t| - 1] == Filter(history, RelevantTo(scores));
    t
  }

  /** The kept history entries are exactly the relevant ones. */
  lemma TrendHistoryExact(history: seq<TrendEntry>, yearMonth: string, scores: seq<Score>, h: TrendEntry)
    ensures var t := TrendData(history, yearMonth, scores);
            h in t[..|t| - 1] <==> h in history && Relevant(scores, h)
  {
  }

  /** `trendData.length > 1 && (...)` (PreviewPage.tsx:247). */
  predicate ChartShown(trend: seq<TrendEntry>) {
    |trend| > 1
  }

  /** The chart appears exactly when some history entry knows a current subject. */
  lemma ChartShownIff(history: seq<TrendEntry>, yearMonth: string, scores: seq<Score>)
    ensures ChartShown(TrendData(history, yearMonth, scores)) <==>
            exists j :: 0 <= j < |history| && Relevant(scores, history[j])
  {
    var kept := Filter(history, RelevantTo(scores));
    if kept != [] {
      assert kept[0] in history && RelevantTo(scores)(kept[0]);
    }
    if exists j :: 0 <= j < |history| && Relevant(scores, history[j]) {
      var j :| 0 <= j < |history| && Relevant(scores, history[j]);
      assert RelevantTo(scores)(history[j]);
      assert history[j] in kept;
    }
  }

  /** The keys every sample entry answers to. */
  predicate KnownToSample(key: string) {
    key == "month" || key == "국어" || key == "영어" || key in InheritedKeys
  }

  lemma SampleKeys(j: nat, key: string)
    requires j < |DummyHistory|
    ensures HasKey(DummyHistory[j], key) <==> KnownToSample(key)
  {
    assert DummyHistory[j].values.Keys == {"국어", "영어"};
  }

  /**
   * With the sample history, the chart appears exactly when a subject is 국어 or 영어, or is
   * `month` or an inherited name, which every object answers to.
   */
  lemma DummyChartShown(yearMonth: string, scores: seq<Score>)
    ensures ChartShown(TrendData(DummyHistory, yearMonth, scores)) <==>
            exists i :: 0 <= i < |scores| && KnownToSample(scores[i].subject)
  {
    ChartShownIff(DummyHistory, yearMonth, scores);
    if exists j :: 0 <= j < |DummyHistory| && Relevant(scores, DummyHistory[j]) {
      var j :| 0 <= j < |DummyHistory| && Relevant(scores, DummyHistory[j]);
      var i :| 0 <= i < |scores| && HasKey(DummyHistory[j], scores[i].subject);
      SampleKeys(j, scores[i].subject);
    }
    if exists i :: 0 <= i < |scores| && KnownToSample(scores[i].subject) {
      var i :| 0 <= i < |scores| && KnownToSample(scores[i].subject);
      SampleKeys(0, scores[i].subject);
      assert Relevant(scores, DummyHistory[0]);
    }
  }

  // ---------------------------------------------------------------------
  // downloads

  /**
   * The one image of the PDF (PreviewPage.tsx:112-114): at (0, 0), the full 210 mm width,
   * `canvas.height * 210 / canvas.width` high, and the whole canvas; nothing is paginated.
   */
  function PdfImage(canvasWidth: real, canvasHeight: real): (img: Pdf.Image)
    requires canvasWidth > 0.0 && canvasHeight >= 0.0
    ensures img.x == 0.0 && img.y == 0.0 && img.width == Pdf.PageWidth
    ensures img.height * canvasWidth == canvasHeight * 210.0
    ensures img.sourceY == 0.0 && img.sourceHeight == canvasHeight
  {
    Pdf.Image(0.0, 0.0, 210.0, (canvasHeight * 210.0) / canvasWidth, 0.0, canvasHeight)
  }

  /** A canvas taller than the A4 ratio runs past the bottom of the single page. */
  lemma TallCanvasOverflows(canvasWidth: real, canvasHeight: real)
    requires canvasWidth > 0.0 && canvasHeight * 210.0 > canvasWidth * Pdf.PageHeight
    ensures PdfImage(canvasWidth, canvasHeight).height > Pdf.PageHeight
  {
  }

  /** `${studentName}_${yearMonth}_리포트` with the extension `ext` (PreviewPage.tsx:115, 139). */
  function FileName(studentName: string, yearMonth: string, ext: string): (name: string)
    ensures StartsWith(name, studentName) && EndsWith(name, "_리포트" + ext)
  {
    studentName + "_" + yearMonth + "_리포트" + ext
  }

  /** The PDF and PNG names share the stem and already end in their extensions. */
  lemma FileNames(studentName: string, yearMonth: string)
    ensures Pdf.DownloadName(FileName(studentName, yearMonth, ".pdf"), ".pdf") == FileName(studentName, yearMonth, ".pdf")
    ensures Pdf.DownloadName(FileName(studentName, yearMonth, ".png"), ".png") == FileName(studentName, yearMonth, ".png")
    ensures var p := FileName(studentName, yearMonth, ".pdf");
            var q := FileName(studentName, yearMonth, ".png");
            |p| == |q| && p[..|p| - 4] == q[..|q| - 4]
  {
    var stem := studentName + "_" + yearMonth + "_리포트";
    assert FileName(studentName, yearMonth, ".pdf") == stem + ".pdf";
    assert FileName(studentName, yearMonth, ".png") == stem + ".png";
    assert (stem + ".pdf")[..|stem|] == stem;
    assert (stem + ".png")[..|stem|] == stem;
  }
}
