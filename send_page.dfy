/**
 * The "send to myself" screen of src/pages/SendPage.tsx: the digest built
 * from the current report, the send handler's state steps, and the rule
 * that enables the send button. The Kakao call is an outcome supplied by
 * the caller; the clock is the `sentAt` text.
 */
module SendPage {
  import opened Wrappers
  import opened Text
  import opened Types
  import ReportStore

  /**
   * `${studentName} - ${yearMonth} 월말평가`: the name, the separator, the month and the
   * suffix can each be read back at their place.
   */
  function Title(r: PreviewReport): (t: string)
    ensures StartsWith(t, r.studentName) && EndsWith(t, " 월말평가")
    ensures |t| == |r.studentName| + |" - "| + |r.yearMonth| + |" 월말평가"|
    ensures t[|r.studentName|..|r.studentName| + |" - "|] == " - "
    ensures t[|r.studentName| + |" - "|..|t| - |" 월말평가"|] == r.yearMonth
  {
    r.studentName + " - " + r.yearMonth + " 월말평가"
  }

  /** One digest line, `${subject}: ${score}점`. */
  function Line(s: Score): string {
    s.subject + ": " + IntToString(s.score) + "점"
  }

  /** The digest lines, one per score, in score order. */
  function Lines(scores: seq<Score>): (ls: seq<string>)
    ensures |ls| == |scores|
    ensures forall i :: 0 <= i < |scores| ==> ls[i] == Line(scores[i])
  {
    seq(|scores|, i requires 0 <= i < |scores| => Line(scores[i]))
  }

  /** The description: the lines joined with newlines. */
  function Description(r: PreviewReport): string {
    Join(Lines(r.scores), "\n")
  }

  lemma NumeralHasNoNewline(i: int)
    ensures '\n' !in IntToString(i)
  {
  }

  /** A line has a newline only when its subject has one. */
  lemma LineHasNoNewline(s: Score)
    requires '\n' !in s.subject
    ensures '\n' !in Line(s)
  {
    NumeralHasNoNewline(s.score);
  }

  /**
   * Splitting the description at newlines gives back one line per score, provided no
   * subject name holds a newline; with no scores the description is empty.
   */
  lemma DescriptionLines(r: PreviewReport)
    requires forall i :: 0 <= i < |r.scores| ==> '\n' !in r.scores[i].subject
    ensures r.scores == [] ==> Description(r) == ""
    ensures r.scores != [] ==> Split(Description(r), '\n') == Lines(r.scores)
  {
    if r.scores != [] {
      var ls := Lines(r.scores);
      forall k | 0 <= k < |ls|
        ensures '\n' !in ls[k]
      {
        LineHasNoNewline(r.scores[k]);
      }
      SplitJoin(ls, '\n');
    }
  }

  /** The history entry a successful send records. */
  function Entry(r: PreviewReport, sentAt: string): (h: SendHistory)
    ensures h.studentId == r.studentId && h.studentName == r.studentName
    ensures h.reportId == "" && h.recipientName == "나에게 보내기" && h.status == Success
    ensures h.sentAt == sentAt && h.id.None? && h.recipientType.None? && h.errorMessage.None?
  {
    SendHistory(None, r.studentId, r.studentName, "", "나에게 보내기", None, sentAt, Success, None)
  }

  /** How `sendKakaoMessageToMe` came back: with a boolean, or by throwing. */
  datatype CallOutcome = Returned(ok: bool) | Threw

  datatype SendResult = SendResult(success: bool, message: string)

  /** The screen's own state. */
  datatype Screen = Screen(isLoggedIn: bool, sending: bool, result: Option<SendResult>)

  function ResultOf(outcome: CallOutcome): SendResult {
    match outcome
    case Returned(true) => SendResult(true, "카카오톡으로 전송되었습니다!")
    case Returned(false) => SendResult(false, "전송에 실패했습니다. 다시 로그인해주세요.")
    case Threw => SendResult(false, "전송 중 오류가 발생했습니다.")
  }

  /**
   * The screen after the call returns: `sending` is off on every path, a `false` result
   * logs the user out, a success or an exception leaves the flag alone.
   */
  function AfterSend(s: Screen, outcome: CallOutcome): (t: Screen)
    ensures !t.sending && t.result.Some?
    ensures t.result.value.success <==> outcome == Returned(true)
    ensures outcome == Returned(false) ==> !t.isLoggedIn
    ensures outcome != Returned(false) ==> t.isLoggedIn == s.isLoggedIn
  {
    Screen(if outcome == Returned(false) then false else s.isLoggedIn, false, Some(ResultOf(outcome)))
  }

  /** The history entries one send adds: one on success, none otherwise. */
  function Recorded(r: PreviewReport, outcome: CallOutcome, sentAt: string): (hs: seq<SendHistory>)
    ensures |hs| == if outcome == Returned(true) then 1 else 0
    ensures hs != [] ==> hs[0] == Entry(r, sentAt)
  {
    if outcome == Returned(true) then [Entry(r, sentAt)] else []
  }

  /** The send button's `disabled={!isLoggedIn || sending}`, negated. */
  predicate SendEnabled(s: Screen) {
    s.isLoggedIn && !s.sending
  }

  /** Whatever the outcome, once the call is over the button is enabled exactly when still logged in. */
  lemma EnabledAfterSend(s: Screen, outcome: CallOutcome)
    ensures SendEnabled(AfterSend(s, outcome)) <==> s.isLoggedIn && outcome != Returned(false)
    ensures !SendEnabled(s.(sending := true))
  {
  }

  class SendScreen {
    var isLoggedIn: bool
    var sending: bool
    var result: Option<SendResult>
    const store: ReportStore.Store

    function State(): Screen
      reads this
    {
      Screen(isLoggedIn, sending, result)
    }

    constructor(store: ReportStore.Store)
      ensures State() == Screen(false, false, None) && this.store == store
    {
      isLoggedIn := false;
      sending := false;
      result := None;
      this.store := store;
    }

    /**
     * `handleSendToMe` (SendPage.tsx:56-93). `request` is the title and description handed
     * to the Kakao call, `during` the screen while that call is pending.
     */
    method HandleSendToMe(report: Option<PreviewReport>, outcome: CallOutcome, sentAt: string)
      returns (request: Option<(string, string)>, during: Screen)
      modifies this, store
      ensures report.None? ==> request.None? && State() == old(State()) &&
                               store.State() == old(store.State())
      ensures report.Some? ==>
        && request == Some((Title(report.value), Description(report.value)))
        && during == old(State()).(sending := true, result := None)
        && State() == AfterSend(during, outcome)
        && store.State() == old(store.State()).(sendHistories :=
             old(store.sendHistories) + Recorded(report.value, outcome, sentAt))
    {
      if report.None? {
        return None, State();
      }
      var r := report.value;
      sending := true;
      result := None;
      during := State();
      request := Some((Title(r), Description(r)));
      match outcome {
        case Returned(true) =>
          store.AddSendHistory(Entry(r, sentAt));
          result := Some(SendResult(true, "카카오톡으로 전송되었습니다!"));
        case Returned(false) =>
          result := Some(SendResult(false, "전송에 실패했습니다. 다시 로그인해주세요."));
          isLoggedIn := false;
        case Threw =>
          result := Some(SendResult(false, "전송 중 오류가 발생했습니다."));
      }
      sending := false;
    }
  }
}
