/**
 * The teacher login of src/pages/LoginPage.tsx: the PIN box keeps at most four
 * decimal digits, the login looks the chosen teacher up and compares PINs, and
 * a signed-in teacher is routed by the admin flag. The teacher list and the
 * clock are parameters.
 */
module LoginPage {
  import opened Wrappers
  import opened Text
  import opened Seqs
  import opened Types

  // ---------------------------------------------------------------------
  // the PIN box

  /** `s.replace(/\D/g, '')`: the decimal digits of `s`, in order. */
  function Digits(s: string): (d: string)
    ensures AllDigits(d) && |d| <= |s|
    decreases |s|
  {
    if s == [] then ""
    else (if IsDigit(s[0]) then [s[0]] else "") + Digits(s[1..])
  }

  /** Removing non-digits distributes over concatenation. */
  lemma {:induction false} DigitsAppend(a: string, b: string)
    ensures Digits(a + b) == Digits(a) + Digits(b)
    decreases |a|
  {
    if a != [] {
      assert (a + b)[0] == a[0] && (a + b)[1..] == a[1..] + b;
      DigitsAppend(a[1..], b);
    } else {
      assert a + b == b;
    }
  }

  /** A string of digits is kept whole. */
  lemma {:induction false} DigitsOfDigits(s: string)
    requires AllDigits(s)
    ensures Digits(s) == s
    decreases |s|
  {
    if s != [] {
      DigitsOfDigits(s[1..]);
      assert [s[0]] + s[1..] == s;
    }
  }

  /** `value.replace(/\D/g, '').slice(0, 4)` (LoginPage.tsx:111). */
  function SanitizePin(s: string): (p: string)
    ensures AllDigits(p) && |p| <= 4
    ensures p <= Digits(s)
    ensures |Digits(s)| >= 4 ==> |p| == 4
    ensures |Digits(s)| < 4 ==> p == Digits(s)
  {
    var d := Digits(s);
    if |d| <= 4 then d else d[..4]
  }

  /** Sanitising what the box already holds changes nothing. */
  lemma SanitizeIdempotent(s: string)
    ensures SanitizePin(SanitizePin(s)) == SanitizePin(s)
  {
    DigitsOfDigits(SanitizePin(s));
  }

  /** Typing one more character appends at most that character, and only while fewer than four digits are held. */
  lemma SanitizeKeystroke(s: string, c: char)
    requires AllDigits(s) && |s| <= 4
    ensures IsDigit(c) && |s| < 4 ==> SanitizePin(s + [c]) == s + [c]
    ensures !IsDigit(c) || |s| == 4 ==> SanitizePin(s + [c]) == s
  {
    DigitsAppend(s, [c]);
    DigitsOfDigits(s);
    assert Digits([c]) == if IsDigit(c) then [c] else [];
  }

  // ---------------------------------------------------------------------
  // the login check

  /** Where a signed-in teacher goes: the dashboard for an admin, the score sheet otherwise. */
  function RouteFor(teacher: Teacher): (route: string)
    ensures route == "/admin" <==> teacher.isAdmin
    ensures route == "/admin" || route == "/teacher"
  {
    if teacher.isAdmin then "/admin" else "/teacher"
  }

  datatype LoginStep = Error(message: string) | LoggedIn(user: CurrentUser, route: string)

  function ById(id: string): Teacher -> bool {
    (t: Teacher) => t.id == id
  }

  /**
   * `handleLogin` (LoginPage.tsx:35-60): the first teacher with the chosen id must exist and
   * hold exactly the typed PIN; the signed-in user records the teacher and the login time.
   */
  function HandleLogin(teachers: seq<Teacher>, selectedId: string, pin: string, loginAt: string): (r: LoginStep)
    ensures (forall i :: 0 <= i < |teachers| ==> teachers[i].id != selectedId) ==>
              r == Error("선생님을 선택해주세요.")
    ensures forall i :: 0 <= i < |teachers| && teachers[i].id == selectedId &&
                        (forall j :: 0 <= j < i ==> teachers[j].id != selectedId) ==>
              (teachers[i].pin != pin ==> r == Error("PIN이 올바르지 않습니다.")) &&
              (teachers[i].pin == pin ==> r == LoggedIn(CurrentUser(teachers[i], loginAt), RouteFor(teachers[i])))
  {
    match Find(teachers, ById(selectedId))
    case None => Error("선생님을 선택해주세요.")
    case Some(t) =>
      if t.pin != pin then Error("PIN이 올바르지 않습니다.")
      else LoggedIn(CurrentUser(t, loginAt), RouteFor(t))
  }

  /** The mount effect (LoginPage.tsx:15-24): a signed-in user is sent on at once. */
  function RedirectOnMount(currentUser: Option<CurrentUser>): (route: Option<string>)
    ensures route.Some? <==> currentUser.Some?
    ensures route.Some? ==> route.value == RouteFor(currentUser.value.teacher)
  {
    match currentUser
    case None => None
    case Some(u) => Some(RouteFor(u.teacher))
  }

  /** A successful login and a later visit to the login page send the teacher to the same place. */
  lemma LoginThenRedirect(teachers: seq<Teacher>, selectedId: string, pin: string, loginAt: string)
    requires HandleLogin(teachers, selectedId, pin, loginAt).LoggedIn?
    ensures var r := HandleLogin(teachers, selectedId, pin, loginAt);
            RedirectOnMount(Some(r.user)) == Some(r.route) && r.user.teacher.id == selectedId && r.user.teacher.pin == pin
  {
    var t := Find(teachers, ById(selectedId));
    assert t.Some?;
  }

  /**
   * A teacher whose stored PIN is not at most four digits can never sign in through the PIN box,
   * since the box only ever holds a sanitised string.
   */
  lemma UnreachablePin(teachers: seq<Teacher>, selectedId: string, typed: string, loginAt: string)
    requires exists i :: 0 <= i < |teachers| && teachers[i].id == selectedId
    requires var t := Find(teachers, ById(selectedId)).value; |t.pin| > 4 || !AllDigits(t.pin)
    ensures HandleLogin(teachers, selectedId, SanitizePin(typed), loginAt) == Error("PIN이 올바르지 않습니다.")
  {
    var i :| 0 <= i < |teachers| && teachers[i].id == selectedId;
    assert ById(selectedId)(teachers[i]);
  }
}
