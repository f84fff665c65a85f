/**
 * Properties of the Kakao token store that relate several operations:
 * localStorage mirroring the in-memory tokens, the expiry skew, refresh-token
 * retention, and delivery without a token.
 */
module KakaoProperties {
  import opened Wrappers
  import opened Text
  import opened Kakao

  /** A falsy value reads back from storage as absent. */
  function Norm(s: Option<string>): Option<string> {
    if Truthy(s) then s else None
  }

  function NormNum(n: Option<int>): Option<int> {
    if TruthyNum(n) then n else None
  }

  /**
   * localStorage mirrors memory: with a (truthy) access token the three keys hold exactly the
   * truthy in-memory values, in the form `setTokens` writes them; without one, none is stored.
   */
  predicate Mirrored(s: Session) {
    if Truthy(s.access) then
      Get(s.storage, AccessKey) == s.access &&
      Get(s.storage, RefreshKey) == Norm(s.refresh) &&
      Get(s.storage, ExpiryKey) == (if TruthyNum(s.expiry) then Some(IntToString(s.expiry.value)) else None)
    else
      AccessKey !in s.storage && RefreshKey !in s.storage && ExpiryKey !in s.storage
  }

  /** The `refresh` arguments under which `setTokens` keeps storage in step with memory. */
  predicate KeepsMirror(access: Option<string>, refresh: RefreshArg) {
    refresh.Undefined? || Truthy(refresh.token) || !Truthy(access)
  }

  /**
   * A clock past the first minute of the epoch and a non-negative lifetime: the recorded
   * expiry is then never 0, which would be falsy and leave an older stored expiry behind.
   */
  predicate NonZeroExpiry(expiresIn: Option<int>, now: int) {
    now > SkewMs && (expiresIn.Some? ==> expiresIn.value >= 0)
  }

  /** A token-endpoint outcome whose lifetime, if any, is non-negative. */
  predicate Plausible(response: Option<TokenResponse>) {
    response.Some? && response.value.expiresIn.Some? ==> response.value.expiresIn.value >= 0
  }

  /** `setTokens` keeps the mirror, for every argument combination its callers use. */
  lemma SetTokensMirrored(s: Session, access: Option<string>, refresh: RefreshArg,
                          expiresIn: Option<int>, now: int)
    requires Mirrored(s) && KeepsMirror(access, refresh) && NonZeroExpiry(expiresIn, now)
    ensures Mirrored(AfterSetTokens(s, access, refresh, expiresIn, now))
  {
    var r := AfterSetTokens(s, access, refresh, expiresIn, now);
    if Truthy(access) {
      if TruthyNum(r.expiry) {
        assert Get(r.storage, ExpiryKey) == Some(IntToString(r.expiry.value));
      } else {
        assert Get(r.storage, ExpiryKey) == Get(s.storage, ExpiryKey);
      }
    } else {
      assert r.storage == s.storage - Keys;
    }
  }

  /**
   * Without that condition the mirror breaks: a null refresh token given together with a
   * new access token clears memory but leaves the old key, which a later restore revives.
   */
  lemma StaleRefreshKeySurvives()
    ensures var s := Session(Some("A0"), Some("R0"), None, map[AccessKey := "A0", RefreshKey := "R0"]);
            var r := AfterSetTokens(s, Some("A1"), Given(None), None, 0);
            Mirrored(s) && !Mirrored(r) && r.refresh.None? && Load(r).refresh == Some("R0")
  {
    var s := Session(Some("A0"), Some("R0"), None, map[AccessKey := "A0", RefreshKey := "R0"]);
    assert Get(s.storage, ExpiryKey).None?;
  }

  /** Reading the keys back gives the in-memory tokens, up to truthiness. */
  lemma {:induction false} LoadMirrored(s: Session)
    requires Mirrored(s)
    ensures Mirrored(Load(s))
    ensures Truthy(s.access) ==>
              Load(s).access == s.access && Load(s).refresh == Norm(s.refresh) &&
              Load(s).expiry == NormNum(s.expiry)
    ensures !Truthy(s.access) ==> Load(s).access.None? && Load(s).refresh.None? && Load(s).expiry.None?
  {
    if Truthy(s.access) && TruthyNum(s.expiry) {
      ParseIntToString(s.expiry.value);
      assert IntToString(s.expiry.value) != "";
    }
  }

  lemma RefreshMirrored(s: Session, now: int, response: Option<TokenResponse>)
    requires Mirrored(s) && now > SkewMs && Plausible(response)
    ensures Mirrored(AfterRefresh(s, now, response).after)
  {
    if Truthy(SavedRefresh(s)) && response.Some? {
      var d := response.value;
      var keep := if Truthy(d.refreshToken.Value()) then d.refreshToken.Value() else SavedRefresh(s);
      SetTokensMirrored(s, d.accessToken, Given(keep), d.expiresIn, now);
    }
  }

  lemma RestoreMirrored(s: Session, now: int, response: Option<TokenResponse>)
    requires Mirrored(s) && now > SkewMs && Plausible(response)
    ensures Mirrored(AfterRestore(s, now, response).after)
  {
    LoadMirrored(s);
    var loaded := Load(s);
    RefreshMirrored(loaded, now, response);
    SetTokensMirrored(loaded, None, Undefined, None, now);
  }

  lemma GetAccessTokenMirrored(s: Session, now: int, response: Option<TokenResponse>)
    requires Mirrored(s) && now > SkewMs && Plausible(response)
    ensures Mirrored(AfterGetAccessToken(s, now, response).after)
  {
    RefreshMirrored(s, now, response);
  }

  lemma CheckLoginMirrored(s: Session)
    requires Mirrored(s)
    ensures Mirrored(AfterCheckLogin(s).1)
  {
    LoadMirrored(s);
  }

  lemma SendToMeMirrored(s: Session, title: string, description: string, now: int,
                         restoreResponse: Option<TokenResponse>, refreshResponse: Option<TokenResponse>,
                         sendOk: bool)
    requires Mirrored(s) && now > SkewMs && Plausible(restoreResponse) && Plausible(refreshResponse)
    ensures Mirrored(AfterSendToMe(s, title, description, now, restoreResponse, refreshResponse, sendOk).after)
  {
    RestoreMirrored(s, now, restoreResponse);
    var s1 := if !Truthy(s.access) then AfterRestore(s, now, restoreResponse).after else s;
    GetAccessTokenMirrored(s1, now, refreshResponse);
  }

  /** Logging out removes every key and the access token, whatever the state before. */
  lemma LogoutMirrored(s: Session)
    ensures Mirrored(AfterLogout(s))
  {
  }

  /** After logging out, `checkKakaoLogin()` reports no login. */
  lemma LogoutThenCheck(s: Session)
    ensures !AfterCheckLogin(AfterLogout(s)).0
  {
    var out := AfterLogout(s);
    assert Get(out.storage, AccessKey).None?;
  }

  // ---------------------------------------------------------------------
  // expiry and the 60-second skew

  /**
   * A token granted for more than 60 seconds is restored without a refresh, as long as
   * the clock has not passed its recorded expiry: the stored expiry reads back exactly.
   */
  lemma RestoreRightAfterLogin(s: Session, access: string, refresh: RefreshArg, expiresIn: int,
                               now: int, later: int, response: Option<TokenResponse>)
    requires Mirrored(s) && KeepsMirror(Some(access), refresh)
    requires access != "" && expiresIn > 60 && now > SkewMs
    requires later <= ExpiryAt(now, expiresIn)
    ensures var r := AfterRestore(AfterSetTokens(s, Some(access), refresh, Some(expiresIn), now), later, response);
            r.token == Some(access) && !r.requested
  {
    var s' := AfterSetTokens(s, Some(access), refresh, Some(expiresIn), now);
    SetTokensMirrored(s, Some(access), refresh, Some(expiresIn), now);
    LoadMirrored(s');
    assert Load(s').expiry == Some(ExpiryAt(now, expiresIn));
  }

  /**
   * A token granted for less than 60 seconds is already expired when recorded, so the next
   * `getAccessToken()` sends a refresh request whenever a refresh token is available.
   * (The clock is an epoch time past the first minute, so the expiry is not 0.)
   */
  lemma ShortLivedTokenRefreshes(s: Session, access: Option<string>, refresh: RefreshArg, expiresIn: int,
                                 now: int, later: int, response: Option<TokenResponse>)
    requires 0 < expiresIn < 60 && now > SkewMs && later >= now
    ensures var s' := AfterSetTokens(s, access, refresh, Some(expiresIn), now);
            AfterGetAccessToken(s', later, response).requested <==> Truthy(SavedRefresh(s'))
  {
  }

  /** With exactly 60 seconds the expiry equals the grant time, so no refresh happens at that instant. */
  lemma SixtySecondBoundary(s: Session, access: Option<string>, refresh: RefreshArg,
                            now: int, response: Option<TokenResponse>)
    requires now > 0
    ensures var s' := AfterSetTokens(s, access, refresh, Some(60), now);
            AfterGetAccessToken(s', now, response) == Obtained(access, false, s')
  {
  }

  /** `getAccessToken()` makes no request while the token is unexpired or has no expiry. */
  lemma NoRefreshWhileFresh(s: Session, now: int, response: Option<TokenResponse>)
    requires s.expiry.None? || now <= s.expiry.value
    ensures AfterGetAccessToken(s, now, response) == Obtained(s.access, false, s)
  {
  }

  /** When the refresh fails, `getAccessToken()` still hands out the stale in-memory token. */
  lemma StaleTokenOnFailedRefresh(s: Session, now: int)
    requires Expired(s, now)
    ensures AfterGetAccessToken(s, now, None).token == s.access
  {
  }

  // ---------------------------------------------------------------------
  // refresh and restore

  /** A provider that does not rotate the refresh token: the old one is kept. */
  lemma RefreshWithoutRotation(s: Session, now: int, d: TokenResponse)
    requires Truthy(SavedRefresh(s)) && !Truthy(d.refreshToken.Value())
    ensures var r := AfterRefresh(s, now, Some(d));
            r.ok && r.after.refresh == SavedRefresh(s) && r.after.access == d.accessToken &&
            r.after.expiry == (if TruthyNum(d.expiresIn) then Some(ExpiryAt(now, d.expiresIn.value)) else s.expiry)
  {
  }

  /** The rotation-less scenario: A1/R1, refreshed to A2 without a new refresh token, leaves A2/R1. */
  lemma RotationlessScenario(storage: map<string, string>, now: int)
    ensures var s := AfterSetTokens(Session(None, None, None, storage), Some("A1"), Given(Some("R1")), Some(10), now);
            var r := AfterRefresh(s, now, Some(TokenResponse(Some("A2"), Undefined, Some(10))));
            r.ok && r.after.access == Some("A2") && r.after.refresh == Some("R1") &&
            Get(r.after.storage, RefreshKey) == Some("R1")
  {
  }

  /** A failed refresh during restore clears memory's access token and removes all three keys. */
  lemma RestoreFailureClears(s: Session, now: int)
    requires Expired(Load(s), now) && Truthy(Get(s.storage, RefreshKey))
    ensures var r := AfterRestore(s, now, None);
            r.token.None? && r.requested && r.after.access.None? &&
            AccessKey !in r.after.storage && RefreshKey !in r.after.storage && ExpiryKey !in r.after.storage
  {
  }

  /** An expired token with no refresh token is restored as it was saved, with no request. */
  lemma RestoreExpiredWithoutRefresh(s: Session, now: int, response: Option<TokenResponse>)
    requires !Truthy(Get(s.storage, RefreshKey))
    ensures AfterRestore(s, now, response) == Obtained(Get(s.storage, AccessKey), false, Load(s))
  {
  }

  /** Without a token from `getAccessToken()` nothing is sent and the result is false. */
  lemma SendWithoutToken(s: Session, title: string, description: string, now: int,
                         restoreResponse: Option<TokenResponse>, refreshResponse: Option<TokenResponse>,
                         sendOk: bool)
    requires var s1 := if !Truthy(s.access) then AfterRestore(s, now, restoreResponse).after else s;
             !Truthy(AfterGetAccessToken(s1, now, refreshResponse).token)
    ensures var r := AfterSendToMe(s, title, description, now, restoreResponse, refreshResponse, sendOk);
            !r.ok && r.text.None?
  {
  }

  /** With a valid token the memo is sent with the fixed text, and the result is the endpoint's. */
  lemma SendWithToken(s: Session, title: string, description: string, now: int,
                      restoreResponse: Option<TokenResponse>, sendOk: bool)
    requires Truthy(s.access) && !Expired(s, now)
    ensures AfterSendToMe(s, title, description, now, restoreResponse, None, sendOk) ==
            Sent(sendOk, Some("\U{1F4CA} " + title + "\n\n" + description), s)
  {
  }
}
