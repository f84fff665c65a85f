/**
 * The Kakao token store of src/services/kakao.ts: three module-level
 * variables (access token, refresh token, expiry in epoch milliseconds)
 * mirrored into three localStorage keys, the refresh-token exchange, the
 * restore-on-load logic, the memo sender, and the popup login as an
 * event machine.
 *
 * The clock (`Date.now()`) is the parameter `now`; each call to the token
 * endpoint is an `Option<TokenResponse>` (`None` for a non-ok response or a
 * thrown error, which the source treats alike); the memo endpoint's outcome is
 * a boolean.
 */
module Kakao {
  import opened Wrappers
  import opened Text

  const AccessKey := "kakao_access_token"
  const RefreshKey := "kakao_refresh_token"
  const ExpiryKey := "kakao_token_expiry"
  const Keys: set<string> := {AccessKey, RefreshKey, ExpiryKey}

  /** Expiry is recorded this many milliseconds early ("1분 여유"). */
  const SkewMs := 60000

  /** JavaScript truthiness of a `string | null`: the empty string is falsy. */
  predicate Truthy(s: Option<string>) {
    s.Some? && s.value != ""
  }

  /** JavaScript truthiness of a `number | null`: zero is falsy (`NaN` is modelled as `None`). */
  predicate TruthyNum(n: Option<int>) {
    n.Some? && n.value != 0
  }

  /** `localStorage.getItem(k)` */
  function Get(m: map<string, string>, k: string): (r: Option<string>)
    ensures r.Some? <==> k in m
  {
    if k in m then Some(m[k]) else None
  }

  /**
   * The `refresh` argument of `setTokens`, and the `refresh_token` field of a token response:
   * omitted (`undefined`) or given (possibly `null`).
   */
  datatype RefreshArg = Undefined | Given(token: Option<string>)
  {
    /** The value read in a truthiness test, where `undefined` and `null` agree. */
    function Value(): Option<string> {
      if Given? then token else None
    }
  }

  /**
   * The JSON body of a successful token-endpoint response. An absent or `null` access token or
   * lifetime is `None`. The refresh token keeps an absent field apart from a `null` one: the
   * refresh path's `data.refresh_token || savedRefresh` treats both alike, but the login exchange
   * hands the field to `setTokens` as it is, and there only an absent one keeps memory's token.
   */
  datatype TokenResponse = TokenResponse(
    accessToken: Option<string>,
    refreshToken: RefreshArg,
    expiresIn: Option<int>)

  /** The three module variables together with the browser's localStorage. */
  datatype Session = Session(
    access: Option<string>,
    refresh: Option<string>,
    expiry: Option<int>,
    storage: map<string, string>)

  /** The in-memory expiry a token that lives `expiresIn` seconds gets at time `now`. */
  function ExpiryAt(now: int, expiresIn: int): int {
    now + expiresIn * 1000 - SkewMs
  }

  /** What `setTokens(access, refresh, expiresIn)` does to the session (kakao.ts:11-33). */
  function AfterSetTokens(s: Session, access: Option<string>, refresh: RefreshArg,
                          expiresIn: Option<int>, now: int): (r: Session)
    ensures r.access == access
    ensures refresh.Undefined? ==> r.refresh == s.refresh
    ensures refresh.Given? ==> r.refresh == refresh.token
    ensures TruthyNum(expiresIn) ==> r.expiry == Some(ExpiryAt(now, expiresIn.value))
    ensures !TruthyNum(expiresIn) ==> r.expiry == s.expiry
    // a falsy access token removes all three keys, and nothing else
    ensures !Truthy(access) ==> r.storage == s.storage - Keys
    // a truthy one always writes the access key, the others only when set in memory
    ensures Truthy(access) ==> Get(r.storage, AccessKey) == access
    ensures Truthy(access) && Truthy(r.refresh) ==> Get(r.storage, RefreshKey) == r.refresh
    ensures Truthy(access) && !Truthy(r.refresh) ==> Get(r.storage, RefreshKey) == Get(s.storage, RefreshKey)
    ensures Truthy(access) && TruthyNum(r.expiry) ==>
              Get(r.storage, ExpiryKey) == Some(IntToString(r.expiry.value))
    ensures Truthy(access) && !TruthyNum(r.expiry) ==> Get(r.storage, ExpiryKey) == Get(s.storage, ExpiryKey)
    // keys other than the three are never touched
    ensures forall k :: k !in Keys ==> Get(r.storage, k) == Get(s.storage, k)
  {
    var refresh' := if refresh.Given? then refresh.token else s.refresh;
    var expiry' := if TruthyNum(expiresIn) then Some(ExpiryAt(now, expiresIn.value)) else s.expiry;
    var storage' :=
      if Truthy(access) then
        var withAccess := s.storage[AccessKey := access.value];
        var withRefresh := if Truthy(refresh') then withAccess[RefreshKey := refresh'.value] else withAccess;
        if TruthyNum(expiry') then withRefresh[ExpiryKey := IntToString(expiry'.value)] else withRefresh
      else s.storage - Keys;
    Session(access, refresh', expiry', storage')
  }

  /** The session `setTokens` builds, field by field (the proof of `TokenStore.SetTokens` matches it). */
  lemma AfterSetTokensShape(s: Session, access: Option<string>, refresh: RefreshArg, expiresIn: Option<int>, now: int)
    ensures var r := AfterSetTokens(s, access, refresh, expiresIn, now);
            && r.access == access
            && r.refresh == (if refresh.Given? then refresh.token else s.refresh)
            && r.expiry == (if TruthyNum(expiresIn) then Some(ExpiryAt(now, expiresIn.value)) else s.expiry)
            && (!Truthy(access) ==> r.storage == s.storage - Keys)
            && (Truthy(access) ==>
                  var withAccess := s.storage[AccessKey := access.value];
                  var withRefresh := if Truthy(r.refresh) then withAccess[RefreshKey := r.refresh.value] else withAccess;
                  r.storage == if TruthyNum(r.expiry) then withRefresh[ExpiryKey := IntToString(r.expiry.value)]
                               else withRefresh)
  {
  }

  /** The three variables as `restoreAccessToken` reads them back from storage (kakao.ts:81-87). */
  function Load(s: Session): (r: Session)
    ensures r.storage == s.storage
    ensures r.access == Get(s.storage, AccessKey) && r.refresh == Get(s.storage, RefreshKey)
    // a falsy stored expiry reads back as none, a truthy one through `parseInt`
    ensures r.expiry == (if Truthy(Get(s.storage, ExpiryKey)) then ParseInt(Get(s.storage, ExpiryKey).value) else None)
  {
    var savedExpiry := Get(s.storage, ExpiryKey);
    Session(Get(s.storage, AccessKey), Get(s.storage, RefreshKey),
            if Truthy(savedExpiry) then ParseInt(savedExpiry.value) else None,
            s.storage)
  }

  /** Outcome of a refresh attempt: success flag, whether a request was sent, the new session. */
  datatype Refreshed = Refreshed(ok: bool, requested: bool, after: Session)

  /** The refresh token `refreshAccessToken` would send: memory first, then storage. */
  function SavedRefresh(s: Session): Option<string> {
    if Truthy(s.refresh) then s.refresh else Get(s.storage, RefreshKey)
  }

  /** What `refreshAccessToken()` does, given the endpoint's outcome (kakao.ts:41-77). */
  function AfterRefresh(s: Session, now: int, response: Option<TokenResponse>): (r: Refreshed)
    ensures r.requested <==> Truthy(SavedRefresh(s))
    ensures r.ok <==> r.requested && response.Some?
    ensures !r.ok ==> r.after == s
  {
    var saved := SavedRefresh(s);
    if !Truthy(saved) then Refreshed(false, false, s)
    else match response
      case None => Refreshed(false, true, s)
      case Some(d) =>
        // `data.refresh_token || savedRefresh`: the provider need not rotate it
        var keep := if Truthy(d.refreshToken.Value()) then d.refreshToken.Value() else saved;
        Refreshed(true, true, AfterSetTokens(s, d.accessToken, Given(keep), d.expiresIn, now))
  }

  /** The stored token has expired: `tokenExpiry && Date.now() > tokenExpiry`. */
  predicate Expired(s: Session, now: int) {
    TruthyNum(s.expiry) && now > s.expiry.value
  }

  /** Outcome of an operation that yields a token. */
  datatype Obtained = Obtained(token: Option<string>, requested: bool, after: Session)

  /** What `restoreAccessToken()` does (kakao.ts:80-101). */
  function AfterRestore(s: Session, now: int, response: Option<TokenResponse>): (r: Obtained)
    ensures r.requested <==> Expired(Load(s), now) && Truthy(Get(s.storage, RefreshKey))
    // without an expired token and a stored refresh token, the stored session is taken as is
    ensures !r.requested ==> r == Obtained(Get(s.storage, AccessKey), false, Load(s))
    // a failed refresh yields null, clears the access token and removes the three keys;
    // memory keeps the loaded refresh token and expiry
    ensures r.requested && response.None? ==>
              r.token.None? && r.after.access.None? && forall k :: k in Keys ==> k !in r.after.storage
    ensures r.requested && response.None? ==>
              r.after.refresh == Load(s).refresh && r.after.expiry == Load(s).expiry
    // a successful one yields the refreshed token
    ensures r.requested && response.Some? ==>
              r.after == AfterRefresh(Load(s), now, response).after && r.token == r.after.access
  {
    var loaded := Load(s);
    if Expired(loaded, now) && Truthy(loaded.refresh) then
      var attempt := AfterRefresh(loaded, now, response);
      if !attempt.ok then Obtained(None, attempt.requested, AfterSetTokens(attempt.after, None, Undefined, None, now))
      else Obtained(attempt.after.access, true, attempt.after)
    else Obtained(loaded.access, false, loaded)
  }

  /** What `getAccessToken()` does (kakao.ts:104-109). */
  function AfterGetAccessToken(s: Session, now: int, response: Option<TokenResponse>): (r: Obtained)
    ensures r.token == r.after.access
  {
    if Expired(s, now) then
      var attempt := AfterRefresh(s, now, response);
      Obtained(attempt.after.access, attempt.requested, attempt.after)
    else Obtained(s.access, false, s)
  }

  /**
   * The synchronous part of `checkKakaoLogin()` (kakao.ts:207-212). `restoreAccessToken()`
   * is called without `await`, so only its loading of the three keys happens before
   * the result is computed.
   */
  function AfterCheckLogin(s: Session): (r: (bool, Session))
    ensures r.0 <==> r.1.access.Some?
    ensures Truthy(s.access) ==> r.1 == s
  {
    var s' := if !Truthy(s.access) then Load(s) else s;
    (s'.access.Some?, s')
  }

  /** What `kakaoLogout()` does: `setTokens(null, null)` (kakao.ts:215-220). */
  function AfterLogout(s: Session): (r: Session)
    ensures r.access.None? && r.refresh.None?
    ensures forall k :: k in Keys ==> k !in r.storage
  {
    AfterSetTokens(s, None, Given(None), None, 0)
  }

  /** The memo text sent by `sendKakaoMessageToMe` (kakao.ts:314). */
  function MemoText(title: string, description: string): (t: string)
    ensures StartsWith(t, "\U{1F4CA} " + title + "\n\n")
    ensures EndsWith(t, description)
    ensures |t| == |"\U{1F4CA} " + title + "\n\n"| + |description|
  {
    "\U{1F4CA} " + title + "\n\n" + description
  }

  /** Outcome of `sendKakaoMessageToMe`: result, the text posted (if any), the new session. */
  datatype Sent = Sent(ok: bool, text: Option<string>, after: Session)

  /** What `sendKakaoMessageToMe(title, description)` does (kakao.ts:289-334). */
  function AfterSendToMe(s: Session, title: string, description: string, now: int,
                    restoreResponse: Option<TokenResponse>, refreshResponse: Option<TokenResponse>,
                    sendOk: bool): (r: Sent)
    ensures r.text.Some? ==> r.text.value == MemoText(title, description)
    ensures r.ok ==> r.text.Some? && sendOk
    // the memo is posted exactly when a token is held after the restore and the refresh
    ensures r.text.Some? <==> Truthy(r.after.access)
    ensures r.text.Some? ==> r.ok == sendOk
  {
    var s1 := if !Truthy(s.access) then AfterRestore(s, now, restoreResponse).after else s;
    var got := AfterGetAccessToken(s1, now, refreshResponse);
    if !Truthy(got.token) then Sent(false, None, got.after)
    else Sent(sendOk, Some(MemoText(title, description)), got.after)
  }

  // ---------------------------------------------------------------------
  // The mutable store

  /** The module state of kakao.ts: the three variables and localStorage. */
  class TokenStore {
    var accessToken: Option<string>
    var refreshToken: Option<string>
    var tokenExpiry: Option<int>
    var storage: map<string, string>

    function State(): Session
      reads this
    {
      Session(accessToken, refreshToken, tokenExpiry, storage)
    }

    /** Module load: all three variables `null`; localStorage is whatever the browser kept. */
    constructor (kept: map<string, string>)
      ensures State() == Session(None, None, None, kept)
    {
      accessToken, refreshToken, tokenExpiry := None, None, None;
      storage := kept;
    }

    method SetTokens(access: Option<string>, refresh: RefreshArg, expiresIn: Option<int>, now: int)
      modifies this
      ensures State() == AfterSetTokens(old(State()), access, refresh, expiresIn, now)
    {
      ghost var s := State();
      accessToken := access;
      if refresh.Given? {
        refreshToken := refresh.token;
      }
      if TruthyNum(expiresIn) {
        tokenExpiry := Some(ExpiryAt(now, expiresIn.value));
      }
      if Truthy(access) {
        storage := storage[AccessKey := access.value];
        if Truthy(refreshToken) {
          storage := storage[RefreshKey := refreshToken.value];
        }
        if TruthyNum(tokenExpiry) {
          storage := storage[ExpiryKey := IntToString(tokenExpiry.value)];
        }
      } else {
        storage := storage - {AccessKey};
        storage := storage - {RefreshKey};
        storage := storage - {ExpiryKey};
        assert storage == s.storage - Keys;
      }
      assert State() == AfterSetTokens(s, access, refresh, expiresIn, now) by {
        AfterSetTokensShape(s, access, refresh, expiresIn, now);
      }
    }

    /** `setAccessToken(token)`, kept for compatibility: `setTokens(token)`. */
    method SetAccessToken(token: Option<string>, now: int)
      modifies this
      ensures State() == AfterSetTokens(old(State()), token, Undefined, None, now)
    {
      SetTokens(token, Undefined, None, now);
    }

    method RefreshAccessToken(now: int, response: Option<TokenResponse>) returns (ok: bool, requested: bool)
      modifies this
      ensures Refreshed(ok, requested, State()) == AfterRefresh(old(State()), now, response)
    {
      var savedRefresh := if Truthy(refreshToken) then refreshToken else Get(storage, RefreshKey);
      if !Truthy(savedRefresh) {
        return false, false;
      }
      requested := true;
      match response {
        case None =>
          ok := false;
        case Some(data) =>
          var keep := if Truthy(data.refreshToken.Value()) then data.refreshToken.Value() else savedRefresh;
          SetTokens(data.accessToken, Given(keep), data.expiresIn, now);
          ok := true;
      }
    }

    method RestoreAccessToken(now: int, response: Option<TokenResponse>) returns (token: Option<string>, requested: bool)
      modifies this
      ensures Obtained(token, requested, State()) == AfterRestore(old(State()), now, response)
    {
      var savedAccess := Get(storage, AccessKey);
      var savedRefresh := Get(storage, RefreshKey);
      var savedExpiry := Get(storage, ExpiryKey);
      accessToken := savedAccess;
      refreshToken := savedRefresh;
      tokenExpiry := if Truthy(savedExpiry) then ParseInt(savedExpiry.value) else None;
      requested := false;
      if TruthyNum(tokenExpiry) && now > tokenExpiry.value && Truthy(savedRefresh) {
        var success;
        success, requested := RefreshAccessToken(now, response);
        if !success {
          SetTokens(None, Undefined, None, now);
          return None, requested;
        }
      }
      token := accessToken;
    }

    method GetAccessToken(now: int, response: Option<TokenResponse>) returns (token: Option<string>, requested: bool)
      modifies this
      ensures Obtained(token, requested, State()) == AfterGetAccessToken(old(State()), now, response)
    {
      requested := false;
      if TruthyNum(tokenExpiry) && now > tokenExpiry.value {
        var ignored;
        ignored, requested := RefreshAccessToken(now, response);
      }
      token := accessToken;
    }

    method CheckKakaoLogin() returns (loggedIn: bool)
      modifies this
      ensures (loggedIn, State()) == AfterCheckLogin(old(State()))
    {
      if !Truthy(accessToken) {
        var savedExpiry := Get(storage, ExpiryKey);
        accessToken := Get(storage, AccessKey);
        refreshToken := Get(storage, RefreshKey);
        tokenExpiry := if Truthy(savedExpiry) then ParseInt(savedExpiry.value) else None;
      }
      loggedIn := accessToken.Some?;
    }

    method KakaoLogout()
      modifies this
      ensures State() == AfterLogout(old(State()))
    {
      SetTokens(None, Given(None), None, 0);
    }

    method SendKakaoMessageToMe(title: string, description: string, now: int,
                                restoreResponse: Option<TokenResponse>,
                                refreshResponse: Option<TokenResponse>,
                                sendOk: bool) returns (ok: bool, text: Option<string>)
      modifies this
      ensures Sent(ok, text, State()) ==
              AfterSendToMe(old(State()), title, description, now, restoreResponse, refreshResponse, sendOk)
    {
      if !Truthy(accessToken) {
        var _, _ := RestoreAccessToken(now, restoreResponse);
      }
      var token, _ := GetAccessToken(now, refreshResponse);
      if !Truthy(token) {
        return false, None;
      }
      text := Some(MemoText(title, description));
      ok := sendOk;
    }
  }

  // ---------------------------------------------------------------------
  // The popup login (kakao.ts:131-204) as an event machine

  /** The promise `kakaoLogin()` returns: still pending, or resolved (a promise resolves once). */
  datatype Resolution = Pending | Resolved(token: Option<string>)

  const AuthCodeType := "KAKAO_AUTH_CODE"

  /**
   * One call of `kakaoLogin()`. `listening` is the registered message listener,
   * `polling` the 500 ms interval that watches the popup. A message event carries the
   * outcome of the code exchange it triggers; a poll tick that sees the popup closed
   * carries the 500 ms grace check with it.
   */
  class LoginAttempt {
    const popupOpened: bool  // `window.open` returned a window (false when blocked)
    var listening: bool
    var polling: bool
    var result: Resolution

    /** The listener and the interval are both installed, whether or not the popup opened. */
    constructor (popupOpened: bool)
      ensures this.popupOpened == popupOpened
      ensures listening && polling && result == Pending
    {
      this.popupOpened := popupOpened;
      listening, polling, result := true, true, Pending;
    }

    /** `resolve(v)`: only the first call has an effect. */
    method Resolve(v: Option<string>)
      modifies this`result
      ensures result == if old(result).Pending? then Resolved(v) else old(result)
    {
      if result.Pending? {
        result := Resolved(v);
      }
    }

    /**
     * A message event whose `data.type` is `msgType`. Only an auth-code message is acted on:
     * it removes the listener, and the exchange sets the tokens and resolves with the
     * access token, or resolves `null` when the exchange fails. The poll keeps running.
     */
    method OnMessage(msgType: Option<string>, exchange: Option<TokenResponse>, tokens: TokenStore, now: int)
      modifies this`listening, this`result, tokens
      ensures !old(listening) || msgType != Some(AuthCodeType) ==>
                listening == old(listening) && result == old(result) && tokens.State() == old(tokens.State())
      ensures old(listening) && msgType == Some(AuthCodeType) ==>
                !listening &&
                result == (if old(result).Resolved? then old(result)
                           else Resolved(if exchange.Some? then exchange.value.accessToken else None)) &&
                tokens.State() == (if exchange.Some?
                                   then AfterSetTokens(old(tokens.State()), exchange.value.accessToken,
                                                        exchange.value.refreshToken, exchange.value.expiresIn, now)
                                   else old(tokens.State()))
    {
      if listening && msgType == Some(AuthCodeType) {
        listening := false;
        match exchange {
          case Some(data) =>
            tokens.SetTokens(data.accessToken, data.refreshToken, data.expiresIn, now);
            Resolve(data.accessToken);
          case None =>
            Resolve(None);
        }
      }
    }

    /**
     * One tick of the interval; `closed` is `popup.closed`. Once the popup is closed the
     * interval and the listener are removed, and after the grace period the promise
     * resolves `null` unless an access token exists by then. A blocked popup never closes.
     */
    method OnPollTick(closed: bool, tokens: TokenStore)
      modifies this`listening, this`polling, this`result
      ensures old(polling) && popupOpened && closed ==>
                !polling && !listening &&
                result == (if old(result).Pending? && !Truthy(tokens.accessToken) then Resolved(None)
                           else old(result))
      ensures !(old(polling) && popupOpened && closed) ==>
                polling == old(polling) && listening == old(listening) && result == old(result)
    {
      if polling && popupOpened && closed {
        polling := false;
        listening := false;
        if !Truthy(tokens.accessToken) {
          Resolve(None);
        }
      }
    }
  }
}
