/**
 * The authentication hook: a reducer over five fields of state that also
 * writes the session into the browser's key/value store, and the decisions
 * around it (initial view, OAuth 2.0 grant choice, startup expiry check,
 * origin-guarded popup messages).
 *
 * Network responses, the clock and the page location are parameters: the
 * model states what the hook decides given them.
 */
module StravaAuth {
  import opened Wrappers
  import opened SessionStore
  import opened StravaTypes
  import Decimal
  import Sequences

  datatype View = HomeScreen | Authenticated | Success | Failure

  datatype AuthState = AuthState(
    view: View,
    isAuthenticating: bool,
    isCheckingToken: bool,
    accessToken: Option<string>,
    error: Option<string>)

  /** The seven actions the reducer accepts. */
  datatype Action =
    | AuthenticationStart
    | AuthenticationSuccess(accessToken: string, refreshToken: string, expiresAt: int)
    | AuthenticationFailure(message: string)
    | TokenValid
    | Logout
    | SetView(view: View)
    | TokenCheckComplete

  const AccessDeniedMessage := "Access denied. You need to give Strava permission to access your activities."

  // ---------------------------------------------------------------- initial view

  /**
   * The view chosen once, from the location the page was loaded at: the
   * provider's redirect landing page shows success or failure depending on
   * an error in the query; any other page starts on the home screen.
   */
  function GetInitialView(pathname: string, search: string): (v: View)
    ensures v == HomeScreen <==> !exists i :: Sequences.InfixAt(pathname, "/redirect", i)
    ensures v == Failure <==>
      (exists i :: Sequences.InfixAt(pathname, "/redirect", i)) &&
      (exists j :: Sequences.InfixAt(search, "error", j))
    ensures v == Success <==>
      (exists i :: Sequences.InfixAt(pathname, "/redirect", i)) &&
      !exists j :: Sequences.InfixAt(search, "error", j)
    ensures v != Authenticated
  {
    Sequences.HasInfixIff(pathname, "/redirect");
    Sequences.HasInfixIff(search, "error");
    if Sequences.HasInfix(pathname, "/redirect") then
      if Sequences.HasInfix(search, "error") then Failure else Success
    else
      HomeScreen
  }

  // ---------------------------------------------------------------- the reducer

  /** The record the reducer returns; `initialView` is the view computed when the page loaded. */
  function NextState(initialView: View, s: AuthState, a: Action): (r: AuthState)
    ensures a.AuthenticationStart? ==>
      r.isAuthenticating && r.error == None &&
      r.view == s.view && r.isCheckingToken == s.isCheckingToken && r.accessToken == s.accessToken
    ensures a.AuthenticationSuccess? ==>
      r.view == Authenticated && r.accessToken == Some(a.accessToken) && !r.isAuthenticating &&
      r.error == s.error && r.isCheckingToken == s.isCheckingToken
    ensures a.AuthenticationFailure? ==>
      !r.isAuthenticating && r.error == Some(a.message) &&
      r.view == s.view && r.accessToken == s.accessToken && r.isCheckingToken == s.isCheckingToken
    ensures a.TokenValid? ==>
      r.view == Authenticated && !r.isCheckingToken &&
      r.isAuthenticating == s.isAuthenticating && r.accessToken == s.accessToken && r.error == s.error
    ensures a.TokenCheckComplete? ==>
      !r.isCheckingToken &&
      r.view == s.view && r.isAuthenticating == s.isAuthenticating &&
      r.accessToken == s.accessToken && r.error == s.error
    ensures a.Logout? ==>
      r.view == initialView && r.accessToken == None &&
      !r.isCheckingToken && !r.isAuthenticating && r.error == None
    ensures a.SetView? ==>
      r.view == a.view &&
      r.isAuthenticating == s.isAuthenticating && r.isCheckingToken == s.isCheckingToken &&
      r.accessToken == s.accessToken && r.error == s.error
  {
    match a
    case AuthenticationStart => s.(isAuthenticating := true, error := None)
    case AuthenticationSuccess(token, _, _) =>
      s.(isAuthenticating := false, accessToken := Some(token), view := Authenticated)
    case AuthenticationFailure(message) => s.(isAuthenticating := false, error := Some(message))
    case TokenValid => s.(isCheckingToken := false, view := Authenticated)
    case TokenCheckComplete => s.(isCheckingToken := false)
    case Logout => AuthState(initialView, false, false, None, None)
    case SetView(v) => s.(view := v)
  }

  predicate IsSessionKey(k: string) {
    k == AccessTokenKey || k == RefreshTokenKey || k == ExpiresAtKey
  }

  /** The store after the reducer's writes: a success stores all three session keys, a logout removes them. */
  function StoreAfter(entries: map<string, string>, a: Action): (r: map<string, string>)
    ensures a.AuthenticationSuccess? ==>
      Get(r, AccessTokenKey) == Some(a.accessToken) &&
      Get(r, RefreshTokenKey) == Some(a.refreshToken) &&
      Get(r, ExpiresAtKey) == Some(Decimal.IntToString(a.expiresAt))
    ensures a.Logout? ==>
      Get(r, AccessTokenKey) == None && Get(r, RefreshTokenKey) == None && Get(r, ExpiresAtKey) == None
    ensures forall k :: !IsSessionKey(k) ==> Get(r, k) == Get(entries, k)
    ensures !a.AuthenticationSuccess? && !a.Logout? ==> r == entries
  {
    match a
    case AuthenticationSuccess(token, refresh, expiresAt) =>
      entries[AccessTokenKey := token][RefreshTokenKey := refresh][ExpiresAtKey := Decimal.IntToString(expiresAt)]
    case Logout => entries - {AccessTokenKey, RefreshTokenKey, ExpiresAtKey}
    case _ => entries
  }

  /** The reducer: performs the store writes of the action in order and returns the next state. */
  method AuthReducer(store: Store, initialView: View, s: AuthState, a: Action) returns (r: AuthState)
    modifies store
    ensures r == NextState(initialView, s, a)
    ensures store.entries == StoreAfter(old(store.entries), a)
  {
    match a {
      case AuthenticationSuccess(token, refresh, expiresAt) =>
        store.SetItem(AccessTokenKey, token);
        store.SetItem(RefreshTokenKey, refresh);
        store.SetItem(ExpiresAtKey, Decimal.IntToString(expiresAt));
      case Logout =>
        store.RemoveItem(AccessTokenKey);
        store.RemoveItem(RefreshTokenKey);
        store.RemoveItem(ExpiresAtKey);
      case _ =>
    }
    r := NextState(initialView, s, a);
  }

  /** The state's cached access token agrees with the store's, and every action keeps it so. */
  lemma ReducerKeepsTokenCached(initialView: View, s: AuthState, entries: map<string, string>, a: Action)
    requires s.accessToken == Get(entries, AccessTokenKey)
    ensures NextState(initialView, s, a).accessToken == Get(StoreAfter(entries, a), AccessTokenKey)
  {
  }

  /** The store holds the refresh token and the expiry together or neither. */
  predicate SessionPaired(entries: map<string, string>) {
    (RefreshTokenKey in entries <==> ExpiresAtKey in entries)
  }

  lemma ReducerKeepsSessionPaired(entries: map<string, string>, a: Action)
    requires SessionPaired(entries)
    ensures SessionPaired(StoreAfter(entries, a))
  {
  }

  /** Only a successful exchange and a logout change the access token or the store. */
  lemma OnlySuccessAndLogoutTouchSession(initialView: View, s: AuthState, entries: map<string, string>, a: Action)
    requires !a.AuthenticationSuccess? && !a.Logout?
    ensures NextState(initialView, s, a).accessToken == s.accessToken
    ensures StoreAfter(entries, a) == entries
  {
  }

  // ---------------------------------------------------------------- the token exchange

  /**
   * The form parameters of the token request (sections 4.1.3 and 6 of
   * RFC 6749): a refresh grant when an access token is held, carrying the
   * stored refresh token; otherwise an authorization-code grant carrying
   * the code received from the popup.
   */
  function TokenParams(accessToken: Option<string>, storedRefreshToken: Option<string>, code: Option<string>,
                       clientId: string, clientSecret: string): (params: map<string, string>)
    ensures "grant_type" in params && (params["grant_type"] == "refresh_token" <==> Truthy(accessToken))
    ensures params["grant_type"] in {"refresh_token", "authorization_code"}
    ensures "code" in params <==> !Truthy(accessToken) && Truthy(code)
    ensures "code" in params ==> params["code"] == code.value
    ensures "refresh_token" in params <==> Truthy(accessToken) && Truthy(storedRefreshToken)
    ensures "refresh_token" in params ==> params["refresh_token"] == storedRefreshToken.value
    ensures "client_id" in params && params["client_id"] == clientId
    ensures "client_secret" in params && params["client_secret"] == clientSecret
    ensures forall k :: k in params ==> k in {"client_secret", "client_id", "grant_type", "code", "refresh_token"}
  {
    var base := map["client_secret" := clientSecret, "client_id" := clientId,
                    "grant_type" := if Truthy(accessToken) then "refresh_token" else "authorization_code"];
    var withCode := if !Truthy(accessToken) && Truthy(code) then base["code" := code.value] else base;
    if Truthy(accessToken) && Truthy(storedRefreshToken) then withCode["refresh_token" := storedRefreshToken.value]
    else withCode
  }

  /** Builds the request parameters one entry at a time, as the exchange does. */
  method BuildTokenParams(accessToken: Option<string>, storedRefreshToken: Option<string>, code: Option<string>,
                          clientId: string, clientSecret: string) returns (params: map<string, string>)
    ensures params == TokenParams(accessToken, storedRefreshToken, code, clientId, clientSecret)
    ensures "grant_type" in params &&
      (params["grant_type"] == "refresh_token" <==> Truthy(accessToken)) &&
      (params["grant_type"] == "authorization_code" <==> !Truthy(accessToken))
    ensures "code" in params <==> !Truthy(accessToken) && Truthy(code)
    ensures "code" in params ==> params["code"] == code.value
    ensures "refresh_token" in params <==> Truthy(accessToken) && Truthy(storedRefreshToken)
    ensures "refresh_token" in params ==> params["refresh_token"] == storedRefreshToken.value
    ensures "client_id" in params && params["client_id"] == clientId
    ensures "client_secret" in params && params["client_secret"] == clientSecret
    ensures forall k :: k in params ==> k in {"client_secret", "client_id", "grant_type", "code", "refresh_token"}
  {
    params := map[];
    params := params["client_secret" := clientSecret];
    params := params["client_id" := clientId];
    params := params["grant_type" := if Truthy(accessToken) then "refresh_token" else "authorization_code"];
    if !Truthy(accessToken) && Truthy(code) {
      params := params["code" := code.value];
    }
    if Truthy(accessToken) && Truthy(storedRefreshToken) {
      params := params["refresh_token" := storedRefreshToken.value];
    }
  }

  /**
   * The request names a client, one of the two grant types of RFC 6749
   * (sections 4.1.3 and 6), and carries the credential its grant needs: the
   * code for an authorization-code grant, the refresh token for a refresh
   * grant. This is not full conformance: section 4.1.3 also asks for the
   * `redirect_uri` of the authorization request, which the exchange never
   * sends.
   */
  predicate CarriesGrantCredential(params: map<string, string>) {
    && "client_id" in params
    && "grant_type" in params
    && (params["grant_type"] == "authorization_code" || params["grant_type"] == "refresh_token")
    && (params["grant_type"] == "authorization_code" ==> "code" in params && params["code"] != "")
    && (params["grant_type"] == "refresh_token" ==> "refresh_token" in params && params["refresh_token"] != "")
  }

  /** The exchange's request carries its grant's credential exactly when that credential is at hand. */
  lemma TokenParamsCarriesCredentialIff(accessToken: Option<string>, storedRefreshToken: Option<string>, code: Option<string>,
                                 clientId: string, clientSecret: string)
    ensures CarriesGrantCredential(TokenParams(accessToken, storedRefreshToken, code, clientId, clientSecret)) <==>
      (if Truthy(accessToken) then Truthy(storedRefreshToken) else Truthy(code))
  {
    var p := TokenParams(accessToken, storedRefreshToken, code, clientId, clientSecret);
    assert "grant_type" in p && "client_id" in p;
    if Truthy(accessToken) {
      assert p["grant_type"] == "refresh_token";
    } else {
      assert p["grant_type"] == "authorization_code";
    }
  }

  /** What the token endpoint gave back: a thrown error (network, body) or a response with its status. */
  datatype TokenResponse =
    | Thrown(message: string)
    | Received(ok: bool, status: int, access_token: string, refresh_token: string, expires_at: int)

  /** The single action an exchange ends in. */
  function ExchangeOutcome(response: TokenResponse): (a: Action)
    ensures a.AuthenticationSuccess? || a.AuthenticationFailure?
    ensures a.AuthenticationSuccess? <==> response.Received? && response.ok
    ensures a.AuthenticationSuccess? ==>
      a.accessToken == response.access_token && a.refreshToken == response.refresh_token &&
      a.expiresAt == response.expires_at
    ensures response.Thrown? ==> a == AuthenticationFailure(response.message)
    ensures response.Received? && !response.ok ==>
      a == AuthenticationFailure("Response status: " + Decimal.IntToString(response.status))
  {
    match response
    case Thrown(message) => AuthenticationFailure(message)
    case Received(ok, status, token, refresh, expiresAt) =>
      if ok then AuthenticationSuccess(token, refresh, expiresAt)
      else AuthenticationFailure("Response status: " + Decimal.IntToString(status))
  }

  /** A failed exchange leaves the view and the token alone; every exchange leaves the token check flag alone. */
  lemma ExchangeKeepsCheckFlag(initialView: View, s: AuthState, response: TokenResponse)
    ensures NextState(initialView, s, ExchangeOutcome(response)).isCheckingToken == s.isCheckingToken
    ensures !(response.Received? && response.ok) ==>
      var r := NextState(initialView, s, ExchangeOutcome(response));
      r.view == s.view && r.accessToken == s.accessToken && r.error.Some? && !r.isAuthenticating
  {
  }

  // ---------------------------------------------------------------- startup check

  datatype StartupStep = RefreshSession | ConfirmToken | FinishCheck

  /** `Number(expiresAt) * 1000 < Date.now()`; a value that is not a number is never expired. */
  predicate TokenExpired(expiresAt: string, now: int): (expired: bool)
    ensures Decimal.ParseNumber(expiresAt).None? ==> !expired
    ensures forall seconds :: expiresAt == Decimal.IntToString(seconds) ==> (expired <==> seconds * 1000 < now)
  {
    Decimal.ParseNumberOfEveryIntToString();
    match Decimal.ParseNumber(expiresAt)
    case Some(seconds) => seconds * 1000 < now
    case None => false
  }

  /**
   * The check run once on mount: with a cached token and both stored
   * session values, refresh when expired and confirm otherwise; without a
   * full session, only finish the check.
   */
  function StartupDecision(accessToken: Option<string>, entries: map<string, string>, now: int): (step: StartupStep)
    ensures step == FinishCheck <==>
      !(Truthy(accessToken) && Truthy(Get(entries, ExpiresAtKey)) && Truthy(Get(entries, RefreshTokenKey)))
    ensures step == RefreshSession <==>
      Truthy(accessToken) && Truthy(Get(entries, ExpiresAtKey)) && Truthy(Get(entries, RefreshTokenKey)) &&
      TokenExpired(entries[ExpiresAtKey], now)
  {
    if Truthy(accessToken) && Truthy(Get(entries, ExpiresAtKey)) && Truthy(Get(entries, RefreshTokenKey)) then
      if TokenExpired(entries[ExpiresAtKey], now) then RefreshSession else ConfirmToken
    else
      FinishCheck
  }

  /**
   * A session stored by a successful exchange is recognised on the next
   * load: confirmed without any request while unexpired, refreshed once
   * expired.
   */
  lemma {:induction false} StoredSessionRoundTrip(initialView: View, s: AuthState, entries: map<string, string>,
                                                  token: string, refresh: string, expiresAt: int, now: int)
    requires token != "" && refresh != ""
    ensures
      var a := AuthenticationSuccess(token, refresh, expiresAt);
      StartupDecision(NextState(initialView, s, a).accessToken, StoreAfter(entries, a), now) ==
        if expiresAt * 1000 < now then RefreshSession else ConfirmToken
  {
    var a := AuthenticationSuccess(token, refresh, expiresAt);
    var e := StoreAfter(entries, a);
    Decimal.ParseNumberOfIntToString(expiresAt);
    assert e[ExpiresAtKey] == Decimal.IntToString(expiresAt);
    assert Decimal.IntToString(expiresAt) != "";
  }

  /** After a logout the next load makes no request and only finishes the check. */
  lemma LogoutEndsSession(initialView: View, s: AuthState, entries: map<string, string>, now: int)
    ensures StartupDecision(NextState(initialView, s, Logout).accessToken, StoreAfter(entries, Logout), now) == FinishCheck
  {
  }

  /** A code-grant request carries its code but never the `redirect_uri` of the authorization request. */
  lemma CodeGrantOmitsRedirectUri(code: string, clientId: string, clientSecret: string)
    requires code != ""
    ensures
      var p := TokenParams(None, None, Some(code), clientId, clientSecret);
      CarriesGrantCredential(p) && p["grant_type"] == "authorization_code" && "redirect_uri" !in p
  {
    TokenParamsCarriesCredentialIff(None, None, Some(code), clientId, clientSecret);
  }

  /** The refresh the startup check triggers is a refresh-token grant carrying the stored refresh token. */
  lemma StartupRefreshCarriesRefreshToken(accessToken: Option<string>, entries: map<string, string>, now: int,
                                   clientId: string, clientSecret: string)
    requires StartupDecision(accessToken, entries, now) == RefreshSession
    ensures
      var p := TokenParams(accessToken, Get(entries, RefreshTokenKey), None, clientId, clientSecret);
      CarriesGrantCredential(p) && p["grant_type"] == "refresh_token" && p["refresh_token"] == entries[RefreshTokenKey]
  {
    TokenParamsCarriesCredentialIff(accessToken, Get(entries, RefreshTokenKey), None, clientId, clientSecret);
  }

  // ---------------------------------------------------------------- cross-window messages

  /** The payload of a window message: its `type` and, for an authorization code, the `code`. */
  datatype MessageData = MessageData(kind: string, code: Option<string>)

  /** A received message event; `data` is `None` when the event carries no object. */
  datatype MessageEvent = MessageEvent(origin: string, data: Option<MessageData>)

  datatype MessageEffect = Ignore | ExchangeCode(code: string) | DenyAccess

  /**
   * The message handler's decision. A message from any origin other than
   * the app's own is discarded before its payload is looked at.
   */
  function AuthMessageEffect(appOrigin: string, e: MessageEvent): (r: MessageEffect)
    ensures e.origin != appOrigin ==> r == Ignore
    ensures r.ExchangeCode? <==>
      e.origin == appOrigin && e.data.Some? && e.data.value.kind == "strava-auth-code" && Truthy(e.data.value.code)
    ensures r.ExchangeCode? ==> r.code == e.data.value.code.value
    ensures r == DenyAccess <==>
      e.origin == appOrigin && e.data.Some? && e.data.value.kind == "strava-permission-denied"
  {
    if e.origin != appOrigin then Ignore
    else if e.data.None? then Ignore
    else if e.data.value.kind == "strava-auth-code" && Truthy(e.data.value.code) then ExchangeCode(e.data.value.code.value)
    else if e.data.value.kind == "strava-permission-denied" then DenyAccess
    else Ignore
  }

  /** The messages the popup posts to its opener after the provider redirects it back. */
  function RelayedMessages(codeParam: Option<string>, errorParam: Option<string>, hasOpener: bool): (sent: seq<MessageData>)
    ensures !hasOpener ==> sent == []
    ensures |sent| <= 2
    ensures MessageData("strava-auth-code", codeParam) in sent <==>
      hasOpener && Truthy(codeParam)
    ensures MessageData("strava-permission-denied", None) in sent <==>
      hasOpener && Truthy(errorParam)
    ensures forall i :: 0 <= i < |sent| ==>
      sent[i] == MessageData("strava-auth-code", codeParam) || sent[i] == MessageData("strava-permission-denied", None)
    ensures forall i, j :: 0 <= i < j < |sent| ==> sent[i].kind == "strava-auth-code" && sent[j].kind == "strava-permission-denied"
  {
    (if Truthy(codeParam) && hasOpener then [MessageData("strava-auth-code", codeParam)] else []) +
    (if Truthy(errorParam) && hasOpener then [MessageData("strava-permission-denied", None)] else [])
  }

  /**
   * Every message the popup relays, arriving from the app's own origin,
   * leads the opener to exchange the popup's code or to report the denial.
   */
  lemma RelayedMessagesReachHandler(appOrigin: string, codeParam: Option<string>, errorParam: Option<string>)
    ensures forall m <- RelayedMessages(codeParam, errorParam, true) ::
      AuthMessageEffect(appOrigin, MessageEvent(appOrigin, Some(m))) in {ExchangeCode(codeParam.GetOr("")), DenyAccess}
    ensures Truthy(codeParam) <==>
      exists m <- RelayedMessages(codeParam, errorParam, true) ::
        AuthMessageEffect(appOrigin, MessageEvent(appOrigin, Some(m))) == ExchangeCode(codeParam.GetOr(""))
    ensures RelayedMessages(codeParam, errorParam, false) == []
  {
    var ms := RelayedMessages(codeParam, errorParam, true);
    if Truthy(codeParam) {
      assert ms[0] == MessageData("strava-auth-code", codeParam) && ms[0] in ms;
      assert AuthMessageEffect(appOrigin, MessageEvent(appOrigin, Some(ms[0]))) == ExchangeCode(codeParam.value);
    }
  }

  // ---------------------------------------------------------------- the hook

  /**
   * The hook's state cell, its reducer and the store it writes through.
   * `Valid` says the cached access token is the stored one.
   */
  class AuthHook {
    const initialView: View
    var state: AuthState
    const store: Store
    const clientId: string
    const clientSecret: string

    ghost predicate Valid()
      reads this, store
    {
      state.accessToken == store.GetItem(AccessTokenKey)
    }

    /** The initial state: view from the location, not authenticating, checking, token from the store, no error. */
    constructor (pathname: string, search: string, store: Store, clientId: string, clientSecret: string)
      ensures Valid() && this.store == store
      ensures initialView == GetInitialView(pathname, search)
      ensures state == AuthState(initialView, false, true, store.GetItem(AccessTokenKey), None)
      ensures this.clientId == clientId && this.clientSecret == clientSecret
    {
      initialView := GetInitialView(pathname, search);
      state := AuthState(GetInitialView(pathname, search), false, true, store.GetItem(AccessTokenKey), None);
      this.store := store;
      this.clientId := clientId;
      this.clientSecret := clientSecret;
    }

    method Dispatch(a: Action)
      requires Valid()
      modifies this, store
      ensures Valid()
      ensures state == NextState(initialView, old(state), a)
      ensures store.entries == StoreAfter(old(store.entries), a)
    {
      ReducerKeepsTokenCached(initialView, state, store.entries, a);
      state := AuthReducer(store, initialView, state, a);
    }

    /**
     * One token exchange: the request parameters it sends, then the single
     * success or failure action the response leads to.
     */
    method ExchangeToken(code: Option<string>, response: TokenResponse) returns (params: map<string, string>)
      requires Valid()
      modifies this, store
      ensures Valid()
      ensures params == TokenParams(old(state.accessToken), Get(old(store.entries), RefreshTokenKey), code,
                                    clientId, clientSecret)
      ensures state == NextState(initialView, old(state), ExchangeOutcome(response))
      ensures store.entries == StoreAfter(old(store.entries), ExchangeOutcome(response))
    {
      params := BuildTokenParams(state.accessToken, store.GetItem(RefreshTokenKey), code, clientId, clientSecret);
      Dispatch(ExchangeOutcome(response));
    }

    /**
     * The startup check; `response` is what a refresh would receive, and is
     * used only when one is made. `sent` is the request made, if any.
     */
    method CheckStoredToken(now: int, response: TokenResponse) returns (step: StartupStep, sent: Option<map<string, string>>)
      requires Valid()
      modifies this, store
      ensures Valid()
      ensures step == StartupDecision(old(state.accessToken), old(store.entries), now)
      ensures step == RefreshSession ==>
        sent == Some(TokenParams(old(state.accessToken), Get(old(store.entries), RefreshTokenKey), None,
                                 clientId, clientSecret))
      ensures step != RefreshSession ==> sent == None
      ensures step == RefreshSession ==>
        state == NextState(initialView, old(state), ExchangeOutcome(response)) &&
        store.entries == StoreAfter(old(store.entries), ExchangeOutcome(response))
      ensures step == ConfirmToken ==>
        state == NextState(initialView, old(state), TokenValid) && store.entries == old(store.entries)
      ensures step == FinishCheck ==>
        state == NextState(initialView, old(state), TokenCheckComplete) && store.entries == old(store.entries)
    {
      step := StartupDecision(state.accessToken, store.entries, now);
      match step {
        case RefreshSession =>
          var params := ExchangeToken(None, response);
          sent := Some(params);
        case ConfirmToken =>
          Dispatch(TokenValid);
          sent := None;
        case FinishCheck =>
          Dispatch(TokenCheckComplete);
          sent := None;
      }
    }

    /**
     * The message handler; `response` is what an exchange would receive, used
     * only when one is made. `sent` is the request made, if any.
     */
    method HandleAuthMessage(appOrigin: string, e: MessageEvent, response: TokenResponse)
      returns (effect: MessageEffect, sent: Option<map<string, string>>)
      requires Valid()
      modifies this, store
      ensures Valid()
      ensures effect == AuthMessageEffect(appOrigin, e)
      ensures effect.ExchangeCode? ==>
        sent == Some(TokenParams(old(state.accessToken), Get(old(store.entries), RefreshTokenKey), Some(effect.code),
                                 clientId, clientSecret))
      ensures !effect.ExchangeCode? ==> sent == None
      ensures effect == Ignore ==> state == old(state) && store.entries == old(store.entries)
      ensures effect.ExchangeCode? ==>
        state == NextState(initialView, old(state), ExchangeOutcome(response)) &&
        store.entries == StoreAfter(old(store.entries), ExchangeOutcome(response))
      ensures effect == DenyAccess ==>
        state == NextState(initialView, old(state), AuthenticationFailure(AccessDeniedMessage)) &&
        store.entries == old(store.entries)
    {
      effect := AuthMessageEffect(appOrigin, e);
      match effect {
        case Ignore =>
          sent := None;
        case ExchangeCode(code) =>
          var params := ExchangeToken(Some(code), response);
          sent := Some(params);
        case DenyAccess =>
          Dispatch(AuthenticationFailure(AccessDeniedMessage));
          sent := None;
      }
    }

    /** Starts authenticating; opening the provider's page in a new window is not modelled. */
    method AuthenticateWithStrava()
      requires Valid()
      modifies this, store
      ensures Valid()
      ensures state == NextState(initialView, old(state), AuthenticationStart)
      ensures store.entries == old(store.entries)
    {
      Dispatch(AuthenticationStart);
    }

    method LogOut()
      requires Valid()
      modifies this, store
      ensures Valid()
      ensures state == AuthState(initialView, false, false, None, None)
      ensures forall k :: IsSessionKey(k) ==> k !in store.entries
      ensures forall k :: !IsSessionKey(k) ==> Get(store.entries, k) == Get(old(store.entries), k)
    {
      Dispatch(Logout);
    }

    method SetCurrentView(v: View)
      requires Valid()
      modifies this, store
      ensures Valid()
      ensures state == old(state).(view := v)
      ensures store.entries == old(store.entries)
    {
      Dispatch(SetView(v));
    }
  }
}
