/**
 * The OAuth connection server (auth.ts): the Google sign-in flow that registers
 * a user for automatic drafting, and the settings page that turns drafting on
 * or off or disconnects the account.
 *
 * Two in-memory stores are mutated by the handlers: `stateStore` (OAuth `state`
 * value to expiry, the CSRF protection of section 10.12 of RFC 6749) and
 * `settingsStore` (settings token to e-mail and expiry). Both kinds of token are
 * single use: a lookup deletes the entry before checking it.
 *
 * Random tokens, the clock, the Google token and user-info responses and the
 * user table's answers are parameters.
 */
module Auth {
  import opened Wrappers
  import opened Strings

  /** The capacity limit on registered users. */
  const MaxUsers: nat := 5

  datatype OAuthConfig = OAuthConfig(clientId: string, clientSecret: string, redirectUri: string)

  const MissingClientId := "GOOGLE_CLIENT_ID が未設定です"
  const MissingClientSecret := "GOOGLE_CLIENT_SECRET が未設定です"
  const MissingRedirectUri := "GOOGLE_REDIRECT_URI が未設定です"

  /** `validateConfig`: the first missing setting, in the order id, secret, redirect URI. */
  function ValidateConfig(cfg: OAuthConfig): (r: Option<string>)
    ensures r.None? <==> cfg.clientId != "" && cfg.clientSecret != "" && cfg.redirectUri != ""
    ensures r == Some(MissingClientId) <==> cfg.clientId == ""
    ensures r == Some(MissingClientSecret) <==> cfg.clientId != "" && cfg.clientSecret == ""
    ensures r == Some(MissingRedirectUri) <==> cfg.clientId != "" && cfg.clientSecret != "" && cfg.redirectUri == ""
  {
    if cfg.clientId == "" then Some(MissingClientId)
    else if cfg.clientSecret == "" then Some(MissingClientSecret)
    else if cfg.redirectUri == "" then Some(MissingRedirectUri)
    else None
  }

  // ---------------------------------------------------------------------
  // single-use tokens
  // ---------------------------------------------------------------------

  datatype SettingsEntry = SettingsEntry(email: string, expiresAt: int)

  /** `consumeSettingsToken`: the entry is deleted whatever it holds; its e-mail is
    * returned only when it was present and had not expired (`expiresAt < now`). */
  function ConsumeSettings(store: map<string, SettingsEntry>, token: string, now: int)
    : (r: (map<string, SettingsEntry>, Option<string>))
    ensures r.0 == store - {token}
    ensures r.1.Some? <==> token in store && now <= store[token].expiresAt
    ensures r.1.Some? ==> r.1.value == store[token].email
  {
    var entry := if token in store then Some(store[token]) else None;
    if entry.None? || entry.value.expiresAt < now then (store - {token}, None)
    else (store - {token}, Some(entry.value.email))
  }

  /** The `/auth/callback` state check: the stored expiry is deleted, and the state
    * passes only when one was stored, is truthy (non-zero) and has not passed. */
  function ConsumeState(store: map<string, int>, state: string, now: int): (r: (map<string, int>, bool))
    ensures r.0 == store - {state}
    ensures r.1 <==> state in store && store[state] != 0 && now <= store[state]
  {
    var exp := if state in store then Some(store[state]) else None;
    (store - {state}, !(exp.None? || exp.value == 0 || exp.value < now))
  }

  /** A settings token can be consumed once: whatever the first consume answered,
    * the second answers null. */
  lemma SettingsTokenSingleUse(store: map<string, SettingsEntry>, token: string, now1: int, now2: int)
    ensures ConsumeSettings(ConsumeSettings(store, token, now1).0, token, now2).1 == None
  {
  }

  /** A freshly issued settings token yields its e-mail exactly until its lifetime has
    * passed, whatever was stored under that token before. */
  lemma IssuedSettingsTokenLifetime(store: map<string, SettingsEntry>, token: string, email: string,
                                    issuedAt: int, ttlMs: int, now: int)
    ensures var r := ConsumeSettings(store[token := SettingsEntry(email, issuedAt + ttlMs)], token, now).1;
            && (r == Some(email) <==> now <= issuedAt + ttlMs)
            && (r == None <==> issuedAt + ttlMs < now)
  {
  }

  /** An OAuth `state` passes at most once. */
  lemma StateSingleUse(store: map<string, int>, state: string, now1: int, now2: int)
    ensures !ConsumeState(ConsumeState(store, state, now1).0, state, now2).1
  {
  }

  /** A `state` issued at `issuedAt` passes exactly until its lifetime has passed (and
    * its expiry is not the falsy 0). */
  lemma IssuedStateLifetime(store: map<string, int>, state: string, issuedAt: int, ttlMs: int, now: int)
    ensures ConsumeState(store[state := issuedAt + ttlMs], state, now).1
            <==> issuedAt + ttlMs != 0 && now <= issuedAt + ttlMs
  {
  }

  /** Consuming one token never touches another. */
  lemma ConsumeLeavesOtherTokens(store: map<string, SettingsEntry>, token: string, other: string, now: int)
    requires other != token
    ensures other in ConsumeSettings(store, token, now).0 <==> other in store
    ensures other in store ==> ConsumeSettings(store, token, now).0[other] == store[other]
  {
  }

  // ---------------------------------------------------------------------
  // the callback's decision
  // ---------------------------------------------------------------------

  datatype CallbackQuery = CallbackQuery(code: Option<string>, state: Option<string>, error: Option<string>)

  /** The token endpoint's answer: `refresh_token` and `access_token`, when present. */
  datatype TokenResponse = TokenResponse(refreshToken: Option<string>, accessToken: Option<string>)

  /** A thrown HTTP error: `response.status`, `response.data.error_description`,
    * `response.data.error` and the error's `message`, when present. */
  datatype RemoteFailure = RemoteFailure(
    status: Option<int>, errorDescription: Option<string>, error: Option<string>, message: Option<string>)

  /** The answers of the calls the callback makes after the state check: the token
    * exchange, the user-info request (its `email` field), and the user table (whether
    * the user exists, the user count, the upsert, and `enabled` as read back after the
    * upsert). Each of them may throw, which the catch block turns into a failure page. */
  datatype Remote = Remote(
    exchange: Result<TokenResponse, RemoteFailure>,
    userInfoEmail: Result<Option<string>, RemoteFailure>,
    existing: Result<bool, RemoteFailure>,
    userCount: Result<nat, RemoteFailure>,
    upsert: Result<(), RemoteFailure>,
    enabledAfterUpsert: Result<Option<bool>, RemoteFailure>)

  /** The response of `/auth/callback`. `Registered` is the only outcome that upserts
    * the user (with its refresh token) and issues a settings token. */
  datatype CallbackPage =
    | ConfigMissing(message: string)
    | OAuthError(error: string)
    | MissingCodeOrState
    | InvalidState
    | NoRefreshToken
    | NoAccessToken
    | NoEmail
    | CapacityFull
    | Registered(email: string, refreshToken: string, enabled: bool, settingsToken: string)
    | CallbackFailed(message: string, status: int)

  /** The catch block: status `e.response.status || 500`, message the first truthy of
    * the description, the error code and the message, else `unknown_error`. */
  function FailurePage(f: RemoteFailure): (p: CallbackPage)
    ensures p.CallbackFailed?
    ensures p.status == if f.status.Some? && f.status.value != 0 then f.status.value else 500
    ensures Truthy(f.errorDescription) ==> p.message == f.errorDescription.value
    ensures !Truthy(f.errorDescription) && Truthy(f.error) ==> p.message == f.error.value
    ensures !Truthy(f.errorDescription) && !Truthy(f.error) && Truthy(f.message) ==> p.message == f.message.value
    ensures !Truthy(f.errorDescription) && !Truthy(f.error) && !Truthy(f.message) ==> p.message == "unknown_error"
  {
    var status := if f.status.Some? && f.status.value != 0 then f.status.value else 500;
    var message :=
      if Truthy(f.errorDescription) then f.errorDescription.value
      else if Truthy(f.error) then f.error.value
      else if Truthy(f.message) then f.message.value
      else "unknown_error";
    CallbackFailed(message, status)
  }

  /** Whether the callback gets as far as looking up (and deleting) its `state`. */
  predicate ReachesStateCheck(cfg: OAuthConfig, q: CallbackQuery)
  {
    ValidateConfig(cfg).None? && !Truthy(q.error) && Truthy(q.code) && Truthy(q.state)
  }

  /** Everything after a passing state check. */
  function AfterState(remote: Remote, settingsToken: string): CallbackPage
  {
    match remote.exchange
    case Failure(f) => FailurePage(f)
    case Success(t) =>
      if !Truthy(t.refreshToken) then NoRefreshToken
      else if !Truthy(t.accessToken) then NoAccessToken
      else
        match remote.userInfoEmail
        case Failure(f) => FailurePage(f)
        case Success(e) =>
          var email := Trim(e.UnwrapOr(""));
          if email == "" then NoEmail
          else UserTable(remote, email, t.refreshToken.value, settingsToken)
  }

  /** The capacity check lets the user through: the lookup answered, and the user either
    * exists or is new with fewer than `MaxUsers` registered. */
  predicate CapacityAdmits(remote: Remote)
  {
    remote.existing.Success?
    && (remote.existing.value || (remote.userCount.Success? && remote.userCount.value < MaxUsers))
  }

  /** The user-table steps: the lookup, the count (for a new user only), the upsert and
    * the read-back, each of which may throw. */
  function UserTable(remote: Remote, email: string, refreshToken: string, settingsToken: string): CallbackPage
  {
    match remote.existing
    case Failure(f) => FailurePage(f)
    case Success(existing) =>
      if !existing && remote.userCount.Failure? then FailurePage(remote.userCount.error)
      else if !existing && remote.userCount.value >= MaxUsers then CapacityFull
      else if remote.upsert.Failure? then FailurePage(remote.upsert.error)
      else
        match remote.enabledAfterUpsert
        case Failure(f) => FailurePage(f)
        case Success(enabled) => Registered(email, refreshToken, enabled.UnwrapOr(true), settingsToken)
  }

  /** `/auth/callback`'s response for the state store it finds. */
  function Callback(cfg: OAuthConfig, q: CallbackQuery, states: map<string, int>, now: int,
                    remote: Remote, settingsToken: string): CallbackPage
  {
    var err := ValidateConfig(cfg);
    if err.Some? then ConfigMissing(err.value)
    else if Truthy(q.error) then OAuthError(q.error.value)
    else if !Truthy(q.code) || !Truthy(q.state) then MissingCodeOrState
    else if !ConsumeState(states, q.state.value, now).1 then InvalidState
    else AfterState(remote, settingsToken)
  }

  /** A user is registered only through a stored, unexpired `state`, and only when the
    * user already exists or fewer than `MaxUsers` are registered. */
  lemma RegistrationRequiresStateAndCapacity(cfg: OAuthConfig, q: CallbackQuery, states: map<string, int>,
                                             now: int, remote: Remote, settingsToken: string)
    requires Callback(cfg, q, states, now, remote, settingsToken).Registered?
    ensures ReachesStateCheck(cfg, q)
    ensures q.state.value in states && states[q.state.value] != 0 && now <= states[q.state.value]
    ensures CapacityAdmits(remote)
    ensures remote.upsert.Success? && remote.enabledAfterUpsert.Success?
    ensures remote.exchange.Success? && Truthy(remote.exchange.value.refreshToken)
    ensures Callback(cfg, q, states, now, remote, settingsToken).refreshToken == remote.exchange.value.refreshToken.value
  {
  }

  /** The capacity page is shown exactly to a new user when `MaxUsers` are registered
    * and every earlier step succeeded; an existing user is never refused by it. */
  lemma CapacityGate(cfg: OAuthConfig, q: CallbackQuery, states: map<string, int>, now: int,
                     remote: Remote, settingsToken: string)
    requires ReachesStateCheck(cfg, q) && ConsumeState(states, q.state.value, now).1
    requires remote.exchange.Success?
    requires Truthy(remote.exchange.value.refreshToken) && Truthy(remote.exchange.value.accessToken)
    requires remote.userInfoEmail.Success? && Trim(remote.userInfoEmail.value.UnwrapOr("")) != ""
    ensures Callback(cfg, q, states, now, remote, settingsToken) == CapacityFull
            <==> remote.existing.Success? && !remote.existing.value && remote.userCount.Success?
                 && remote.userCount.value >= MaxUsers
    ensures remote.existing.Success? && remote.existing.value && remote.upsert.Success? && remote.enabledAfterUpsert.Success?
            ==> Callback(cfg, q, states, now, remote, settingsToken).Registered?
  {
  }

  /** Once the user table is reached, a throw from any of its calls gives the catch
    * block's failure page and registers nobody. */
  lemma UserTableFailureFails(cfg: OAuthConfig, q: CallbackQuery, states: map<string, int>, now: int,
                              remote: Remote, settingsToken: string)
    requires ReachesStateCheck(cfg, q) && ConsumeState(states, q.state.value, now).1
    requires remote.exchange.Success?
    requires Truthy(remote.exchange.value.refreshToken) && Truthy(remote.exchange.value.accessToken)
    requires remote.userInfoEmail.Success? && Trim(remote.userInfoEmail.value.UnwrapOr("")) != ""
    ensures remote.existing.Failure? ==>
      Callback(cfg, q, states, now, remote, settingsToken) == FailurePage(remote.existing.error)
    ensures remote.existing.Success? && !remote.existing.value && remote.userCount.Failure? ==>
      Callback(cfg, q, states, now, remote, settingsToken) == FailurePage(remote.userCount.error)
    ensures CapacityAdmits(remote) && remote.upsert.Failure? ==>
      Callback(cfg, q, states, now, remote, settingsToken) == FailurePage(remote.upsert.error)
    ensures (remote.existing.Failure? || remote.upsert.Failure? || remote.enabledAfterUpsert.Failure?) ==>
      !Callback(cfg, q, states, now, remote, settingsToken).Registered?
  {
  }

  /** Replaying a callback with a `state` that a callback has already looked up is
    * refused, whatever the first callback's outcome was. */
  lemma ReplayedStateRefused(cfg: OAuthConfig, q: CallbackQuery, states: map<string, int>, now2: int,
                             remote: Remote, settingsToken: string)
    requires ReachesStateCheck(cfg, q)
    ensures Callback(cfg, q, states - {q.state.value}, now2, remote, settingsToken) == InvalidState
  {
  }

  // ---------------------------------------------------------------------
  // the settings form
  // ---------------------------------------------------------------------

  /** `String(field || '').trim()`. */
  function FieldText(field: Option<string>): (t: string)
    ensures t == Trim(field.UnwrapOr(""))
    ensures !Truthy(field) ==> t == ""
  {
    if Truthy(field) then Trim(field.value) else ""
  }

  /** The posted `enabled` field: on iff its trimmed, lower-cased text is `true`. */
  function EnabledFromField(field: Option<string>): bool
  {
    Lower(FieldText(field)) == "true"
  }

  /** The hidden `enabled` value the settings page offers: the negation of the
    * current setting. */
  function NextEnabled(enabled: bool): (v: string)
    ensures v == "true" || v == "false"
  {
    if enabled then "false" else "true"
  }

  /** Posting the form the page rendered flips the setting. */
  lemma OfferedValueToggles(enabled: bool)
    ensures EnabledFromField(Some(NextEnabled(enabled))) == !enabled
  {
    if enabled {
      FalseFieldIsOff();
    } else {
      TrueFieldIsOn();
    }
  }

  lemma TrueFieldIsOn()
    ensures EnabledFromField(Some("true"))
  {
    TrimKeepsTrimmed("true");
    LowerOfLowerCase("true");
  }

  lemma FalseFieldIsOff()
    ensures !EnabledFromField(Some("false"))
  {
    TrimKeepsTrimmed("false");
  }

  /** Case and surrounding blanks do not matter to the `enabled` field. */
  lemma EnabledFieldAcceptsAnyCase(field: string)
    requires Lower(Trim(field)) == "true"
    ensures EnabledFromField(Some(field))
  {
  }

  /** Outcomes of `/settings` and `/settings/disconnect`. */
  datatype SettingsPage =
    | TokenInvalid
    | SettingsSaved(email: string, enabled: bool, nextToken: string)
    | Disconnected(email: string)
    | UpdateFailed(message: string)

  /** `e?.message || 'failed'`: the user table's failure reduced to its message. */
  function FailedMessage(message: Option<string>): (m: string)
    ensures m != ""
    ensures Truthy(message) ==> m == message.value
  {
    if Truthy(message) then message.value else "failed"
  }

  class AuthServer {
    const cfg: OAuthConfig
    /** `OAUTH_STATE_TTL_SEC * 1000` and `OAUTH_SETTINGS_TTL_SEC * 1000`. */
    const stateTtlMs: int
    const settingsTtlMs: int
    var stateStore: map<string, int>
    var settingsStore: map<string, SettingsEntry>

    constructor (cfg: OAuthConfig, stateTtlMs: int, settingsTtlMs: int)
      ensures this.cfg == cfg && this.stateTtlMs == stateTtlMs && this.settingsTtlMs == settingsTtlMs
      ensures stateStore == map[] && settingsStore == map[]
    {
      this.cfg := cfg;
      this.stateTtlMs := stateTtlMs;
      this.settingsTtlMs := settingsTtlMs;
      stateStore := map[];
      settingsStore := map[];
    }

    /** `buildSettingsToken`: `token` is the fresh random hex string. */
    method BuildSettingsToken(email: string, token: string, now: int) returns (t: string)
      modifies this`settingsStore
      ensures t == token
      ensures settingsStore == old(settingsStore)[token := SettingsEntry(email, now + settingsTtlMs)]
    {
      settingsStore := settingsStore[token := SettingsEntry(email, now + settingsTtlMs)];
      return token;
    }

    /** `consumeSettingsToken`. */
    method ConsumeSettingsToken(token: string, now: int) returns (email: Option<string>)
      modifies this`settingsStore
      ensures (settingsStore, email) == ConsumeSettings(old(settingsStore), token, now)
    {
      var entry := if token in settingsStore then Some(settingsStore[token]) else None;
      settingsStore := settingsStore - {token};
      if entry.None? || entry.value.expiresAt < now {
        return None;
      }
      return Some(entry.value.email);
    }

    /** `/auth/start`: either the configuration error, or the new `state` (which the
      * redirect URL carries) stored with its expiry. */
    method Start(state: string, now: int) returns (r: Result<string, string>)
      modifies this`stateStore
      ensures ValidateConfig(cfg).Some? ==> r == Failure(ValidateConfig(cfg).value) && stateStore == old(stateStore)
      ensures ValidateConfig(cfg).None? ==> r == Success(state) && stateStore == old(stateStore)[state := now + stateTtlMs]
    {
      var err := ValidateConfig(cfg);
      if err.Some? {
        return Failure(err.value);
      }
      stateStore := stateStore[state := now + stateTtlMs];
      return Success(state);
    }

    /** `/auth/callback`. `settingsToken` is the random token issued on success. */
    method AuthCallback(q: CallbackQuery, now: int, remote: Remote, settingsToken: string)
      returns (page: CallbackPage)
      modifies this`stateStore, this`settingsStore
      ensures page == Callback(cfg, q, old(stateStore), now, remote, settingsToken)
      ensures stateStore == if ReachesStateCheck(cfg, q) then old(stateStore) - {q.state.value} else old(stateStore)
      ensures settingsStore == if page.Registered?
                               then old(settingsStore)[settingsToken := SettingsEntry(page.email, now + settingsTtlMs)]
                               else old(settingsStore)
    {
      var err := ValidateConfig(cfg);
      if err.Some? {
        return ConfigMissing(err.value);
      }
      if Truthy(q.error) {
        return OAuthError(q.error.value);
      }
      if !Truthy(q.code) || !Truthy(q.state) {
        return MissingCodeOrState;
      }
      var exp := if q.state.value in stateStore then Some(stateStore[q.state.value]) else None;
      stateStore := stateStore - {q.state.value};
      if exp.None? || exp.value == 0 || exp.value < now {
        return InvalidState;
      }
      page := AfterState(remote, settingsToken);
      if page.Registered? {
        var _ := BuildSettingsToken(page.email, settingsToken, now);
      }
    }

    /** `POST /settings`: `update` is the user table's answer to the change (a failure
      * carries the error's message). `nextToken` is the random token issued on success. */
    method PostSettings(tokenField: Option<string>, enabledField: Option<string>, now: int,
                        update: Result<(), Option<string>>, nextToken: string)
      returns (page: SettingsPage)
      modifies this`settingsStore
      ensures var token := FieldText(tokenField);
              var consumed := ConsumeSettings(old(settingsStore), token, now);
              var afterConsume := if token == "" then old(settingsStore) else consumed.0;
              var email := if token == "" then None else consumed.1;
              && (email.None? ==> page == TokenInvalid && settingsStore == afterConsume)
              && (email.Some? && update.Failure? ==>
                    page == UpdateFailed(FailedMessage(update.error)) && settingsStore == afterConsume)
              && (email.Some? && update.Success? ==>
                    page == SettingsSaved(email.value, EnabledFromField(enabledField), nextToken)
                    && settingsStore == afterConsume[nextToken := SettingsEntry(email.value, now + settingsTtlMs)])
    {
      var token := FieldText(tokenField);
      var enabled := EnabledFromField(enabledField);
      ghost var consumed := ConsumeSettings(settingsStore, token, now);
      ghost var afterConsume := if token == "" then settingsStore else consumed.0;
      var email := None;
      if token != "" {
        email := ConsumeSettingsToken(token, now);
        assert settingsStore == consumed.0 && email == consumed.1;
      }
      assert settingsStore == afterConsume;
      if email.None? {
        return TokenInvalid;
      }
      if update.Failure? {
        return UpdateFailed(FailedMessage(update.error));
      }
      var t := BuildSettingsToken(email.value, nextToken, now);
      return SettingsSaved(email.value, enabled, t);
    }

    /** `POST /settings/disconnect`: the token is consumed; no new one is issued. */
    method PostDisconnect(tokenField: Option<string>, now: int, disconnect: Result<(), Option<string>>)
      returns (page: SettingsPage)
      modifies this`settingsStore
      ensures var token := FieldText(tokenField);
              var consumed := ConsumeSettings(old(settingsStore), token, now);
              var email := if token == "" then None else consumed.1;
              && settingsStore == (if token == "" then old(settingsStore) else consumed.0)
              && (email.None? ==> page == TokenInvalid)
              && (email.Some? && disconnect.Failure? ==> page == UpdateFailed(FailedMessage(disconnect.error)))
              && (email.Some? && disconnect.Success? ==> page == Disconnected(email.value))
    {
      var token := FieldText(tokenField);
      var email := None;
      if token != "" {
        email := ConsumeSettingsToken(token, now);
      }
      if email.None? {
        return TokenInvalid;
      }
      if disconnect.Failure? {
        return UpdateFailed(FailedMessage(disconnect.error));
      }
      return Disconnected(email.value);
    }
  }
}
