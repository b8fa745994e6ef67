/**
 * The Google access-token provider (services/googleTokenProvider.ts): a cached
 * token is reused while it is valid; otherwise a token is fetched from the token
 * server and, failing that, from the refresh-token flow, and the first valid one
 * is cached. The scope-specific variant never reads or writes the cache.
 *
 * The clock is one parameter `now` per call. The HTTP answers of the token server
 * and of Google's token endpoint are parameters: `None` for a call that was not
 * configured or threw, otherwise the response body's two fields.
 */
module GoogleToken {
  import opened Wrappers

  /** `TokenInfo`: the access token and its lifetime, in seconds and as an epoch
    * millisecond deadline, when known. */
  datatype TokenInfo = TokenInfo(accessToken: string, expiresIn: Option<int>, expiresAt: Option<int>)

  /** The fields of a token response body: `access_token` when it is a string and
    * `expires_in` when it is a number. */
  datatype TokenBody = TokenBody(accessToken: Option<string>, expiresIn: Option<int>)

  /** `lastSource`. No code path sets `cache`. */
  datatype TokenSource = CacheSource | TokenServer | Refresh | Unknown

  /** Default lifetimes, in seconds, of a token-server and a refresh-flow token
    * whose response has no `expires_in`. */
  const TokenServerLifetime: int := 1800
  const RefreshLifetime: int := 3600

  /** The safety margin before expiry, in milliseconds. */
  const Margin: int := 30000

  /** The deadline `isValid` works with: `expires_at`, else `now + expires_in * 1000`
    * when `expires_in` is truthy, else 0 (no deadline). */
  function Deadline(t: TokenInfo, now: int): int
  {
    if t.expiresAt.Some? then t.expiresAt.value
    else if t.expiresIn.Some? && t.expiresIn.value != 0 then now + t.expiresIn.value * 1000
    else 0
  }

  /** `isValid`: a token with a non-empty access token whose deadline is 0 or more
    * than the margin away. */
  function IsValid(t: Option<TokenInfo>, now: int): (ok: bool)
    ensures ok ==> t.Some? && t.value.accessToken != ""
    ensures t.Some? && t.value.accessToken != "" && t.value.expiresAt.Some? ==>
              (ok <==> t.value.expiresAt.value == 0 || t.value.expiresAt.value - Margin > now)
    ensures t.Some? && t.value.accessToken != "" && t.value.expiresAt.None? && t.value.expiresIn.None? ==> ok
  {
    if t.None? || t.value.accessToken == "" then false
    else
      var exp := Deadline(t.value, now);
      exp == 0 || exp - Margin > now
  }

  /** The token built from a response body: none without a string `access_token`;
    * otherwise `expires_in` (or the default) and the deadline `now + expires_in * 1000`. */
  function FromBody(body: Option<TokenBody>, defaultLifetime: int, now: int): (t: Option<TokenInfo>)
    ensures t.Some? <==> body.Some? && body.value.accessToken.Some?
    ensures t.Some? ==> t.value.accessToken == body.value.accessToken.value
    ensures t.Some? ==> t.value.expiresIn == Some(body.value.expiresIn.UnwrapOr(defaultLifetime))
    ensures t.Some? ==> t.value.expiresAt == Some(now + body.value.expiresIn.UnwrapOr(defaultLifetime) * 1000)
  {
    if body.None? || body.value.accessToken.None? then None
    else
      var expiresIn := body.value.expiresIn.UnwrapOr(defaultLifetime);
      Some(TokenInfo(body.value.accessToken.value, Some(expiresIn), Some(now + expiresIn * 1000)))
  }

  /** A freshly fetched token is valid exactly when its access token is non-empty and
    * it lives more than 30 seconds, or its deadline happens to be the epoch. */
  lemma FetchedTokenValidity(body: TokenBody, defaultLifetime: int, now: int)
    requires body.accessToken.Some?
    ensures var lifetime := body.expiresIn.UnwrapOr(defaultLifetime);
            IsValid(FromBody(Some(body), defaultLifetime, now), now)
            <==> body.accessToken.value != "" && (now + lifetime * 1000 == 0 || lifetime > 30)
  {
  }

  /** With the default lifetimes, a token response without `expires_in` is valid as
    * soon as its access token is non-empty (for any `now` but the one making the
    * deadline the epoch). */
  lemma DefaultLifetimesAreValid(token: string, now: int)
    requires token != ""
    ensures now + TokenServerLifetime * 1000 != 0 ==>
              IsValid(FromBody(Some(TokenBody(Some(token), None)), TokenServerLifetime, now), now)
    ensures now + RefreshLifetime * 1000 != 0 ==>
              IsValid(FromBody(Some(TokenBody(Some(token), None)), RefreshLifetime, now), now)
  {
    FetchedTokenValidity(TokenBody(Some(token), None), TokenServerLifetime, now);
    FetchedTokenValidity(TokenBody(Some(token), None), RefreshLifetime, now);
  }

  /** The client settings the refresh-token flow needs, and where its refresh token
    * comes from: `GOOGLE_REFRESH_TOKEN`, else the enabled user's stored token. */
  datatype RefreshConfig = RefreshConfig(
    clientId: Option<string>, clientSecret: Option<string>,
    envRefreshToken: Option<string>, storedRefreshToken: Option<string>)

  /** `fetchFromRefreshToken`'s choice of refresh token. */
  function RefreshTokenOf(cfg: RefreshConfig): (r: Option<string>)
    ensures r.Some? ==> r.value != ""
    ensures Truthy(cfg.envRefreshToken) ==> r == cfg.envRefreshToken
    ensures !Truthy(cfg.envRefreshToken) ==> r == (if Truthy(cfg.storedRefreshToken) then cfg.storedRefreshToken else None)
  {
    if Truthy(cfg.envRefreshToken) then cfg.envRefreshToken
    else if Truthy(cfg.storedRefreshToken) then cfg.storedRefreshToken
    else None
  }

  /** `exchangeRefreshToken`: no call without a client id, a secret and a refresh token. */
  function ExchangeRefresh(cfg: RefreshConfig, refresh: string, answer: Option<TokenBody>, now: int)
    : (t: Option<TokenInfo>)
    ensures !Truthy(cfg.clientId) || !Truthy(cfg.clientSecret) || refresh == "" ==> t.None?
    ensures Truthy(cfg.clientId) && Truthy(cfg.clientSecret) && refresh != "" ==>
              t == FromBody(answer, RefreshLifetime, now)
  {
    if !Truthy(cfg.clientId) || !Truthy(cfg.clientSecret) || refresh == "" then None
    else FromBody(answer, RefreshLifetime, now)
  }

  /** `fetchFromRefreshToken`. */
  function FetchFromRefresh(cfg: RefreshConfig, answer: Option<TokenBody>, now: int): (t: Option<TokenInfo>)
    ensures RefreshTokenOf(cfg).None? ==> t.None?
    ensures t.Some? ==> Truthy(cfg.clientId) && Truthy(cfg.clientSecret) && answer.Some?
  {
    var refresh := RefreshTokenOf(cfg);
    if refresh.None? then None else ExchangeRefresh(cfg, refresh.value, answer, now)
  }

  /** `fetchFromTokenServer`: `server` is the response body, or `None` when no server
    * URL is configured or the request threw. */
  function FetchFromServer(server: Option<TokenBody>, now: int): Option<TokenInfo>
  {
    FromBody(server, TokenServerLifetime, now)
  }

  /** The outcome of `getGoogleAccessToken`: the new cache and last source, and the
    * access token or the error message. */
  datatype Acquired = Acquired(cached: Option<TokenInfo>, lastSource: TokenSource, result: Result<string, string>)

  const Unavailable := "google_access_token_unavailable"
  const UnavailableForScope := "google_access_token_unavailable_for_scope"
  const UnavailableForRefreshToken := "google_access_token_unavailable_for_refresh_token"

  /** `getGoogleAccessToken`, in the order cache, token server, refresh flow. */
  function Acquire(cached: Option<TokenInfo>, lastSource: TokenSource, now: int,
                   server: Option<TokenBody>, cfg: RefreshConfig, refreshAnswer: Option<TokenBody>): Acquired
  {
    if IsValid(cached, now) then Acquired(cached, lastSource, Success(cached.value.accessToken))
    else
      var fromServer := FetchFromServer(server, now);
      if IsValid(fromServer, now) then Acquired(fromServer, TokenServer, Success(fromServer.value.accessToken))
      else
        var fromRefresh := FetchFromRefresh(cfg, refreshAnswer, now);
        if IsValid(fromRefresh, now) then Acquired(fromRefresh, Refresh, Success(fromRefresh.value.accessToken))
        else Acquired(cached, lastSource, Failure(Unavailable))
  }

  /** Every token handed out is the cached one afterwards and is valid at that moment;
    * a failure leaves the cache and the source as they were. */
  lemma AcquireCachesWhatItReturns(cached: Option<TokenInfo>, lastSource: TokenSource, now: int,
                                   server: Option<TokenBody>, cfg: RefreshConfig, refreshAnswer: Option<TokenBody>)
    ensures var a := Acquire(cached, lastSource, now, server, cfg, refreshAnswer);
            && (a.result.Success? ==> IsValid(a.cached, now) && a.result.value == a.cached.value.accessToken)
            && (a.result.Failure? ==> a.cached == cached && a.lastSource == lastSource && a.result.error == Unavailable)
  {
  }

  /** The order of preference: a valid cache short-cuts every fetch; a valid token-server
    * token wins over the refresh flow; the refresh flow is used only when neither the
    * cache nor the token server gave a valid token. */
  lemma AcquireOrder(cached: Option<TokenInfo>, lastSource: TokenSource, now: int,
                     server: Option<TokenBody>, cfg: RefreshConfig, refreshAnswer: Option<TokenBody>)
    ensures var a := Acquire(cached, lastSource, now, server, cfg, refreshAnswer);
            && (IsValid(cached, now) ==> a == Acquired(cached, lastSource, Success(cached.value.accessToken)))
            && (!IsValid(cached, now) && IsValid(FetchFromServer(server, now), now) ==>
                  a.lastSource == TokenServer && a.cached == FetchFromServer(server, now))
            && (!IsValid(cached, now) && !IsValid(FetchFromServer(server, now), now)
                && IsValid(FetchFromRefresh(cfg, refreshAnswer, now), now) ==>
                  a.lastSource == Refresh && a.cached == FetchFromRefresh(cfg, refreshAnswer, now))
  {
  }

  /** Right after a successful call, a second call at the same moment is answered from
    * the cache with the same token, whatever the remote services would answer. */
  lemma SecondCallUsesCache(cached: Option<TokenInfo>, lastSource: TokenSource, now: int,
                            server: Option<TokenBody>, cfg: RefreshConfig, refreshAnswer: Option<TokenBody>,
                            server2: Option<TokenBody>, cfg2: RefreshConfig, refreshAnswer2: Option<TokenBody>)
    requires Acquire(cached, lastSource, now, server, cfg, refreshAnswer).result.Success?
    ensures var a := Acquire(cached, lastSource, now, server, cfg, refreshAnswer);
            Acquire(a.cached, a.lastSource, now, server2, cfg2, refreshAnswer2) == a
  {
    AcquireCachesWhatItReturns(cached, lastSource, now, server, cfg, refreshAnswer);
  }

  /** `getGoogleAccessTokenForScope`: token server first, then the refresh flow. */
  function AcquireForScope(now: int, server: Option<TokenBody>, cfg: RefreshConfig,
                           refreshAnswer: Option<TokenBody>): (r: Result<string, string>)
    ensures r.Success? ==>
              (IsValid(FetchFromServer(server, now), now) && r.value == FetchFromServer(server, now).value.accessToken)
              || (IsValid(FetchFromRefresh(cfg, refreshAnswer, now), now)
                  && r.value == FetchFromRefresh(cfg, refreshAnswer, now).value.accessToken)
    ensures r.Failure? <==>
              !IsValid(FetchFromServer(server, now), now) && !IsValid(FetchFromRefresh(cfg, refreshAnswer, now), now)
    ensures r.Failure? ==> r.error == UnavailableForScope
  {
    var fromServer := FetchFromServer(server, now);
    if IsValid(fromServer, now) then Success(fromServer.value.accessToken)
    else
      var fromRefresh := FetchFromRefresh(cfg, refreshAnswer, now);
      if IsValid(fromRefresh, now) then Success(fromRefresh.value.accessToken)
      else Failure(UnavailableForScope)
  }

  /** `getGoogleAccessTokenForRefreshToken`: one exchange, no cache. */
  function AcquireForRefreshToken(cfg: RefreshConfig, refresh: string, answer: Option<TokenBody>, now: int)
    : (r: Result<string, string>)
    ensures r.Success? <==> IsValid(ExchangeRefresh(cfg, refresh, answer, now), now)
    ensures r.Success? ==> r.value == ExchangeRefresh(cfg, refresh, answer, now).value.accessToken && r.value != ""
    ensures r.Failure? ==> r.error == UnavailableForRefreshToken
  {
    var info := ExchangeRefresh(cfg, refresh, answer, now);
    if !IsValid(info, now) then Failure(UnavailableForRefreshToken) else Success(info.value.accessToken)
  }

  /** The module-level `cached` and `lastSource`. */
  class TokenProvider {
    var cached: Option<TokenInfo>
    var lastSource: TokenSource

    constructor ()
      ensures cached == None && lastSource == Unknown
    {
      cached := None;
      lastSource := Unknown;
    }

    /** `getGoogleAccessToken`. */
    method GetGoogleAccessToken(now: int, server: Option<TokenBody>, cfg: RefreshConfig,
                                refreshAnswer: Option<TokenBody>)
      returns (r: Result<string, string>)
      modifies this
      ensures var a := Acquire(old(cached), old(lastSource), now, server, cfg, refreshAnswer);
              cached == a.cached && lastSource == a.lastSource && r == a.result
    {
      if IsValid(cached, now) {
        return Success(cached.value.accessToken);
      }
      var fromServer := FetchFromServer(server, now);
      if IsValid(fromServer, now) {
        cached := fromServer;
        lastSource := TokenServer;
        return Success(cached.value.accessToken);
      }
      var fromRefresh := FetchFromRefresh(cfg, refreshAnswer, now);
      if IsValid(fromRefresh, now) {
        cached := fromRefresh;
        lastSource := Refresh;
        return Success(cached.value.accessToken);
      }
      return Failure(Unavailable);
    }

    /** `getGoogleAccessTokenForScope`: reads and writes no part of the provider. */
    method GetGoogleAccessTokenForScope(now: int, server: Option<TokenBody>, cfg: RefreshConfig,
                                        refreshAnswer: Option<TokenBody>)
      returns (r: Result<string, string>)
      ensures r == AcquireForScope(now, server, cfg, refreshAnswer)
    {
      var fromServer := FetchFromServer(server, now);
      if IsValid(fromServer, now) {
        return Success(fromServer.value.accessToken);
      }
      var fromRefresh := FetchFromRefresh(cfg, refreshAnswer, now);
      if IsValid(fromRefresh, now) {
        return Success(fromRefresh.value.accessToken);
      }
      return Failure(UnavailableForScope);
    }

    /** `clearGoogleTokenCache`. */
    method ClearGoogleTokenCache()
      modifies this
      ensures cached == None && lastSource == Unknown
    {
      cached := None;
      lastSource := Unknown;
    }

  }
}
