/**
  The token manager of the primary data API: the cached access token, the
  refresh token and the expiry watermark that the scripts keep in module
  globals, and the refresh-token grant that renews them. The clock and the
  token endpoint's reply are parameters.
 */
module Tokens {
  import opened Wrappers
  import opened PyValues

  /** The credential globals. An unset or `None` string is "". */
  datatype TokenState = TokenState(
    clientId: string,
    clientSecret: string,
    refreshToken: string,
    accessToken: string,
    expiresAt: real)

  /** The decoded body of a token reply. `accessToken` is `None` when the key is
      missing (`Some("")` when it is null); `refreshToken` is "" when missing,
      null or empty; `expiresIn` is `Absent` when missing. */
  datatype TokenBody = TokenBody(accessToken: Option<string>, refreshToken: string, expiresIn: Value)

  /** The token endpoint's answer, and the clock reading when it is saved. */
  datatype TokenReply = TokenReply(status: int, body: TokenBody, at: real)

  datatype AuthError =
    | MissingCredentials      // raised before any request is sent
    | RefreshFailed(status: int)

  /** Lifetime assumed when `expires_in` cannot be read as a number. */
  const FallbackLifetime: real := 3000.0

  /** `expires_at` after a save at time `now`: a missing `expires_in` counts as
      0 (the token is stale at once), a numeric one is added, anything `float()`
      rejects falls back to 3000 seconds. */
  function ExpiresAt(now: real, expiresIn: Value): (r: real)
    ensures expiresIn.Absent? ==> r == now
    ensures ToFloat(expiresIn).Some? ==> r == now + ToFloat(expiresIn).value
    ensures !expiresIn.Absent? && ToFloat(expiresIn).None? ==> r == now + FallbackLifetime
  {
    match ToFloat(GetOr(expiresIn, Int(0)))
    case Some(x) => now + x
    case None => now + FallbackLifetime
  }

  /** The client id, client secret and refresh token are all set. */
  predicate HasCredentials(s: TokenState) {
    s.clientId != "" && s.clientSecret != "" && s.refreshToken != ""
  }

  /** Storing a token reply: the access token is kept when the reply omits it,
      the refresh token changes only to a non-empty one the reply supplies, and
      the client credentials never change. */
  function SaveTokens(s: TokenState, body: TokenBody, now: real): (r: TokenState)
    ensures r.clientId == s.clientId && r.clientSecret == s.clientSecret
    ensures body.accessToken.None? ==> r.accessToken == s.accessToken
    ensures body.accessToken.Some? ==> r.accessToken == body.accessToken.value
    ensures body.refreshToken != "" ==> r.refreshToken == body.refreshToken
    ensures r.refreshToken != s.refreshToken ==> body.refreshToken != "" && r.refreshToken == body.refreshToken
    ensures HasCredentials(s) ==> HasCredentials(r)
    ensures r.expiresAt == ExpiresAt(now, body.expiresIn)
  {
    TokenState(
      s.clientId,
      s.clientSecret,
      if body.refreshToken != "" then body.refreshToken else s.refreshToken,
      match body.accessToken { case Some(a) => a case None => s.accessToken },
      ExpiresAt(now, body.expiresIn))
  }

  /** The refresh-token grant. Missing credentials fail before the endpoint is
      asked (so the reply is never looked at); a non-200 reply fails; otherwise
      the reply is saved. */
  function Refresh(s: TokenState, reply: TokenReply): (r: Result<TokenState, AuthError>)
    ensures r == Err(MissingCredentials) <==> !HasCredentials(s)
    ensures r.Ok? <==> HasCredentials(s) && reply.status == 200
    ensures r.Err? && r.error.RefreshFailed? ==> HasCredentials(s) && r.error.status == reply.status && reply.status != 200
    ensures r.Ok? ==> r.value == SaveTokens(s, reply.body, reply.at)
  {
    if !HasCredentials(s) then Err(MissingCredentials)
    else if reply.status != 200 then Err(RefreshFailed(reply.status))
    else Ok(SaveTokens(s, reply.body, reply.at))
  }

  /** The cached token is unusable: empty, or `now` has reached the watermark. */
  predicate NeedsRefresh(s: TokenState, now: real) {
    s.accessToken == "" || now >= s.expiresAt
  }

  /** `_get_clio_token`: refresh iff the cached token is empty or expired,
      otherwise hand back the cache untouched. The token returned is the
      resulting state's `accessToken`. */
  function GetToken(s: TokenState, now: real, reply: TokenReply): (r: Result<TokenState, AuthError>)
    ensures !NeedsRefresh(s, now) ==> r == Ok(s)
    ensures NeedsRefresh(s, now) ==> r == Refresh(s, reply)
  {
    if NeedsRefresh(s, now) then Refresh(s, reply) else Ok(s)
  }

  /** A reply that supplies a non-empty access token with a positive numeric
      lifetime is served from the cache, whatever the endpoint would say, until
      the lifetime has passed; from then on it is refreshed again. */
  lemma RefreshedTokenIsCached(s: TokenState, reply: TokenReply, later: TokenReply, now: real)
    requires Refresh(s, reply).Ok?
    requires reply.body.accessToken.Some? && reply.body.accessToken.value != ""
    requires ToFloat(reply.body.expiresIn).Some? && ToFloat(reply.body.expiresIn).value > 0.0
    ensures now < reply.at + ToFloat(reply.body.expiresIn).value ==>
      GetToken(Refresh(s, reply).value, now, later) == Refresh(s, reply)
    ensures now >= reply.at + ToFloat(reply.body.expiresIn).value ==>
      GetToken(Refresh(s, reply).value, now, later) == Refresh(Refresh(s, reply).value, later)
  {
  }

  /** Once the credentials are complete, no sequence of successful refreshes
      can lose them, so a later refresh never fails for missing credentials. */
  lemma {:induction false} CredentialsSurviveRefreshes(s: TokenState, replies: seq<TokenReply>)
    requires HasCredentials(s)
    ensures RefreshAll(s, replies).Ok? ==> HasCredentials(RefreshAll(s, replies).value)
    ensures RefreshAll(s, replies).Err? ==> RefreshAll(s, replies).error.RefreshFailed?
    decreases |replies|
  {
    if |replies| > 0 {
      match Refresh(s, replies[0])
      case Err(e) =>
      case Ok(t) => CredentialsSurviveRefreshes(t, replies[1..]);
    }
  }

  /** Successive refreshes with the given replies, stopping at the first failure. */
  function RefreshAll(s: TokenState, replies: seq<TokenReply>): Result<TokenState, AuthError>
    decreases |replies|
  {
    if |replies| == 0 then Ok(s)
    else match Refresh(s, replies[0])
      case Err(e) => Err(e)
      case Ok(t) => RefreshAll(t, replies[1..])
  }
}
