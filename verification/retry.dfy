/**
  The resilient request wrapper of the primary data API (`_request` and
  `_sleep_with_floor`): one bearer header set before the first attempt, then
  up to `max_tries` attempts, where 401 refreshes the token, 429 waits as the
  server asks, 5xx backs off exponentially, and anything else is returned.

  The server, the token endpoint and the clock are scripted: the server is a
  function from (attempt index, bearer token sent) to the response, the token
  endpoint a function from the number of refreshes so far to its reply, and
  each response carries the seconds elapsed since its attempt began.
 */
module Retry {
  import opened Wrappers
  import opened PyValues
  import opened Tokens

  /** One HTTP response as the wrapper reads it. `retryAfter` is the
      `Retry-After` header ("" when absent or empty); `errorMessage` is
      `error.message` of the JSON body, `None` where reading it raises;
      `elapsed` is the time from the attempt's start to the wait after it. */
  datatype Response = Response(status: int, retryAfter: string, errorMessage: Option<string>, elapsed: real)

  const DefaultMaxTries: nat := 7
  const DefaultRateLimitWait: int := 30
  const BackoffCap: int := 60
  /** The default of the configurable spacing floor between requests, in seconds. */
  const DefaultMinSleep: real := 0.25

  // ---------------------------------------------------------------------------
  // The wait after an attempt
  // ---------------------------------------------------------------------------

  /** `_sleep_with_floor`: the wait is the least amount that is non-negative,
      tops the spacing floor up to `floor`, and honours `retryAfter`
      (`None` is passed as 0). The process sleeps only when it is positive. */
  function SleepWithFloor(floor: real, elapsed: real, retryAfter: int): (w: real)
    ensures w >= 0.0 && w >= floor - elapsed && w >= retryAfter as real
    ensures w == 0.0 || w == floor - elapsed || w == retryAfter as real
  {
    var base := if floor - elapsed > 0.0 then floor - elapsed else 0.0;
    if base >= retryAfter as real then base else retryAfter as real
  }

  // ---------------------------------------------------------------------------
  // The 429 wait
  // ---------------------------------------------------------------------------

  const RetryInText: string := "Retry in "

  /** The pattern `Retry in (\d+)` matches at position `p` of `s`. */
  predicate RetryInAt(s: string, p: nat) {
    p + |RetryInText| < |s| && s[p..p + |RetryInText|] == RetryInText && IsDigit(s[p + |RetryInText|])
  }

  /** The longest prefix of `s` made of digits (what a greedy `\d+` takes). */
  function DigitRun(s: string): (r: string)
    ensures AllDigits(r) && |r| <= |s| && r == s[..|r|]
    ensures |r| == |s| || !IsDigit(s[|r|])
  {
    if |s| > 0 && IsDigit(s[0]) then
      var r := [s[0]] + DigitRun(s[1..]);
      assert r == s[..|r|];
      r
    else []
  }

  /** The search from position `p` on: it finds a match iff there is one, and
      the number it reads is the one at the leftmost match. */
  function ScanRetryIn(s: string, p: nat): (r: Option<nat>)
    ensures r.Some? <==> exists q :: p <= q < |s| && RetryInAt(s, q)
    ensures r.Some? ==> exists q :: (p <= q < |s| && RetryInAt(s, q) &&
      (forall q' :: p <= q' < q ==> !RetryInAt(s, q')) &&
      r.value == DigitsValue(DigitRun(s[q + |RetryInText|..])))
    decreases |s| - p
  {
    if p >= |s| then None
    else if RetryInAt(s, p) then Some(DigitsValue(DigitRun(s[p + |RetryInText|..])))
    else
      var r := ScanRetryIn(s, p + 1);
      assert forall q :: p <= q < |s| && RetryInAt(s, q) ==> p + 1 <= q;
      r
  }

  /** `re.search(r"Retry in (\d+)", msg)` and `int()` of its group. */
  function FindRetryIn(s: string): (r: Option<nat>)
    ensures r.Some? <==> exists q :: 0 <= q < |s| && RetryInAt(s, q)
    ensures r.Some? ==> exists q :: (0 <= q < |s| && RetryInAt(s, q) &&
      (forall q' :: 0 <= q' < q ==> !RetryInAt(s, q')) &&
      r.value == DigitsValue(DigitRun(s[q + |RetryInText|..])))
  {
    ScanRetryIn(s, 0)
  }

  /** The wait a 429 asks for: a non-empty `Retry-After` read by `int()`, or 30
      when `int()` rejects it; with no header, the N of the first
      "Retry in N" in the error message, or 30. */
  function RateLimitWait(r: Response): (w: int)
    ensures r.retryAfter != "" && ParseInt(r.retryAfter).Some? ==> w == ParseInt(r.retryAfter).value
    ensures r.retryAfter != "" && ParseInt(r.retryAfter).None? ==> w == DefaultRateLimitWait
    ensures r.retryAfter == "" && r.errorMessage.Some? && FindRetryIn(r.errorMessage.value).Some? ==>
      w == FindRetryIn(r.errorMessage.value).value
    ensures r.retryAfter == "" && (r.errorMessage.None? || FindRetryIn(r.errorMessage.value).None?) ==>
      w == DefaultRateLimitWait
  {
    if r.retryAfter != "" then
      match ParseInt(r.retryAfter)
      case Some(n) => n
      case None => DefaultRateLimitWait
    else
      match r.errorMessage
      case None => DefaultRateLimitWait
      case Some(msg) =>
        match FindRetryIn(msg)
        case Some(n) => n
        case None => DefaultRateLimitWait
  }

  /** The digit run of digits followed by a non-digit is those digits. */
  lemma {:induction false} DigitRunStops(d: string, rest: string)
    requires AllDigits(d)
    requires rest == [] || !IsDigit(rest[0])
    ensures DigitRun(d + rest) == d
    decreases |d|
  {
    if |d| > 0 {
      assert (d + rest)[1..] == d[1..] + rest;
      DigitRunStops(d[1..], rest);
      assert d == [d[0]] + d[1..];
    } else {
      assert d + rest == rest;
    }
  }

  /** A message that starts with "Retry in N" yields N. */
  lemma RetryInMessageRead(n: nat, rest: string)
    requires rest == [] || !IsDigit(rest[0])
    ensures FindRetryIn(RetryInText + NatToString(n) + rest) == Some(n)
  {
    var d := NatToString(n);
    var s := RetryInText + d + rest;
    assert s[..|RetryInText|] == RetryInText;
    assert s[|RetryInText|] == d[0];
    assert RetryInAt(s, 0);
    assert s[|RetryInText|..] == d + rest;
    DigitRunStops(d, rest);
  }

  /** Example: a 429 with `Retry-After: 5`. The next attempt waits at least
      five seconds, whatever the floor and the elapsed time. */
  lemma RetryAfterFiveWaitsFive(msg: Option<string>, floor: real, elapsed: real)
    ensures RateLimitWait(Response(429, "5", msg, elapsed)) == 5
    ensures SleepWithFloor(floor, elapsed, RateLimitWait(Response(429, "5", msg, elapsed))) >= 5.0
  {
    assert "5" == IntToString(5);
    ParseIntRoundTrip(5);
  }

  /** `int()` does not cut the separators 28-31, so a `Retry-After` padded
      with one (such as "\x1c5") waits the default, not the number. */
  lemma SeparatorPaddedRetryAfter(ra: string, msg: Option<string>, elapsed: real)
    requires |ra| > 0 && (IsSeparator(ra[0]) || IsSeparator(ra[|ra| - 1]))
    ensures RateLimitWait(Response(429, ra, msg, elapsed)) == DefaultRateLimitWait
  {
    SeparatorPaddingRejected(ra);
  }

  /** `int()` reads digit groups, so a `Retry-After` such as `1_0` waits the
      number its digits spell (ten seconds), not the default. */
  lemma GroupedRetryAfter(a: string, b: string, msg: Option<string>, elapsed: real)
    requires |a| > 0 && |b| > 0 && AllDigits(a) && AllDigits(b)
    ensures RateLimitWait(Response(429, a + "_" + b, msg, elapsed)) == DigitsValue(a + b)
  {
    UnderscoreBetweenDigits(a, b);
  }

  // ---------------------------------------------------------------------------
  // Status classes and the backoff schedule
  // ---------------------------------------------------------------------------

  datatype Kind = Unauthorized | RateLimited | ServerError | Final

  /** 401, 429 and 5xx are retried; every other status is returned. */
  function Classify(status: int): (k: Kind)
    ensures k == Unauthorized <==> status == 401
    ensures k == RateLimited <==> status == 429
    ensures k == ServerError <==> 500 <= status < 600
  {
    if status == 401 then Unauthorized
    else if status == 429 then RateLimited
    else if 500 <= status < 600 then ServerError
    else Final
  }

  predicate Retryable(status: int) {
    Classify(status) != Final
  }

  /** `backoff = min(backoff * 2, 60)`. */
  function NextBackoff(b: int): int {
    if b * 2 <= BackoffCap then b * 2 else BackoffCap
  }

  /** The backoff used at the k-th server error of one request (counting from 0). */
  function Backoff(k: nat): int {
    if k == 0 then 1 else NextBackoff(Backoff(k - 1))
  }

  function Pow2(k: nat): nat {
    if k == 0 then 1 else 2 * Pow2(k - 1)
  }

  /** The schedule is 1, 2, 4, 8, 16, 32, then 60 for ever: it doubles until
      the cap and never exceeds it. */
  lemma {:induction false} BackoffSchedule(k: nat)
    ensures k < 6 ==> Backoff(k) == Pow2(k)
    ensures k >= 6 ==> Backoff(k) == BackoffCap
    ensures 1 <= Backoff(k) <= BackoffCap
  {
    if k > 0 {
      BackoffSchedule(k - 1);
      if k == 1 {
      } else if k == 2 {
        assert Pow2(1) == 2;
      } else if k == 3 {
        assert Pow2(2) == 4;
      } else if k == 4 {
        assert Pow2(3) == 8;
      } else if k == 5 {
        assert Pow2(4) == 16;
      } else if k == 6 {
        assert Pow2(5) == 32;
      }
    }
  }

  // ---------------------------------------------------------------------------
  // The retry loop
  // ---------------------------------------------------------------------------

  /** One attempt: the bearer token sent, the response, and the access token
      cached once the attempt is dealt with. */
  datatype Step = Step(bearer: string, response: Response, tokenAfter: string)

  datatype RequestError =
    | Auth(cause: AuthError)  // a token refresh raised
    | NoAttempts              // `max_tries` was 0: `resp` is unbound when returned

  /** The response returned (or the error raised), the credential globals
      afterwards, and the attempts made. */
  datatype Outcome = Outcome(result: Result<Response, RequestError>, tokens: TokenState, steps: seq<Step>)

  /** Which bearer the attempts after a refresh send. `InitialHeader` is the
      code as written: the session header is set once, before the loop.
      `FollowRefresh` re-sends the token each refresh obtained. */
  datatype HeaderPolicy = InitialHeader | FollowRefresh

  /** The scripted environment of one request. */
  datatype Env = Env(floor: real, maxTries: nat, server: (nat, string) -> Response, tokenServer: nat -> TokenReply)

  /** What follows one attempt: stop with a result, or go on with the count of
      token replies used, the credential state and the header. */
  datatype Next =
    | Stop(result: Result<Response, RequestError>, tokens: TokenState)
    | Continue(refreshes: nat, tokens: TokenState, bearer: string)

  /** One pass of the loop body: attempt `i`, sending `bearer`. Only 401, 429
      and 5xx go on, and only a 401 touches the credentials; a returned
      response is the attempt's own; an error comes from the refresh after a
      401. */
  function Attempt(env: Env, policy: HeaderPolicy, i: nat, refreshes: nat,
                   tokens: TokenState, bearer: string): (a: (Step, Next))
    ensures a.0.bearer == bearer && a.0.response == env.server(i, bearer)
    ensures a.1.Continue? ==> Retryable(a.0.response.status) && a.0.tokenAfter == a.1.tokens.accessToken
    ensures a.1.Stop? && a.1.result.Ok? ==> a.1.result.value == a.0.response && !Retryable(a.0.response.status)
    ensures a.1.Stop? && a.1.result.Err? ==> a.1.result.error.Auth? && a.0.response.status == 401
    ensures a.1.Continue? && policy == InitialHeader ==> a.1.bearer == bearer
    ensures a.1.Continue? && policy == FollowRefresh && bearer == tokens.accessToken ==>
      a.1.bearer == a.1.tokens.accessToken
  {
    var r := env.server(i, bearer);
    if r.status == 401 then
      match Refresh(tokens, env.tokenServer(refreshes))
      case Err(e) => (Step(bearer, r, tokens.accessToken), Stop(Err(Auth(e)), tokens))
      case Ok(t) =>
        var next := if policy == FollowRefresh then t.accessToken else bearer;
        (Step(bearer, r, t.accessToken), Continue(refreshes + 1, t, next))
    else if Retryable(r.status) then
      (Step(bearer, r, tokens.accessToken), Continue(refreshes, tokens, bearer))
    else
      (Step(bearer, r, tokens.accessToken), Stop(Ok(r), tokens))
  }

  /** Attempts `i` onwards; `last` is the previous response. */
  function Run(env: Env, policy: HeaderPolicy, i: nat, refreshes: nat,
               tokens: TokenState, bearer: string, last: Option<Response>): (o: Outcome)
    ensures i < env.maxTries ==>
      |o.steps| > 0 && o.steps[0].bearer == bearer && o.steps[0].response == env.server(i, bearer)
    decreases env.maxTries - i
  {
    if i >= env.maxTries then
      Outcome(if last.Some? then Ok(last.value) else Err(NoAttempts), tokens, [])
    else
      var a := Attempt(env, policy, i, refreshes, tokens, bearer);
      match a.1
      case Stop(result, t) => Outcome(result, t, [a.0])
      case Continue(n, t, br) =>
        var o := Run(env, policy, i + 1, n, t, br, Some(a.0.response));
        o.(steps := [a.0] + o.steps)
  }

  /** `_request`: get a token (refreshing it if stale, with the endpoint's
      first reply), set the header, run the attempts. */
  function Request(env: Env, policy: HeaderPolicy, tokens: TokenState, now: real): (o: Outcome)
    ensures GetToken(tokens, now, env.tokenServer(0)).Err? ==>
      o.steps == [] && o.result == Err(Auth(GetToken(tokens, now, env.tokenServer(0)).error))
  {
    match GetToken(tokens, now, env.tokenServer(0))
    case Err(e) => Outcome(Err(Auth(e)), tokens, [])
    case Ok(t) => Run(env, policy, 0, if NeedsRefresh(tokens, now) then 1 else 0, t, t.accessToken, None)
  }

  // ---------------------------------------------------------------------------
  // The waits between attempts
  // ---------------------------------------------------------------------------

  /** The `retry_after` an attempt passes to `_sleep_with_floor`: 1 after a
      401, the server's request after a 429, the current backoff after a 5xx,
      none (0) before returning. */
  function RetryAfter(st: Step, backoff: int): int {
    match Classify(st.response.status)
    case Unauthorized => 1
    case RateLimited => RateLimitWait(st.response)
    case ServerError => backoff
    case Final => 0
  }

  /** The backoff after attempt `st`: doubled (to the cap) by a server error. */
  function BackoffAfter(st: Step, backoff: int): int {
    if Classify(st.response.status) == ServerError then NextBackoff(backoff) else backoff
  }

  /** The wait after each of `steps`, `backoff` being in force at the first. */
  function Waits(env: Env, steps: seq<Step>, backoff: int): (w: seq<real>)
    ensures |w| == |steps|
    decreases |steps|
  {
    if |steps| == 0 then []
    else
      [SleepWithFloor(env.floor, steps[0].response.elapsed, RetryAfter(steps[0], backoff))]
        + Waits(env, steps[1..], BackoffAfter(steps[0], backoff))
  }

  /** 1 for a server error, else 0. */
  function ServerErrorCount(st: Step): nat {
    if Classify(st.response.status) == ServerError then 1 else 0
  }

  /** The number of server errors among `steps`. */
  function ServerErrors(steps: seq<Step>): nat
    decreases |steps|
  {
    if |steps| == 0 then 0 else ServerErrorCount(steps[0]) + ServerErrors(steps[1..])
  }

  /** Wait j uses the backoff of the number of server errors before it, `k`
      having gone before the first. */
  lemma WaitsAt(env: Env, steps: seq<Step>, k: nat, j: nat)
    requires j < |steps|
    ensures Waits(env, steps, Backoff(k))[j] ==
      SleepWithFloor(env.floor, steps[j].response.elapsed, RetryAfter(steps[j], Backoff(k + ServerErrors(steps[..j]))))
  {
    WaitsFrom(env, steps, k, j);
    WaitsHead(env, steps[j..], Backoff(k + ServerErrors(steps[..j])));
  }

  /** Wait j is the first wait of the attempts from j on, with the backoff
      the server errors before j have reached. */
  lemma {:induction false} WaitsFrom(env: Env, steps: seq<Step>, k: nat, j: nat)
    requires j < |steps|
    ensures Waits(env, steps, Backoff(k))[j] == Waits(env, steps[j..], Backoff(k + ServerErrors(steps[..j])))[0]
    decreases j
  {
    if j > 0 {
      var k' := k + ServerErrorCount(steps[0]);
      assert BackoffAfter(steps[0], Backoff(k)) == Backoff(k');
      WaitsTail(env, steps, Backoff(k), j);
      WaitsFrom(env, steps[1..], k', j - 1);
      ServerErrorsTail(steps, j);
      assert steps[1..][j - 1..] == steps[j..];
    } else {
      assert steps[..0] == [];
      assert steps[0..] == steps;
    }
  }

  /** The first wait is that of the first attempt. */
  lemma WaitsHead(env: Env, steps: seq<Step>, backoff: int)
    requires |steps| > 0
    ensures Waits(env, steps, backoff)[0] ==
      SleepWithFloor(env.floor, steps[0].response.elapsed, RetryAfter(steps[0], backoff))
  {
  }

  /** A later wait is a wait of the remaining attempts. */
  lemma WaitsTail(env: Env, steps: seq<Step>, backoff: int, j: nat)
    requires 0 < j < |steps|
    ensures Waits(env, steps, backoff)[j] == Waits(env, steps[1..], BackoffAfter(steps[0], backoff))[j - 1]
  {
  }

  /** The server errors before attempt `j`: the first attempt's, then those after it. */
  lemma ServerErrorsTail(steps: seq<Step>, j: nat)
    requires 0 < j <= |steps|
    ensures ServerErrors(steps[..j]) == ServerErrorCount(steps[0]) + ServerErrors(steps[1..][..j - 1])
  {
    assert steps[..j][0] == steps[0];
    assert steps[..j][1..] == steps[1..][..j - 1];
  }

  // ---------------------------------------------------------------------------
  // Properties of a run
  // ---------------------------------------------------------------------------

  /** A run from `i` makes at most the tries left, and at least one iff a try
      is left. */
  lemma {:induction false} RunLength(env: Env, policy: HeaderPolicy, i: nat, refreshes: nat,
                                     tokens: TokenState, bearer: string, last: Option<Response>)
    ensures var o := Run(env, policy, i, refreshes, tokens, bearer, last);
      && (|o.steps| == 0 <==> i >= env.maxTries)
      && (i < env.maxTries ==> i + |o.steps| <= env.maxTries)
    decreases env.maxTries - i
  {
    if i < env.maxTries {
      var a := Attempt(env, policy, i, refreshes, tokens, bearer);
      match a.1 {
        case Stop(_, _) =>
        case Continue(n, t, br) =>
          RunLength(env, policy, i + 1, n, t, br, Some(a.0.response));
      }
    }
  }

  /** Attempt j of a run from `i` is the server's answer, at try i + j, to the
      header that attempt sent. */
  predicate Answered(env: Env, i: nat, steps: seq<Step>)
    decreases |steps|
  {
    |steps| == 0 || (steps[0].response == env.server(i, steps[0].bearer) && Answered(env, i + 1, steps[1..]))
  }

  lemma {:induction false} AnsweredAt(env: Env, i: nat, steps: seq<Step>, j: nat)
    requires Answered(env, i, steps) && j < |steps|
    ensures steps[j].response == env.server(i + j, steps[j].bearer)
    decreases j
  {
    if j > 0 {
      AnsweredAt(env, i + 1, steps[1..], j - 1);
    }
  }

  lemma {:induction false} RunAnswered(env: Env, policy: HeaderPolicy, i: nat, refreshes: nat,
                                       tokens: TokenState, bearer: string, last: Option<Response>)
    ensures Answered(env, i, Run(env, policy, i, refreshes, tokens, bearer, last).steps)
    decreases env.maxTries - i
  {
    if i < env.maxTries {
      var a := Attempt(env, policy, i, refreshes, tokens, bearer);
      match a.1 {
        case Stop(_, _) =>
        case Continue(n, t, br) =>
          RunAnswered(env, policy, i + 1, n, t, br, Some(a.0.response));
          var o := Run(env, policy, i + 1, n, t, br, Some(a.0.response));
          assert ([a.0] + o.steps)[1..] == o.steps;
      }
    }
  }

  /** Every attempt but the last got a retryable status. */
  predicate RetriedBeforeLast(steps: seq<Step>)
    decreases |steps|
  {
    |steps| <= 1 || (Retryable(steps[0].response.status) && RetriedBeforeLast(steps[1..]))
  }

  lemma {:induction false} RetriedAt(steps: seq<Step>, j: nat)
    requires RetriedBeforeLast(steps) && j + 1 < |steps|
    ensures Retryable(steps[j].response.status)
    decreases j
  {
    if j > 0 {
      RetriedAt(steps[1..], j - 1);
    }
  }

  lemma {:induction false} RunRetriedBeforeLast(env: Env, policy: HeaderPolicy, i: nat, refreshes: nat,
                                                tokens: TokenState, bearer: string, last: Option<Response>)
    ensures RetriedBeforeLast(Run(env, policy, i, refreshes, tokens, bearer, last).steps)
    decreases env.maxTries - i
  {
    if i < env.maxTries {
      var a := Attempt(env, policy, i, refreshes, tokens, bearer);
      match a.1 {
        case Stop(_, _) =>
        case Continue(n, t, br) =>
          RunRetriedBeforeLast(env, policy, i + 1, n, t, br, Some(a.0.response));
          var o := Run(env, policy, i + 1, n, t, br, Some(a.0.response));
          assert ([a.0] + o.steps)[1..] == o.steps;
      }
    }
  }

  /** What a run returns: with no try left, the previous response (or nothing
      at all); otherwise the last attempt's response, or the error of the
      refresh after that attempt's 401. */
  lemma {:induction false} RunResult(env: Env, policy: HeaderPolicy, i: nat, refreshes: nat,
                                     tokens: TokenState, bearer: string, last: Option<Response>)
    ensures var o := Run(env, policy, i, refreshes, tokens, bearer, last);
      && (|o.steps| == 0 ==> o.result == (if last.Some? then Ok(last.value) else Err(NoAttempts)))
      && (|o.steps| > 0 && o.result.Ok? ==> o.result.value == o.steps[|o.steps| - 1].response)
      && (|o.steps| > 0 && o.result.Err? ==> o.result.error.Auth? && o.steps[|o.steps| - 1].response.status == 401)
    decreases env.maxTries - i
  {
    if i < env.maxTries {
      var a := Attempt(env, policy, i, refreshes, tokens, bearer);
      match a.1 {
        case Stop(result, t) =>
          assert Run(env, policy, i, refreshes, tokens, bearer, last) == Outcome(result, t, [a.0]);
        case Continue(n, t, br) =>
          RunResult(env, policy, i + 1, n, t, br, Some(a.0.response));
          RunResultStep(a.0, Run(env, policy, i + 1, n, t, br, Some(a.0.response)),
                        Run(env, policy, i, refreshes, tokens, bearer, last));
      }
    }
  }

  /** A run that begins with attempt `s` and goes on as `rest` returns what
      `rest` returns, and its last attempt is `rest`'s last (or `s`). */
  lemma RunResultStep(s: Step, rest: Outcome, whole: Outcome)
    requires whole == rest.(steps := [s] + rest.steps)
    requires |rest.steps| == 0 ==> rest.result == Ok(s.response)
    requires |rest.steps| > 0 && rest.result.Ok? ==> rest.result.value == rest.steps[|rest.steps| - 1].response
    requires |rest.steps| > 0 && rest.result.Err? ==>
      rest.result.error.Auth? && rest.steps[|rest.steps| - 1].response.status == 401
    ensures |whole.steps| > 0 && whole.result.Ok? ==> whole.result.value == whole.steps[|whole.steps| - 1].response
    ensures whole.result.Err? ==>
              |rest.steps| > 0 && whole.result.error.Auth? && whole.steps[|whole.steps| - 1].response.status == 401
  {
    if |rest.steps| > 0 {
      assert whole.steps[|whole.steps| - 1] == rest.steps[|rest.steps| - 1];
    }
  }

  /** A retryable response is returned only when the tries ran out. */
  lemma {:induction false} RunExhausted(env: Env, policy: HeaderPolicy, i: nat, refreshes: nat,
                                        tokens: TokenState, bearer: string, last: Option<Response>)
    requires i < env.maxTries
    ensures var o := Run(env, policy, i, refreshes, tokens, bearer, last);
      o.result.Ok? && Retryable(o.result.value.status) ==> i + |o.steps| == env.maxTries
    decreases env.maxTries - i
  {
    var a := Attempt(env, policy, i, refreshes, tokens, bearer);
    match a.1 {
      case Stop(_, _) =>
      case Continue(n, t, br) =>
        if i + 1 < env.maxTries {
          RunExhausted(env, policy, i + 1, n, t, br, Some(a.0.response));
        }
    }
  }

  /** Every attempt sends `bearer`. */
  predicate AllSend(steps: seq<Step>, bearer: string)
    decreases |steps|
  {
    |steps| == 0 || (steps[0].bearer == bearer && AllSend(steps[1..], bearer))
  }

  /** Every attempt after the first sends the token cached after the one before. */
  predicate FollowsCache(steps: seq<Step>)
    decreases |steps|
  {
    |steps| <= 1 || (steps[1].bearer == steps[0].tokenAfter && FollowsCache(steps[1..]))
  }

  lemma {:induction false} AllSendAt(steps: seq<Step>, bearer: string, j: nat)
    requires AllSend(steps, bearer) && j < |steps|
    ensures steps[j].bearer == bearer
    decreases j
  {
    if j > 0 {
      AllSendAt(steps[1..], bearer, j - 1);
    }
  }

  lemma {:induction false} FollowsCacheAt(steps: seq<Step>, j: nat)
    requires FollowsCache(steps) && 0 < j < |steps|
    ensures steps[j].bearer == steps[j - 1].tokenAfter
    decreases j
  {
    if j > 1 {
      FollowsCacheAt(steps[1..], j - 1);
    }
  }

  /** Which token each attempt of a run sends: the first sends `bearer`; as
      written, so does every later one; with `FollowRefresh`, and the header
      starting as the cached token, each later one sends the token cached
      after the one before. */
  lemma {:induction false} RunBearers(env: Env, policy: HeaderPolicy, i: nat, refreshes: nat,
                                      tokens: TokenState, bearer: string, last: Option<Response>)
    ensures var o := Run(env, policy, i, refreshes, tokens, bearer, last);
      && (|o.steps| > 0 ==> o.steps[0].bearer == bearer)
      && (policy == InitialHeader ==> AllSend(o.steps, bearer))
      && (policy == FollowRefresh && bearer == tokens.accessToken ==> FollowsCache(o.steps))
    decreases env.maxTries - i
  {
    if i < env.maxTries {
      var a := Attempt(env, policy, i, refreshes, tokens, bearer);
      match a.1 {
        case Stop(_, _) =>
        case Continue(n, t, br) =>
          RunBearers(env, policy, i + 1, n, t, br, Some(a.0.response));
          var o := Run(env, policy, i + 1, n, t, br, Some(a.0.response));
          assert ([a.0] + o.steps)[1..] == o.steps;
      }
    }
  }

  // ---------------------------------------------------------------------------
  // Properties of _request
  // ---------------------------------------------------------------------------

  /** With a token in hand, `_request` is the run of the loop from attempt 0. */
  lemma RequestRuns(env: Env, policy: HeaderPolicy, tokens: TokenState, now: real)
    requires GetToken(tokens, now, env.tokenServer(0)).Ok?
    ensures var t := GetToken(tokens, now, env.tokenServer(0)).value;
      Request(env, policy, tokens, now) ==
        Run(env, policy, 0, if NeedsRefresh(tokens, now) then 1 else 0, t, t.accessToken, None)
  {
  }

  /** The attempts of `_request`: at most `max_tries`; attempt j is the
      server's answer, at try j, to the header it sent; every attempt but the
      last was retryable. */
  lemma RequestAttempts(env: Env, policy: HeaderPolicy, tokens: TokenState, now: real)
    requires GetToken(tokens, now, env.tokenServer(0)).Ok?
    ensures var o := Request(env, policy, tokens, now);
      && |o.steps| <= env.maxTries
      && (forall j :: 0 <= j < |o.steps| ==> o.steps[j].response == env.server(j, o.steps[j].bearer))
      && (forall j :: 0 <= j < |o.steps| - 1 ==> Retryable(o.steps[j].response.status))
  {
    var t := GetToken(tokens, now, env.tokenServer(0)).value;
    var n := if NeedsRefresh(tokens, now) then 1 else 0;
    RequestRuns(env, policy, tokens, now);
    var o := Run(env, policy, 0, n, t, t.accessToken, None);
    RunLength(env, policy, 0, n, t, t.accessToken, None);
    RunAnswered(env, policy, 0, n, t, t.accessToken, None);
    RunRetriedBeforeLast(env, policy, 0, n, t, t.accessToken, None);
    forall j | 0 <= j < |o.steps|
      ensures o.steps[j].response == env.server(j, o.steps[j].bearer)
    {
      AnsweredAt(env, 0, o.steps, j);
    }
    forall j | 0 <= j < |o.steps| - 1
      ensures Retryable(o.steps[j].response.status)
    {
      RetriedAt(o.steps, j);
    }
  }

  /** What `_request` returns: a response only after some attempt, and then
      the last attempt's; a retryable one only after exactly `max_tries`
      attempts; `max_tries` = 0 is the only way to end without a response;
      an error after some attempt comes from the refresh a 401 triggered. */
  lemma RequestResult(env: Env, policy: HeaderPolicy, tokens: TokenState, now: real)
    requires GetToken(tokens, now, env.tokenServer(0)).Ok?
    ensures var o := Request(env, policy, tokens, now);
      && (o.result.Ok? ==> |o.steps| > 0 && o.result.value == o.steps[|o.steps| - 1].response)
      && (o.result.Ok? && Retryable(o.result.value.status) ==> |o.steps| == env.maxTries)
      && (o.result == Err(NoAttempts) <==> env.maxTries == 0)
      && (o.result.Err? && env.maxTries > 0 ==> o.steps[|o.steps| - 1].response.status == 401)
  {
    var t := GetToken(tokens, now, env.tokenServer(0)).value;
    var n := if NeedsRefresh(tokens, now) then 1 else 0;
    RequestRuns(env, policy, tokens, now);
    RunLength(env, policy, 0, n, t, t.accessToken, None);
    RunResult(env, policy, 0, n, t, t.accessToken, None);
    if env.maxTries > 0 {
      RunExhausted(env, policy, 0, n, t, t.accessToken, None);
    }
  }

  /** The first non-retryable response ends `_request` and is returned. */
  lemma RequestReturnsFirstFinal(env: Env, policy: HeaderPolicy, tokens: TokenState, now: real, j: nat)
    requires GetToken(tokens, now, env.tokenServer(0)).Ok?
    requires j < |Request(env, policy, tokens, now).steps|
    requires !Retryable(Request(env, policy, tokens, now).steps[j].response.status)
    ensures var o := Request(env, policy, tokens, now);
      j == |o.steps| - 1 && o.result == Ok(o.steps[j].response)
  {
    RequestAttempts(env, policy, tokens, now);
    RequestResult(env, policy, tokens, now);
  }

  /** The waits of `_request`, whose backoff starts at 1: each is
      non-negative, tops the spacing floor up, and honours its `retry_after`,
      which is 1 after a 401, the server's request after a 429, none before
      returning, and after the n-th server error the n-th backoff of the
      schedule, never more than 60. */
  lemma RequestWaits(env: Env, policy: HeaderPolicy, tokens: TokenState, now: real)
    ensures var o := Request(env, policy, tokens, now);
      var w := Waits(env, o.steps, 1);
      forall j :: 0 <= j < |o.steps| ==>
        var st := o.steps[j];
        var backoff := Backoff(ServerErrors(o.steps[..j]));
        && w[j] >= 0.0 && w[j] >= env.floor - st.response.elapsed
        && (st.response.status == 401 ==> w[j] >= 1.0)
        && (st.response.status == 429 ==> w[j] >= RateLimitWait(st.response) as real)
        && (500 <= st.response.status < 600 ==> w[j] >= backoff as real && backoff <= BackoffCap)
  {
    StepsWaits(env, Request(env, policy, tokens, now).steps);
  }

  /** The same bounds for the waits after any sequence of attempts. */
  lemma StepsWaits(env: Env, steps: seq<Step>)
    ensures var w := Waits(env, steps, 1);
      forall j :: 0 <= j < |steps| ==>
        var st := steps[j];
        var backoff := Backoff(ServerErrors(steps[..j]));
        && w[j] >= 0.0 && w[j] >= env.floor - st.response.elapsed
        && (st.response.status == 401 ==> w[j] >= 1.0)
        && (st.response.status == 429 ==> w[j] >= RateLimitWait(st.response) as real)
        && (500 <= st.response.status < 600 ==> w[j] >= backoff as real && backoff <= BackoffCap)
  {
    var w := Waits(env, steps, 1);
    forall j | 0 <= j < |steps|
      ensures var st := steps[j];
        var backoff := Backoff(ServerErrors(steps[..j]));
        && w[j] >= 0.0 && w[j] >= env.floor - st.response.elapsed
        && (st.response.status == 401 ==> w[j] >= 1.0)
        && (st.response.status == 429 ==> w[j] >= RateLimitWait(st.response) as real)
        && (500 <= st.response.status < 600 ==> w[j] >= backoff as real && backoff <= BackoffCap)
    {
      StepWait(env, steps, j);
    }
  }

  /** The wait after attempt `j`, from the retry-after of its status class. */
  lemma StepWait(env: Env, steps: seq<Step>, j: nat)
    requires j < |steps|
    ensures var backoff := Backoff(ServerErrors(steps[..j]));
      && Waits(env, steps, 1)[j] == SleepWithFloor(env.floor, steps[j].response.elapsed, RetryAfter(steps[j], backoff))
      && 1 <= backoff <= BackoffCap
  {
    WaitsAt(env, steps, 0, j);
    BackoffSchedule(ServerErrors(steps[..j]));
  }

  /** The header `_request` sends: as written, every attempt sends the token
      obtained before the loop; with `FollowRefresh`, the first does and each
      later one sends the token cached after the one before. */
  lemma RequestBearers(env: Env, policy: HeaderPolicy, tokens: TokenState, now: real)
    requires GetToken(tokens, now, env.tokenServer(0)).Ok?
    ensures var o := Request(env, policy, tokens, now);
      var token := GetToken(tokens, now, env.tokenServer(0)).value.accessToken;
      && (policy == InitialHeader ==> forall j :: 0 <= j < |o.steps| ==> o.steps[j].bearer == token)
      && (policy == FollowRefresh ==>
            (|o.steps| > 0 ==> o.steps[0].bearer == token) &&
            forall j :: 0 < j < |o.steps| ==> o.steps[j].bearer == o.steps[j - 1].tokenAfter)
  {
    var t := GetToken(tokens, now, env.tokenServer(0)).value;
    var n := if NeedsRefresh(tokens, now) then 1 else 0;
    var o := Run(env, policy, 0, n, t, t.accessToken, None);
    RequestRuns(env, policy, tokens, now);
    RunBearers(env, policy, 0, n, t, t.accessToken, None);
    if policy == InitialHeader {
      forall j | 0 <= j < |o.steps|
        ensures o.steps[j].bearer == t.accessToken
      {
        AllSendAt(o.steps, t.accessToken, j);
      }
    } else {
      forall j | 0 < j < |o.steps|
        ensures o.steps[j].bearer == o.steps[j - 1].tokenAfter
      {
        FollowsCacheAt(o.steps, j);
      }
    }
  }

  // ---------------------------------------------------------------------------
  // The stale header after a 401
  // ---------------------------------------------------------------------------

  /** As written, a refresh after a 401 does not reach the header: when the
      server rejects the header's token on every attempt and every refresh
      succeeds, the loop sends that token on every remaining try and returns
      the last 401, although each refresh cached a new token. */
  lemma {:induction false} StaleHeaderNeverRecovers(env: Env, tokens: TokenState, bearer: string, i: nat,
                                                    refreshes: nat, last: Option<Response>)
    requires HasCredentials(tokens)
    requires forall k :: env.server(k, bearer).status == 401
    requires forall n :: env.tokenServer(n).status == 200
    requires i < env.maxTries
    ensures var o := Run(env, InitialHeader, i, refreshes, tokens, bearer, last);
      && i + |o.steps| == env.maxTries
      && o.result == Ok(env.server(env.maxTries - 1, bearer))
      && AllSend(o.steps, bearer)
    decreases env.maxTries - i
  {
    assert env.server(i, bearer).status == 401;
    assert env.tokenServer(refreshes).status == 200;
    var t := Refresh(tokens, env.tokenServer(refreshes)).value;
    var a := Attempt(env, InitialHeader, i, refreshes, tokens, bearer);
    assert a.1 == Continue(refreshes + 1, t, bearer);
    var o := Run(env, InitialHeader, i + 1, refreshes + 1, t, bearer, Some(a.0.response));
    if i + 1 < env.maxTries {
      StaleHeaderNeverRecovers(env, t, bearer, i + 1, refreshes + 1, Some(a.0.response));
    }
    assert ([a.0] + o.steps)[1..] == o.steps;
  }

  /** The same at the level of `_request`: with a fresh cached token the
      server always rejects, every attempt sends it and the last 401 is
      returned. */
  lemma StaleHeaderRequest(env: Env, tokens: TokenState, now: real)
    requires HasCredentials(tokens) && !NeedsRefresh(tokens, now)
    requires forall k :: env.server(k, tokens.accessToken).status == 401
    requires forall n :: env.tokenServer(n).status == 200
    requires env.maxTries > 0
    ensures var o := Request(env, InitialHeader, tokens, now);
      && |o.steps| == env.maxTries
      && o.result == Ok(env.server(env.maxTries - 1, tokens.accessToken))
      && forall j :: 0 <= j < |o.steps| ==> o.steps[j].bearer == tokens.accessToken
  {
    RequestRuns(env, InitialHeader, tokens, now);
    StaleHeaderNeverRecovers(env, tokens, tokens.accessToken, 0, 0, None);
    var o := Request(env, InitialHeader, tokens, now);
    forall j | 0 <= j < |o.steps|
      ensures o.steps[j].bearer == tokens.accessToken
    {
      AllSendAt(o.steps, tokens.accessToken, j);
    }
  }

  /** With the header following the refresh, the same situation recovers: a
      401 on the first attempt, a successful refresh to a token the server
      does not retry, and the second attempt sends the new token and its
      response is returned. */
  lemma RefreshedHeaderRecovers(env: Env, tokens: TokenState, now: real)
    requires env.maxTries >= 2
    requires !NeedsRefresh(tokens, now) && HasCredentials(tokens)
    requires env.server(0, tokens.accessToken).status == 401
    requires env.tokenServer(0).status == 200
    requires !Retryable(env.server(1, Refresh(tokens, env.tokenServer(0)).value.accessToken).status)
    ensures var o := Request(env, FollowRefresh, tokens, now);
      var renewed := Refresh(tokens, env.tokenServer(0)).value.accessToken;
      && |o.steps| == 2
      && o.steps[1].bearer == renewed
      && o.result == Ok(env.server(1, renewed))
  {
    var t := Refresh(tokens, env.tokenServer(0)).value;
    assert Request(env, FollowRefresh, tokens, now) == Run(env, FollowRefresh, 0, 0, tokens, tokens.accessToken, None);
    var a := Attempt(env, FollowRefresh, 0, 0, tokens, tokens.accessToken);
    assert a.1 == Continue(1, t, t.accessToken);
    var b := Attempt(env, FollowRefresh, 1, 1, t, t.accessToken);
    assert b.1 == Stop(Ok(env.server(1, t.accessToken)), t);
    var o2 := Run(env, FollowRefresh, 1, 1, t, t.accessToken, Some(a.0.response));
    assert o2 == Outcome(Ok(env.server(1, t.accessToken)), t, [b.0]);
  }

  /** The credentials of the concrete case: the cached token "stale" is
      still within its watermark until time 100. */
  function StaleTokens(): (s: TokenState)
    ensures HasCredentials(s) && s.accessToken == "stale" && s.expiresAt == 100.0
  {
    TokenState("id", "secret", "refresh", "stale", 100.0)
  }

  /** The concrete case as written: the server answers 401 to "stale" and 200
      to anything else, and the token endpoint issues "renewed"; all seven
      attempts send "stale" and the request ends with a 401. */
  lemma StaleHeaderExample(now: real)
    requires 0.0 <= now < 100.0
    ensures var o := Request(StaleEnv(), InitialHeader, StaleTokens(), now);
      o.result.Ok? && o.result.value.status == 401 && |o.steps| == DefaultMaxTries
  {
    var env := StaleEnv();
    var tokens := StaleTokens();
    assert forall n :: env.tokenServer(n).status == 200;
    StaleHeaderRequest(env, tokens, now);
  }

  /** The concrete case with the header following the refresh: the second
      attempt sends "renewed" and the request returns its 200. */
  lemma RefreshedHeaderExample(now: real)
    requires 0.0 <= now < 100.0
    ensures var o := Request(StaleEnv(), FollowRefresh, StaleTokens(), now);
      o.result.Ok? && o.result.value.status == 200 && |o.steps| == 2
  {
    var env := StaleEnv();
    var tokens := StaleTokens();
    var t := Refresh(tokens, env.tokenServer(0)).value;
    assert t.accessToken == "renewed";
    assert env.server(1, "renewed").status == 200;
    RefreshedHeaderRecovers(env, tokens, now);
  }

  /** The scripted environment of the concrete case. */
  function StaleEnv(): (env: Env)
    ensures env.maxTries == DefaultMaxTries
    ensures forall k :: env.server(k, "stale").status == 401
    ensures forall k, b :: b != "stale" ==> env.server(k, b).status == 200
    ensures forall n :: env.tokenServer(n) == TokenReply(200, TokenBody(Some("renewed"), "", Int(3600)), 1.0)
  {
    Env(DefaultMinSleep, DefaultMaxTries,
        (k: nat, b: string) => Response(if b == "stale" then 401 else 200, "", None, 0.0),
        (n: nat) => TokenReply(200, TokenBody(Some("renewed"), "", Int(3600)), 1.0))
  }
}
