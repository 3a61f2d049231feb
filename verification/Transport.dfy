/** The TypeScript client's transport: bearer tokens and the retry loop of clients/typescript/src/transport.ts. */
module Transport {
  import opened Common

  /** The part of the configuration that the transport reads; an empty string counts as absent. */
  datatype Config = Config(
    username: Option<string>, passwordEnv: Option<string>, apiToken: Option<string>,
    maxAttempts: real, baseDelay: real, maxDelay: real)

  /** What the configuration constructor accepts: any positive number of attempts, whole or not. */
  predicate ValidConfig(c: Config) {
    && c.maxAttempts > 0.0 && c.baseDelay >= 0.0 && c.maxDelay >= 0.0
    && c.apiToken != Some("") && c.username != Some("") && c.passwordEnv != Some("")
  }

  /** How one attempt ends: a response with its Retry-After header as a number of seconds, an API error thrown by a
      custom fetch, or any other failure. */
  datatype Answer = Response(status: int, retryAfter: Option<real>) | ApiError | Failure

  /** How a request ends: with the answer to an attempt, with the error for a failed last attempt, or after the loop. */
  datatype End = Returned(attempt: nat) | Rethrown(attempt: nat) | Failed(attempt: nat) | Exhausted

  datatype Run = Run(sends: nat, sleeps: seq<real>, end: End)

  const RETRYABLE_STATUSES := {408, 429, 500, 502, 503, 504}

  // ---------------------------------------------------------------------
  // Delays
  // ---------------------------------------------------------------------

  function Pow2(n: nat): (r: real)
    ensures r >= 1.0
  {
    if n == 0 then 1.0 else 2.0 * Pow2(n - 1)
  }

  function Min(a: real, b: real): real {
    if a <= b then a else b
  }

  /** The exponential delay before jitter, in seconds. */
  function Backoff(c: Config, attempt: nat): real
    requires attempt >= 1
  {
    Min(c.maxDelay, c.baseDelay * Pow2(attempt - 1))
  }

  function RetryDelayMilliseconds(c: Config, attempt: nat, retryAfter: Option<real>, random: real): real
    requires attempt >= 1
  {
    match retryAfter
    case Some(seconds) => if seconds * 1000.0 > 0.0 then seconds * 1000.0 else 0.0
    case None => WithJitter(Backoff(c, attempt), random)
  }

  /** A delay in seconds with up to a tenth more, in milliseconds. */
  function WithJitter(delay: real, random: real): real {
    (delay + random * delay * 0.1) * 1000.0
  }

  // ---------------------------------------------------------------------
  // The retry loop
  // ---------------------------------------------------------------------

  function Attempts(c: Config, httpMethod: string): real {
    if httpMethod == "GET" || httpMethod == "HEAD" then c.maxAttempts else 1.0
  }

  /** An answer after which the loop tries again unless it was the last attempt. */
  predicate Retryable(a: Answer) {
    match a
    case Response(status, _) => status in RETRYABLE_STATUSES
    case ApiError => false
    case Failure => true
  }

  function HeaderOf(a: Answer): Option<real> {
    if a.Response? then a.retryAfter else None
  }

  function EndOf(a: Answer, attempt: nat): End {
    match a
    case Response(_, _) => Returned(attempt)
    case ApiError => Rethrown(attempt)
    case Failure => Failed(attempt)
  }

  function Wait(c: Config, answers: nat -> Answer, random: nat -> real, attempt: nat): real
    requires attempt >= 1
  {
    RetryDelayMilliseconds(c, attempt, HeaderOf(answers(attempt)), random(attempt))
  }

  /** The run of the loop from a given attempt on. */
  function RunFrom(c: Config, attempts: real, answers: nat -> Answer, random: nat -> real, attempt: nat): Run
    requires attempt >= 1
    decreases attempts.Floor - attempt + 1
  {
    if attempt as real > attempts then Run(0, [], Exhausted)
    else if !Retryable(answers(attempt)) || attempt as real == attempts then
      Run(1, [], EndOf(answers(attempt), attempt))
    else
      var rest := RunFrom(c, attempts, answers, random, attempt + 1);
      Run(1 + rest.sends, [Wait(c, answers, random, attempt)] + rest.sleeps, rest.end)
  }

  lemma OneAttempt(c: Config, attempts: real, answers: nat -> Answer, random: nat -> real, attempt: nat)
    requires attempt >= 1 && attempt as real <= attempts
    ensures RunFrom(c, attempts, answers, random, attempt) ==
      if !Retryable(answers(attempt)) || attempt as real == attempts then Run(1, [], EndOf(answers(attempt), attempt))
      else
        var rest := RunFrom(c, attempts, answers, random, attempt + 1);
        Run(1 + rest.sends, [Wait(c, answers, random, attempt)] + rest.sleeps, rest.end)
  {
  }

  lemma NoAttempt(c: Config, attempts: real, answers: nat -> Answer, random: nat -> real, attempt: nat)
    requires attempt >= 1 && attempt as real > attempts
    ensures RunFrom(c, attempts, answers, random, attempt) == Run(0, [], Exhausted)
  {
  }

  /** A run continued after some sends and sleeps. */
  function After(sends: nat, sleeps: seq<real>, rest: Run): (r: Run)
    ensures rest.sleeps == [] ==> r == Run(sends + rest.sends, sleeps, rest.end)
  {
    Run(sends + rest.sends, sleeps + rest.sleeps, rest.end)
  }

  lemma AfterOneMore(sends: nat, sleeps: seq<real>, wait: real, rest: Run)
    ensures After(sends, sleeps, Run(1 + rest.sends, [wait] + rest.sleeps, rest.end))
         == After(sends + 1, sleeps + [wait], rest)
  {
    assert sleeps + ([wait] + rest.sleeps) == sleeps + [wait] + rest.sleeps;
  }

  // ---------------------------------------------------------------------
  // Tokens
  // ---------------------------------------------------------------------

  datatype AuthError = NoMethod | NoPasswordEnv | MissingPassword | LoginRejected | NoAccessToken

  /** The answer of the login endpoint: refused, or accepted with the access token in it, if any. */
  datatype Login = Refused | Accepted(accessToken: Option<string>)

  function TokenFor(c: Config, token: Option<string>, password: Option<string>,
                    login: Login): Result<string, AuthError>
  {
    if token.Some? then Ok(token.value)
    else if c.username == None then Err(NoMethod)
    else if c.passwordEnv == None then Err(NoPasswordEnv)
    else if password == None || password == Some("") then Err(MissingPassword)
    else if login == Refused then Err(LoginRejected)
    else if login.accessToken == None || login.accessToken == Some("") then Err(NoAccessToken)
    else Ok(login.accessToken.value)
  }

  /** A 401 answer makes a login client forget its token; a client with a fixed API token keeps it. */
  function TokenAfter(c: Config, token: Option<string>, answers: nat -> Answer, end: End): Option<string> {
    if end.Returned? && answers(end.attempt).Response? && answers(end.attempt).status == 401
       && c.apiToken == None && c.username.Some? then None
    else token
  }

  class Client {
    const config: Config
    var token: Option<string>

    constructor (config: Config)
      requires ValidConfig(config)
      ensures this.config == config && token == config.apiToken
    {
      this.config := config;
      token := config.apiToken;
    }

    /** The current token, or a new one from the login endpoint. */
    method GetToken(password: Option<string>, login: Login) returns (r: Result<string, AuthError>)
      modifies this`token
      ensures r == TokenFor(config, old(token), password, login)
      ensures token == if r.Ok? then Some(r.value) else old(token)
    {
      if token.Some? {
        return Ok(token.value);
      }
      if config.username == None {
        return Err(NoMethod);
      }
      if config.passwordEnv == None {
        return Err(NoPasswordEnv);
      }
      if password == None || password == Some("") {
        return Err(MissingPassword);
      }
      if login == Refused {
        return Err(LoginRejected);
      }
      if login.accessToken == None || login.accessToken == Some("") {
        return Err(NoAccessToken);
      }
      token := Some(login.accessToken.value);
      return Ok(login.accessToken.value);
    }

    /** The loop of `authorizedFetch`. */
    method SendWithRetries(attempts: real, answers: nat -> Answer, random: nat -> real) returns (run: Run)
      modifies this`token
      ensures run == RunFrom(config, attempts, answers, random, 1)
      ensures token == TokenAfter(config, old(token), answers, run.end)
    {
      hide RetryDelayMilliseconds, RunFrom;
      var sends, sleeps := 0, [];
      var attempt := 1;
      while attempt as real <= attempts
        invariant attempt >= 1 && token == old(token)
        invariant RunFrom(config, attempts, answers, random, 1)
               == After(sends, sleeps, RunFrom(config, attempts, answers, random, attempt))
        decreases attempts.Floor - attempt + 1
      {
        var answer := answers(attempt);
        var wait;
        OneAttempt(config, attempts, answers, random, attempt);
        sends := sends + 1;
        match answer {
          case Response(status, retryAfter) =>
            if status == 401 && config.apiToken == None && config.username.Some? {
              token := None;
            }
            if status !in RETRYABLE_STATUSES || attempt as real == attempts {
              return Run(sends, sleeps, Returned(attempt));
            }
            wait := RetryDelayMilliseconds(config, attempt, retryAfter, random(attempt));
          case ApiError =>
            return Run(sends, sleeps, Rethrown(attempt));
          case Failure =>
            if attempt as real == attempts {
              return Run(sends, sleeps, Failed(attempt));
            }
            wait := RetryDelayMilliseconds(config, attempt, None, random(attempt));
        }
        AfterOneMore(sends - 1, sleeps, wait, RunFrom(config, attempts, answers, random, attempt + 1));
        sleeps := sleeps + [wait];
        attempt := attempt + 1;
      }
      NoAttempt(config, attempts, answers, random, attempt);
      return Run(sends, sleeps, Exhausted);
    }

    /** `authorizedFetch`: what was sent and slept, and how it ended; without a token nothing is sent. */
    method AuthorizedFetch(httpMethod: string, password: Option<string>, login: Login, answers: nat -> Answer,
                           random: nat -> real)
      returns (r: Result<Run, AuthError>)
      modifies this`token
      ensures TokenFor(config, old(token), password, login).Err? ==>
                r.Err? && r.error == TokenFor(config, old(token), password, login).error && token == old(token)
      ensures TokenFor(config, old(token), password, login).Ok? ==>
                && r == Ok(RunFrom(config, Attempts(config, httpMethod), answers, random, 1))
                && token == TokenAfter(config, Some(TokenFor(config, old(token), password, login).value), answers,
                                       r.value.end)
    {
      hide RunFrom, TokenAfter, TokenFor;
      var auth := GetToken(password, login);
      if auth.Err? {
        return Err(auth.error);
      }
      var run := SendWithRetries(Attempts(config, httpMethod), answers, random);
      return Ok(run);
    }
  }

  // ---------------------------------------------------------------------
  // What a run does
  // ---------------------------------------------------------------------

  /** The number of attempts a loop bound allows. */
  function Whole(attempts: real): int {
    attempts.Floor
  }

  /** The attempt at which the loop ends: the first whose answer is final or that is the last one allowed. */
  predicate Stops(attempts: real, answers: nat -> Answer, k: nat) {
    !Retryable(answers(k)) || k as real == attempts
  }

  /** A run sends exactly up to the first attempt that stops it and reports that attempt's answer; only when none stops
      it does it leave the loop, after as many sends as the bound allows. */
  lemma {:induction false} RunIsFirstStop(c: Config, attempts: real, answers: nat -> Answer, random: nat -> real,
                                          from: nat)
    requires from >= 1 && from as real <= attempts + 1.0
    ensures var r := RunFrom(c, attempts, answers, random, from);
            && (forall k: nat :: from <= k < from + r.sends - 1 ==> !Stops(attempts, answers, k))
            && from + r.sends - 1 <= Whole(attempts)
            && (r.end != Exhausted ==>
                 && r.sends >= 1
                 && Stops(attempts, answers, from + r.sends - 1)
                 && r.end == EndOf(answers(from + r.sends - 1), from + r.sends - 1)
                 && |r.sleeps| == r.sends - 1)
            && (r.end == Exhausted ==>
                 && from + r.sends - 1 == Whole(attempts)
                 && (forall k: nat :: from <= k <= Whole(attempts) ==> !Stops(attempts, answers, k))
                 && |r.sleeps| == r.sends)
            && (forall i :: 0 <= i < |r.sleeps| ==> r.sleeps[i] == Wait(c, answers, random, from + i))
    decreases Whole(attempts) - from + 1
  {
    hide Wait, Retryable;
    var r := RunFrom(c, attempts, answers, random, from);
    if from as real >= attempts || !Retryable(answers(from)) {
    } else {
      RunIsFirstStop(c, attempts, answers, random, from + 1);
      var rest := RunFrom(c, attempts, answers, random, from + 1);
      forall i | 0 <= i < |r.sleeps| ensures r.sleeps[i] == Wait(c, answers, random, from + i) {
        if i > 0 {
          assert r.sleeps[i] == rest.sleeps[i - 1];
        }
      }
      assert !Stops(attempts, answers, from);
    }
  }

  /** GET and HEAD are sent at most as often as configured; every other method is sent exactly once. */
  lemma SendsBounded(c: Config, httpMethod: string, answers: nat -> Answer, random: nat -> real)
    requires ValidConfig(c)
    ensures var r := RunFrom(c, Attempts(c, httpMethod), answers, random, 1);
            && r.sends <= Whole(Attempts(c, httpMethod))
            && (httpMethod != "GET" && httpMethod != "HEAD" ==>
                 r == Run(1, [], EndOf(answers(1), 1)))
  {
    RunIsFirstStop(c, Attempts(c, httpMethod), answers, random, 1);
  }

  predicate IsWhole(x: real) {
    x.Floor as real == x
  }

  lemma WholeStops(attempts: real, answers: nat -> Answer)
    requires attempts > 0.0 && IsWhole(attempts)
    ensures Whole(attempts) >= 1 && Stops(attempts, answers, Whole(attempts))
  {
  }

  /** The error after the loop is reached exactly when the bound is not a whole number and every attempt it allows asks
      for another one; a bound below one reaches it without sending anything. */
  lemma ExhaustedIff(c: Config, attempts: real, answers: nat -> Answer, random: nat -> real)
    requires attempts > 0.0
    ensures RunFrom(c, attempts, answers, random, 1).end == Exhausted
            <==> !IsWhole(attempts) && forall k: nat :: 1 <= k <= Whole(attempts) ==> Retryable(answers(k))
  {
    if IsWhole(attempts) {
      WholeStops(attempts, answers);
    }
    RunIsFirstStop(c, attempts, answers, random, 1);
    var r := RunFrom(c, attempts, answers, random, 1);
    if r.end == Exhausted {
      forall k: nat | 1 <= k <= Whole(attempts) ensures Retryable(answers(k)) {
        assert !Stops(attempts, answers, k);
      }
    } else {
      assert Stops(attempts, answers, r.sends);
    }
  }

  /** So a client that is configured for two and a half attempts and always told to try again gives up after the second
      without an answer. */
  lemma TwoAndAHalfAttempts(c: Config, answers: nat -> Answer, random: nat -> real)
    requires ValidConfig(c) && c.maxAttempts == 2.5
    requires forall k :: answers(k) == Response(503, None)
    ensures
      var r := RunFrom(c, Attempts(c, "GET"), answers, random, 1);
      r.end == Exhausted && r.sends == 2
  {
    hide RunFrom, Wait;
    assert Whole(2.5) == 2;
    ExhaustedIff(c, 2.5, answers, random);
    RunIsFirstStop(c, 2.5, answers, random, 1);
  }

  // ---------------------------------------------------------------------
  // How long a run sleeps
  // ---------------------------------------------------------------------

  function Sum(s: seq<real>): real {
    if s == [] then 0.0 else s[0] + Sum(s[1..])
  }

  /** The delays before jitter of n waits in a row, in seconds. */
  function BackoffSum(c: Config, from: nat, n: nat): real
    requires from >= 1
    decreases n
  {
    if n == 0 then 0.0 else Backoff(c, from) + BackoffSum(c, from + 1, n - 1)
  }

  ghost predicate NoRetryAfter(answers: nat -> Answer) {
    forall k :: HeaderOf(answers(k)) == None
  }

  ghost predicate Jitter(random: nat -> real) {
    forall k :: 0.0 <= random(k) < 1.0
  }

  lemma OneWait(c: Config, answers: nat -> Answer, random: nat -> real, k: nat)
    requires ValidConfig(c) && NoRetryAfter(answers) && Jitter(random) && k >= 1
    ensures 1000.0 * Backoff(c, k) <= Wait(c, answers, random, k) <= 1100.0 * Backoff(c, k)
  {
    BackoffNonnegative(c, k);
    hide Backoff, WithJitter;
    assert HeaderOf(answers(k)) == None;
    JitterBounded(Backoff(c, k), random(k));
  }

  lemma JitterBounded(delay: real, random: real)
    requires 0.0 <= delay && 0.0 <= random < 1.0
    ensures 1000.0 * delay <= WithJitter(delay, random) <= 1100.0 * delay
  {
    ShareOf(delay, random);
    WithTenth(delay, random * delay);
  }

  lemma ShareOf(delay: real, random: real)
    requires 0.0 <= delay && 0.0 <= random < 1.0
    ensures 0.0 <= random * delay <= delay
  {
  }

  lemma WithTenth(delay: real, share: real)
    requires 0.0 <= share <= delay
    ensures 1000.0 * delay <= (delay + share * 0.1) * 1000.0 <= 1100.0 * delay
  {
  }

  lemma BackoffNonnegative(c: Config, k: nat)
    requires ValidConfig(c) && k >= 1
    ensures 0.0 <= Backoff(c, k)
  {
  }

  lemma {:induction false} SleepsBetween(c: Config, answers: nat -> Answer, random: nat -> real, from: nat,
                                         sleeps: seq<real>)
    requires ValidConfig(c) && NoRetryAfter(answers) && Jitter(random) && from >= 1
    requires forall i :: 0 <= i < |sleeps| ==> sleeps[i] == Wait(c, answers, random, from + i)
    ensures 1000.0 * BackoffSum(c, from, |sleeps|) <= Sum(sleeps) <= 1100.0 * BackoffSum(c, from, |sleeps|)
    decreases |sleeps|
  {
    if sleeps == [] {
    } else {
      hide Backoff, Wait;
      OneWait(c, answers, random, from);
      assert forall i :: 0 <= i < |sleeps| - 1 ==> sleeps[1..][i] == Wait(c, answers, random, from + 1 + i);
      SleepsBetween(c, answers, random, from + 1, sleeps[1..]);
    }
  }

  /** The capped delays stay below a constant per wait. */
  lemma {:induction false} BackoffSumCapped(c: Config, from: nat, n: nat)
    requires from >= 1
    ensures BackoffSum(c, from, n) <= n as real * c.maxDelay
    decreases n
  {
    hide Pow2;
    if n == 0 {
    } else {
      BackoffSumCapped(c, from + 1, n - 1);
      assert n as real * c.maxDelay == (n - 1) as real * c.maxDelay + c.maxDelay;
    }
  }

  function PowerSum(from: nat, n: nat): real
    decreases n
  {
    if n == 0 then 0.0 else Pow2(from) + PowerSum(from + 1, n - 1)
  }

  lemma {:induction false} PowerSumClosed(from: nat, n: nat)
    ensures PowerSum(from, n) == Pow2(from + n) - Pow2(from)
    decreases n
  {
    if n == 0 {
    } else {
      PowerSumClosed(from + 1, n - 1);
    }
  }

  lemma Distribute(b: real, x: real, y: real, z: real)
    requires z == x + y
    ensures b * z == b * x + b * y
  {
  }

  /** The capped delays stay below a geometric series. */
  lemma {:induction false} BackoffSumGeometric(c: Config, k: nat, n: nat)
    ensures BackoffSum(c, k + 1, n) <= c.baseDelay * PowerSum(k, n)
    decreases n
  {
    hide Pow2;
    if n == 0 {
    } else {
      BackoffSumGeometric(c, k + 1, n - 1);
      assert Backoff(c, k + 1) <= c.baseDelay * Pow2(k);
      Distribute(c.baseDelay, Pow2(k), PowerSum(k + 1, n - 1), PowerSum(k, n));
    }
  }

  /** The most seconds that n waits in a row can take before jitter: capped each, geometric together. */
  function Limit(c: Config, n: nat): real {
    Min(n as real * c.maxDelay, c.baseDelay * (Pow2(n) - 1.0))
  }

  lemma BackoffWithinLimit(c: Config, n: nat)
    ensures BackoffSum(c, 1, n) <= Limit(c, n)
  {
    hide BackoffSum, PowerSum;
    BackoffSumCapped(c, 1, n);
    BackoffSumGeometric(c, 0, n);
    PowerSumClosed(0, n);
    assert Pow2(0) == 1.0;
  }

  /** Without Retry-After, a request sent n times by a client with a whole number of attempts sleeps at most
      1.1 * min((n-1) * cap, base * (2^(n-1) - 1)) seconds, and never less than the delays without jitter. */
  lemma SleepBounded(c: Config, httpMethod: string, answers: nat -> Answer, random: nat -> real)
    requires ValidConfig(c) && NoRetryAfter(answers) && Jitter(random) && IsWhole(Attempts(c, httpMethod))
    ensures var r := RunFrom(c, Attempts(c, httpMethod), answers, random, 1);
            && r.sends >= 1
            && 1000.0 * BackoffSum(c, 1, r.sends - 1) <= Sum(r.sleeps) <= 1100.0 * Limit(c, r.sends - 1)
            && Sum(r.sleeps) <= 1100.0 * ((r.sends - 1) as real * c.maxDelay)
            && Sum(r.sleeps) <= 1100.0 * (c.baseDelay * (Pow2(r.sends - 1) - 1.0))
  {
    hide RunFrom, Sum, BackoffSum, Wait, Limit;
    var attempts := Attempts(c, httpMethod);
    RunIsFirstStop(c, attempts, answers, random, 1);
    ExhaustedIff(c, attempts, answers, random);
    var r := RunFrom(c, attempts, answers, random, 1);
    assert |r.sleeps| == r.sends - 1;
    SleepsBetween(c, answers, random, 1, r.sleeps);
    BackoffWithinLimit(c, |r.sleeps|);
    LimitIsBoth(c, |r.sleeps|);
  }

  lemma LimitIsBoth(c: Config, n: nat)
    ensures Limit(c, n) <= n as real * c.maxDelay && Limit(c, n) <= c.baseDelay * (Pow2(n) - 1.0)
  {
  }

  /** A Retry-After header decides the wait alone: no cap, no jitter, and never a negative wait. */
  lemma RetryAfterDecides(c: Config, attempts: real, answers: nat -> Answer, random: nat -> real, i: nat)
    requires attempts > 0.0
    requires var r := RunFrom(c, attempts, answers, random, 1);
             i < |r.sleeps| && HeaderOf(answers(i + 1)).Some?
    ensures var seconds := HeaderOf(answers(i + 1)).value;
            RunFrom(c, attempts, answers, random, 1).sleeps[i] == if seconds >= 0.0 then seconds * 1000.0 else 0.0
  {
    RunIsFirstStop(c, attempts, answers, random, 1);
  }

  // ---------------------------------------------------------------------
  // Tokens over many requests
  // ---------------------------------------------------------------------

  /** One call: its method, the password and login answer at that moment, and the answers to its attempts. */
  datatype Call = Call(httpMethod: string, password: Option<string>, login: Login, answers: nat -> Answer,
                       random: nat -> real)

  /** The token that a call sends, if it gets that far. */
  function Sent(c: Config, token: Option<string>, call: Call): Option<string> {
    match TokenFor(c, token, call.password, call.login)
    case Ok(t) => Some(t)
    case Err(_) => None
  }

  function Next(c: Config, token: Option<string>, call: Call): Option<string> {
    if Sent(c, token, call) == None then token
    else TokenAfter(c, Sent(c, token, call), call.answers,
                    RunFrom(c, Attempts(c, call.httpMethod), call.answers, call.random, 1).end)
  }

  /** The token a client holds after a list of calls. */
  function TokenAt(c: Config, calls: seq<Call>): Option<string> {
    if calls == [] then c.apiToken else Next(c, TokenAt(c, calls[..|calls| - 1]), calls[|calls| - 1])
  }

  predicate Rejected(c: Config, call: Call) {
    var end := RunFrom(c, Attempts(c, call.httpMethod), call.answers, call.random, 1).end;
    end.Returned? && call.answers(end.attempt).Response? && call.answers(end.attempt).status == 401
  }

  /** A client with an API token sends it with every call, whatever the answers. */
  lemma {:induction false} ApiTokenKept(c: Config, calls: seq<Call>)
    requires c.apiToken.Some?
    ensures TokenAt(c, calls) == c.apiToken
  {
    if calls == [] {
    } else {
      ApiTokenKept(c, calls[..|calls| - 1]);
    }
  }

  /** The call whose login gave the token a client holds: the token was accepted since, and every call after it sent
      that same token and was not rejected. */
  predicate LoggedInAt(c: Config, calls: seq<Call>, i: nat)
    requires i < |calls|
  {
    && TokenAt(c, calls[..i]) == None
    && calls[i].login.Accepted? && calls[i].login.accessToken == TokenAt(c, calls)
    && forall j :: i <= j < |calls| ==>
         Sent(c, TokenAt(c, calls[..j]), calls[j]) == TokenAt(c, calls) && !Rejected(c, calls[j])
  }

  /** Without an API token, whatever token a client holds came from one login, and no call since then was answered 401
      with it: a rejected token is never sent again unless the login endpoint hands it out anew. */
  lemma {:induction false} TokenFromLogin(c: Config, calls: seq<Call>) returns (i: nat)
    requires c.apiToken == None && TokenAt(c, calls).Some?
    ensures i < |calls| && LoggedInAt(c, calls, i)
  {
    var before, last := calls[..|calls| - 1], calls[|calls| - 1];
    var token := TokenAt(c, before);
    if token.Some? {
      i := TokenFromLogin(c, before);
      StillLoggedIn(c, calls, i);
    } else {
      i := |calls| - 1;
      assert calls[..i] == before;
    }
  }

  lemma StillLoggedIn(c: Config, calls: seq<Call>, i: nat)
    requires c.apiToken == None && calls != [] && TokenAt(c, calls).Some?
    requires var before := calls[..|calls| - 1];
             i < |before| && TokenAt(c, before).Some? && LoggedInAt(c, before, i)
    ensures LoggedInAt(c, calls, i)
  {
    hide RunFrom;
    var before := calls[..|calls| - 1];
    assert calls[..i] == before[..i];
    forall j | i <= j < |calls|
      ensures Sent(c, TokenAt(c, calls[..j]), calls[j]) == TokenAt(c, calls) && !Rejected(c, calls[j])
    {
      if j < |before| {
        assert calls[..j] == before[..j] && calls[j] == before[j];
      } else {
        assert calls[..j] == before;
      }
    }
  }
}
