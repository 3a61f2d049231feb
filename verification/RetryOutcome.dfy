/** What a client sends, how long it waits and which token it keeps, read in statuses, seconds and fields. */
module RetryOutcome {
  import opened Common
  import opened Transport

  /** A timeout, too many requests, an error of the server, or no answer at all. */
  predicate AsksAgain(a: Answer) {
    a.Failure? ||
    (a.Response? &&
      (a.status == 408 || a.status == 429 || a.status == 500 || a.status == 502 || a.status == 503 || a.status == 504))
  }

  lemma RetryableAsksAgain(a: Answer)
    ensures Retryable(a) <==> AsksAgain(a)
  {
  }

  /** How the client reports the answer to its k-th attempt: a response is returned, an API error thrown on, anything
      else becomes an error of the client. */
  predicate Reported(a: Answer, k: nat, end: End) {
    match a
    case Response(_, _) => end == Returned(k)
    case ApiError => end == Rethrown(k)
    case Failure => end == Failed(k)
  }

  /** Every answer before the last one asks again. The run ends with the first that does not or at the limit, and then
      reports that answer; only a limit that is not a whole number can be passed without a report. */
  lemma SendsInWords(c: Config, attempts: real, answers: nat -> Answer, random: nat -> real)
    requires attempts > 0.0
    ensures
      var r := RunFrom(c, attempts, answers, random, 1);
      && r.sends as real <= attempts
      && (forall k: nat :: 1 <= k < r.sends ==> AsksAgain(answers(k)))
      && (r.end != Exhausted ==>
            && r.sends >= 1 && Reported(answers(r.sends), r.sends, r.end)
            && (r.sends as real == attempts || !AsksAgain(answers(r.sends))))
      && (r.end == Exhausted ==>
            && r.sends as real < attempts < r.sends as real + 1.0
            && (r.sends >= 1 ==> AsksAgain(answers(r.sends))))
  {
    hide RunFrom, Retryable, AsksAgain, Wait;
    RunIsFirstStop(c, attempts, answers, random, 1);
    var r := RunFrom(c, attempts, answers, random, 1);
    forall k: nat ensures Retryable(answers(k)) <==> AsksAgain(answers(k)) {
      RetryableAsksAgain(answers(k));
    }
    forall k: nat | 1 <= k < r.sends ensures AsksAgain(answers(k)) {
      assert !Stops(attempts, answers, k);
    }
    if r.end == Exhausted {
      assert r.sends >= 1 ==> !Stops(attempts, answers, r.sends);
      NotWhole(attempts, r.sends, answers);
    } else {
      assert Stops(attempts, answers, r.sends);
    }
  }

  lemma NotWhole(attempts: real, sends: nat, answers: nat -> Answer)
    requires attempts > 0.0 && sends == attempts.Floor
    requires sends >= 1 ==> !Stops(attempts, answers, sends)
    ensures sends as real < attempts < sends as real + 1.0
  {
  }

  /** Only GET and HEAD are tried more than once. */
  lemma MethodsInWords(c: Config, httpMethod: string)
    ensures Attempts(c, httpMethod) == if httpMethod in ["GET", "HEAD"] then c.maxAttempts else 1.0
  {
  }

  /** The delays before jitter, in seconds: the base delay first, then always the double, never more than the cap. */
  predicate Doubling(delays: seq<real>, base: real, cap: real) {
    && (delays != [] ==> delays[0] == if base < cap then base else cap)
    && (forall i :: 0 < i < |delays| ==>
          delays[i] == if 2.0 * delays[i - 1] < cap then 2.0 * delays[i - 1] else cap)
  }

  /** Every wait is what the Retry-After header says, nothing for a negative number, or without a header the delay with
      up to a tenth of it added; in milliseconds. */
  lemma WaitsInWords(c: Config, attempts: real, answers: nat -> Answer, random: nat -> real)
    returns (delays: seq<real>)
    requires attempts > 0.0 && c.baseDelay >= 0.0 && c.maxDelay >= 0.0
    ensures
      var sleeps := RunFrom(c, attempts, answers, random, 1).sleeps;
      && |delays| == |sleeps| && Doubling(delays, c.baseDelay, c.maxDelay)
      && forall i :: 0 <= i < |sleeps| ==>
           sleeps[i] == WaitFor(answers(i + 1), delays[i], random(i + 1))
  {
    hide RunFrom, Doubling, Wait, WaitFor;
    RunIsFirstStop(c, attempts, answers, random, 1);
    var sleeps := RunFrom(c, attempts, answers, random, 1).sleeps;
    delays := seq(|sleeps|, i requires 0 <= i < |sleeps| => Backoff(c, i + 1));
    BackoffDoubles(c, |sleeps|, delays);
    forall i | 0 <= i < |sleeps| ensures sleeps[i] == WaitFor(answers(i + 1), delays[i], random(i + 1)) {
      WaitIs(c, answers, random, i + 1);
    }
  }

  function WaitFor(a: Answer, delay: real, random: real): real {
    if a.Response? && a.retryAfter.Some? then
      if a.retryAfter.value >= 0.0 then a.retryAfter.value * 1000.0 else 0.0
    else (delay + random * delay * 0.1) * 1000.0
  }

  lemma WaitIs(c: Config, answers: nat -> Answer, random: nat -> real, k: nat)
    requires k >= 1
    ensures Wait(c, answers, random, k) == WaitFor(answers(k), Backoff(c, k), random(k))
  {
    hide Backoff;
  }

  lemma BackoffDoubles(c: Config, n: nat, delays: seq<real>)
    requires c.baseDelay >= 0.0 && c.maxDelay >= 0.0
    requires |delays| == n && forall i :: 0 <= i < n ==> delays[i] == Backoff(c, i + 1)
    ensures Doubling(delays, c.baseDelay, c.maxDelay)
  {
    hide Backoff;
    if n > 0 {
      FirstBackoff(c);
      assert delays[0] == Backoff(c, 1);
    }
    forall i | 0 < i < n
      ensures delays[i] == if 2.0 * delays[i - 1] < c.maxDelay then 2.0 * delays[i - 1] else c.maxDelay
    {
      NextBackoff(c, i);
      assert delays[i] == Backoff(c, i + 1) && delays[i - 1] == Backoff(c, i);
    }
  }

  lemma FirstBackoff(c: Config)
    ensures Backoff(c, 1) == if c.baseDelay < c.maxDelay then c.baseDelay else c.maxDelay
  {
    assert Pow2(0) == 1.0;
  }

  lemma NextBackoff(c: Config, k: nat)
    requires k >= 1 && c.baseDelay >= 0.0 && c.maxDelay >= 0.0
    ensures Backoff(c, k + 1) == if 2.0 * Backoff(c, k) < c.maxDelay then 2.0 * Backoff(c, k) else c.maxDelay
  {
    var x := c.baseDelay * Pow2(k - 1);
    assert Pow2(k) == 2.0 * Pow2(k - 1);
    assert c.baseDelay * Pow2(k) == 2.0 * x;
    ProductNonnegative(c.baseDelay, Pow2(k - 1));
  }

  lemma ProductNonnegative(a: real, b: real)
    requires a >= 0.0 && b >= 0.0
    ensures a * b >= 0.0
  {
  }

  /** Which token a request is sent with, and every way not to get one. */
  lemma TokensInWords(c: Config, token: Option<string>, password: Option<string>, login: Login)
    ensures
      var r := TokenFor(c, token, password, login);
      && (token.Some? ==> r == Ok(token.value))
      && (r == Err(NoMethod) <==> token == None && c.username == None)
      && (r == Err(NoPasswordEnv) <==> token == None && c.username.Some? && c.passwordEnv == None)
      && (r == Err(MissingPassword) <==>
            token == None && c.username.Some? && c.passwordEnv.Some? && password in [None, Some("")])
      && (r == Err(LoginRejected) <==>
            && token == None && c.username.Some? && c.passwordEnv.Some? && password !in [None, Some("")]
            && login == Refused)
      && (token == None && r.Ok? ==> login == Accepted(Some(r.value)) && r.value != "")
  {
  }

  /** A client that logs in forgets its token after a 401, and only then; a client with an API token never does. */
  lemma ForgetsAfter401(c: Config, token: Option<string>, attempts: real, answers: nat -> Answer, random: nat -> real)
    requires attempts > 0.0 && token.Some?
    ensures
      var r := RunFrom(c, attempts, answers, random, 1);
      TokenAfter(c, token, answers, r.end) ==
        if r.end.Returned? && answers(r.sends).Response? && answers(r.sends).status == 401
           && c.apiToken == None && c.username.Some?
        then None else token
  {
    hide RunFrom, Retryable, Wait;
    RunIsFirstStop(c, attempts, answers, random, 1);
  }
}
