/** http.py: the retry loop around one request. Replies are inputs; every step it takes is recorded in order. */
module RetryLoop {
  import opened Prelude

  datatype Reply = TransportError | Status(code: int, retryAfter: Option<real>)

  datatype Step = Consume | Throttle | Send(attempt: nat) | Sleep(attempt: nat, seconds: real)

  datatype Verdict = Return(attempt: nat) | RateLimited(retryAfter: Option<real>) | Unavailable

  datatype Policy = Policy(maxRetries: int, maxWait: Option<real>)

  datatype Progress = Progress(steps: seq<Step>, backoff: real, verdict: Option<Verdict>)

  type Replies = nat -> Reply

  predicate IsRateLimit(r: Reply) {
    r.Status? && (r.code == 429 || r.code == 503)
  }

  predicate IsServerError(r: Reply) {
    r.Status? && 500 <= r.code < 600 && !IsRateLimit(r)
  }

  predicate Settles(r: Reply) {
    r.Status? && !IsRateLimit(r) && !IsServerError(r)
  }

  /** What a rate limit asks for; a Retry-After of zero counts as absent in this comparison. */
  function Asked(r: Reply, backoff: real): real
    requires r.Status?
  {
    if r.retryAfter.Some? && r.retryAfter.value != 0.0 then r.retryAfter.value else backoff
  }

  function WaitFor(r: Reply, backoff: real): real
    requires r.Status?
  {
    MinR(if r.retryAfter.Some? then r.retryAfter.value else backoff, 120.0)
  }

  predicate TooLong(p: Policy, r: Reply, backoff: real)
    requires r.Status?
  {
    p.maxWait.Some? && Asked(r, backoff) > p.maxWait.value
  }

  /** How attempt `n` ends the loop, or the sleep before the next one. */
  function Judged(p: Policy, r: Reply, n: nat, backoff: real): Result<real, Verdict> {
    if r == TransportError then Ok(backoff)
    else if IsRateLimit(r) then
      if TooLong(p, r, backoff) || n == p.maxRetries then Err(RateLimited(r.retryAfter)) else Ok(WaitFor(r, backoff))
    else if IsServerError(r) then
      if n == p.maxRetries then Err(Unavailable) else Ok(backoff)
    else Err(Return(n))
  }

  function After(p: Policy, replies: Replies, n: nat): Progress {
    if n == 0 then Progress([], 1.0, None)
    else
      var before := After(p, replies, n - 1);
      if before.verdict.Some? then before
      else
        var sent := before.steps + [Consume, Throttle, Send(n)];
        match Judged(p, replies(n), n, before.backoff)
        case Ok(seconds) => Progress(sent + [Sleep(n, seconds)], before.backoff * 5.0, None)
        case Err(verdict) => Progress(sent, before.backoff, Some(verdict))
  }

  function Requested(p: Policy, replies: Replies): (Verdict, seq<Step>) {
    var end := After(p, replies, Max(0, p.maxRetries));
    (if end.verdict.Some? then end.verdict.value else Unavailable, end.steps)
  }

  method Request(p: Policy, replies: Replies) returns (verdict: Verdict, steps: seq<Step>)
    ensures (verdict, steps) == Requested(p, replies)
  {
    steps := [];
    var backoff := 1.0;
    var attempt: nat := 1;
    while attempt <= p.maxRetries
      invariant attempt <= Max(0, p.maxRetries) + 1
      invariant After(p, replies, attempt - 1) == Progress(steps, backoff, None)
    {
      var reply := replies(attempt);
      steps := steps + [Consume, Throttle, Send(attempt)];
      var ended: Option<Verdict>, sleep := None, 0.0;
      if reply == TransportError {
        sleep := backoff;
      } else if reply.code == 429 || reply.code == 503 {
        if p.maxWait.Some? && Asked(reply, backoff) > p.maxWait.value {
          ended := Some(RateLimited(reply.retryAfter));
        } else if attempt == p.maxRetries {
          ended := Some(RateLimited(reply.retryAfter));
        } else {
          sleep := MinR(if reply.retryAfter.Some? then reply.retryAfter.value else backoff, 120.0);
        }
      } else if 500 <= reply.code < 600 {
        if attempt == p.maxRetries {
          ended := Some(Unavailable);
        } else {
          sleep := backoff;
        }
      } else {
        ended := Some(Return(attempt));
      }
      if ended.Some? {
        assert After(p, replies, attempt) == Progress(steps, backoff, ended);
        VerdictIsFinal(p, replies, attempt, Max(0, p.maxRetries));
        return ended.value, steps;
      }
      steps := steps + [Sleep(attempt, sleep)];
      backoff := backoff * 5.0;
      attempt := attempt + 1;
    }
    verdict := Unavailable;
  }

  lemma {:induction false} VerdictIsFinal(p: Policy, replies: Replies, i: nat, n: nat)
    requires i <= n && After(p, replies, i).verdict.Some?
    ensures After(p, replies, n) == After(p, replies, i)
  {
    if i >= n {
    } else {
      VerdictIsFinal(p, replies, i, n - 1);
    }
  }

  // ---- what the loop guarantees ----

  function PowerOfFive(n: nat): real {
    if n == 0 then 1.0 else PowerOfFive(n - 1) * 5.0
  }

  /** Attempt `n` is followed by another try. */
  predicate Retried(p: Policy, replies: Replies, n: nat)
    requires n > 0
  {
    Judged(p, replies(n), n, PowerOfFive(n - 1)).Ok?
  }

  lemma {:induction false} BackoffIsPower(p: Policy, replies: Replies, n: nat)
    ensures After(p, replies, n).verdict.None? <==> forall j :: 0 < j <= n ==> Retried(p, replies, j)
    ensures After(p, replies, n).verdict.None? ==> After(p, replies, n).backoff == PowerOfFive(n)
  {
    hide Judged;
    if n == 0 {
    } else {
      BackoffIsPower(p, replies, n - 1);
      if After(p, replies, n).verdict.None? {
        forall j | 0 < j <= n ensures Retried(p, replies, j) {
          if j == n {
            assert Judged(p, replies(n), n, PowerOfFive(n - 1)).Ok?;
          }
        }
      } else if After(p, replies, n - 1).verdict.None? {
        assert !Retried(p, replies, n);
      } else {
        var j :| 0 < j <= n - 1 && !Retried(p, replies, j);
        assert 0 < j <= n;
      }
    }
  }

  /** The response handed back is the first that settles, and only if every earlier one was worth a retry. */
  lemma ReturnsFirstSettled(p: Policy, replies: Replies, i: nat)
    ensures Requested(p, replies).0 == Return(i) <==>
            0 < i <= p.maxRetries && Settles(replies(i)) && forall j :: 0 < j < i ==> Retried(p, replies, j)
  {
    var n := Max(0, p.maxRetries);
    if Requested(p, replies).0 == Return(i) {
      ReturnedAt(p, replies, n, i);
      BackoffIsPower(p, replies, i - 1);
    }
    if 0 < i <= p.maxRetries && Settles(replies(i)) && forall j :: 0 < j < i ==> Retried(p, replies, j) {
      BackoffIsPower(p, replies, i - 1);
      assert After(p, replies, i).verdict == Some(Return(i));
      VerdictIsFinal(p, replies, i, n);
    }
  }

  lemma {:induction false} ReturnedAt(p: Policy, replies: Replies, n: nat, i: nat)
    requires After(p, replies, n).verdict == Some(Return(i))
    ensures 0 < i <= n && Settles(replies(i)) && After(p, replies, i - 1).verdict.None?
  {
    if After(p, replies, n - 1).verdict.None? {
    } else {
      ReturnedAt(p, replies, n - 1, i);
    }
  }

  /** Each send follows one budget grant and one host wait, and sends are numbered from one. */
  ghost predicate Polite(steps: seq<Step>, n: nat) {
    (forall k :: 0 <= k < |steps| && steps[k].Send? ==>
       k >= 2 && steps[k - 1] == Throttle && steps[k - 2] == Consume && 0 < steps[k].attempt <= n) &&
    forall k, m :: 0 <= k < m < |steps| && steps[k].Send? && steps[m].Send? ==> steps[k].attempt < steps[m].attempt
  }

  lemma {:induction false} StepsArePolite(p: Policy, replies: Replies, n: nat)
    ensures Polite(After(p, replies, n).steps, n)
  {
    hide Judged, Polite;
    if n == 0 {
      NothingIsPolite();
    } else {
      var before := After(p, replies, n - 1);
      StepsArePolite(p, replies, n - 1);
      StillPolite(before.steps, n - 1, n);
      PoliteSend(before.steps, n - 1);
      PoliteSleep(before.steps + [Consume, Throttle, Send(n)], n,
                  if before.verdict.None? && Judged(p, replies(n), n, before.backoff).Ok?
                  then Judged(p, replies(n), n, before.backoff).value else 0.0);
    }
  }

  lemma NothingIsPolite()
    ensures Polite([], 0)
  {
  }

  lemma StillPolite(steps: seq<Step>, n: nat, m: nat)
    requires Polite(steps, n) && n <= m
    ensures Polite(steps, m)
  {
  }

  lemma PoliteSend(steps: seq<Step>, n: nat)
    requires Polite(steps, n)
    ensures Polite(steps + [Consume, Throttle, Send(n + 1)], n + 1)
  {
    var after := steps + [Consume, Throttle, Send(n + 1)];
    assert forall k :: 0 <= k < |steps| ==> after[k] == steps[k];
    assert after[|steps|] == Consume && after[|steps| + 1] == Throttle && after[|steps| + 2] == Send(n + 1);
  }

  lemma PoliteSleep(steps: seq<Step>, n: nat, seconds: real)
    requires Polite(steps, n)
    ensures Polite(steps + [Sleep(n, seconds)], n)
  {
    var after := steps + [Sleep(n, seconds)];
    assert forall k :: 0 <= k < |steps| ==> after[k] == steps[k];
  }

  /** At most `max_retries` sends, never two without a budget grant and a host wait between them. */
  lemma SendsArePoliteAndBounded(p: Policy, replies: Replies)
    ensures Polite(Requested(p, replies).1, Max(0, p.maxRetries))
  {
    StepsArePolite(p, replies, Max(0, p.maxRetries));
  }

  /** Every wait for a rate limit is at most two minutes, and at most the caller's cap when there is one. */
  ghost predicate WaitsWithin(steps: seq<Step>, replies: Replies, cap: Option<real>) {
    forall k :: 0 <= k < |steps| && steps[k].Sleep? && IsRateLimit(replies(steps[k].attempt)) ==>
      steps[k].seconds <= 120.0 && (cap.Some? ==> steps[k].seconds <= cap.value)
  }

  lemma {:induction false} StepsWaitWithin(p: Policy, replies: Replies, n: nat)
    ensures WaitsWithin(After(p, replies, n).steps, replies, p.maxWait)
    ensures After(p, replies, n).verdict.None? ==> After(p, replies, n).backoff > 0.0
  {
    if n == 0 {
    } else {
      StepsWaitWithin(p, replies, n - 1);
    }
  }

  /** No wait for a rate limit is longer than two minutes or than the caller's cap, whatever the server asks for. */
  lemma CapIsKept(p: Policy, replies: Replies)
    ensures WaitsWithin(Requested(p, replies).1, replies, p.maxWait)
  {
    StepsWaitWithin(p, replies, Max(0, p.maxRetries));
  }

  lemma {:induction false} SleepsLastWhenRetrying(p: Policy, replies: Replies, n: nat)
    ensures var end := After(p, replies, n);
            end.steps != [] && end.steps[|end.steps| - 1].Sleep? <==> n > 0 && end.verdict.None?
  {
    hide Judged;
    if n == 0 {
    } else {
      SleepsLastWhenRetrying(p, replies, n - 1);
    }
  }

  /** The loop sleeps before giving up exactly when its last allowed attempt met a transport error. */
  lemma SleepsBeforeGivingUpIff(p: Policy, replies: Replies)
    requires p.maxRetries > 0
    ensures var steps := Requested(p, replies).1;
            steps != [] && steps[|steps| - 1].Sleep? <==>
            replies(p.maxRetries) == TransportError && forall j :: 0 < j < p.maxRetries ==> Retried(p, replies, j)
  {
    var n := p.maxRetries;
    SleepsLastWhenRetrying(p, replies, n);
    BackoffIsPower(p, replies, n);
    assert Retried(p, replies, n) <==> replies(n) == TransportError;
  }

  // ---- the loop told from the replies ----

  /** What a rate-limited caller is asked to wait before attempt `n` is repeated. */
  function AskedAt(r: Reply, n: nat): real
    requires r.Status? && n > 0
  {
    if r.retryAfter.Some? && r.retryAfter.value != 0.0 then r.retryAfter.value else PowerOfFive(n - 1)
  }

  /** The replies that earn attempt `n` another try: a transport error always; a rate limit within the caller's cap and
      a server error only before the last attempt. */
  predicate EarnsRetry(p: Policy, r: Reply, n: nat)
    requires n > 0
  {
    r.TransportError? ||
    (n != p.maxRetries &&
     if r.code == 429 || r.code == 503 then p.maxWait.Some? ==> AskedAt(r, n) <= p.maxWait.value
     else 500 <= r.code <= 599)
  }

  /** The sleep after it: the server's hint if a rate limit gave one, otherwise 1, 5, 25 seconds and so on, and no more
      than two minutes for a rate limit. */
  function Rest(r: Reply, n: nat): real
    requires n > 0
  {
    if r.TransportError? || (r.code != 429 && r.code != 503) then PowerOfFive(n - 1)
    else
      var wanted := if r.retryAfter.Some? then r.retryAfter.value else PowerOfFive(n - 1);
      if wanted > 120.0 then 120.0 else wanted
  }

  /** How the loop ends at a reply that earns no other try. */
  function EndedBy(r: Reply, n: nat): Verdict {
    if r.TransportError? then Unavailable
    else if r.code == 429 || r.code == 503 then RateLimited(r.retryAfter)
    else if 500 <= r.code <= 599 then Unavailable
    else Return(n)
  }

  lemma JudgedExactly(p: Policy, r: Reply, n: nat)
    requires n > 0
    ensures Judged(p, r, n, PowerOfFive(n - 1)) == if EarnsRetry(p, r, n) then Ok(Rest(r, n)) else Err(EndedBy(r, n))
  {
  }

  /** The steps up to attempt `n`, when all of them earned another try. */
  function Tries(replies: Replies, n: nat): seq<Step> {
    if n == 0 then [] else Tries(replies, n - 1) + [Consume, Throttle, Send(n), Sleep(n, Rest(replies(n), n))]
  }

  lemma {:induction false} AllRetried(p: Policy, replies: Replies, n: nat)
    requires forall j :: 0 < j <= n ==> EarnsRetry(p, replies(j), j)
    ensures After(p, replies, n) == Progress(Tries(replies, n), PowerOfFive(n), None)
  {
    if n == 0 {
    } else {
      hide Judged, EarnsRetry, Rest;
      AllRetried(p, replies, n - 1);
      JudgedExactly(p, replies(n), n);
      assert [Consume, Throttle, Send(n)] + [Sleep(n, Rest(replies(n), n))] ==
             [Consume, Throttle, Send(n), Sleep(n, Rest(replies(n), n))];
      hide Tries;
    }
  }

  /** Verdict and steps, sleeps included, follow from the first reply that earns no other try. */
  lemma RequestIsExact(p: Policy, replies: Replies, n: nat)
    requires 0 < n && forall j :: 0 < j < n ==> EarnsRetry(p, replies(j), j)
    ensures n <= p.maxRetries && !EarnsRetry(p, replies(n), n) ==>
      Requested(p, replies) == (EndedBy(replies(n), n), Tries(replies, n - 1) + [Consume, Throttle, Send(n)])
    ensures n - 1 == Max(0, p.maxRetries) ==> Requested(p, replies) == (Unavailable, Tries(replies, n - 1))
  {
    hide Judged, EarnsRetry, Rest, EndedBy;
    AllRetried(p, replies, n - 1);
    JudgedExactly(p, replies(n), n);
    if n <= p.maxRetries && !EarnsRetry(p, replies(n), n) {
      VerdictIsFinal(p, replies, n, Max(0, p.maxRetries));
    }
  }
}
