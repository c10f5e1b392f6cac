/** The circuit breaker around the retry loop: how often a service that never answers is called. */
module CallBudget {
  import opened Prelude
  import CB = CircuitBreaker
  import R = Retry

  /** One sequential `Execute(Retry(fn))`; `env` is what each attempt of `fn` does. */
  datatype Call = Call(start: int, end: int, env: R.Env)

  /** The breaker after the calls, none of which succeeds. */
  function After(cfg: CB.Config, calls: seq<Call>): CB.Breaker {
    if calls == [] then CB.NEW_BREAKER
    else
      var last := calls[|calls| - 1];
      CB.ExecuteAlone(cfg, After(cfg, calls[..|calls| - 1]), last.start, true, last.end).0
  }

  predicate Admitted(cfg: CB.Config, calls: seq<Call>)
    requires calls != []
  {
    var last := calls[|calls| - 1];
    CB.ExecuteAlone(cfg, After(cfg, calls[..|calls| - 1]), last.start, true, last.end).1 == CB.Ran(true)
  }

  /** The calls of `fn` made through the breaker. */
  function Attempts(cfg: CB.Config, retry: R.RetryConfig, calls: seq<Call>): nat {
    if calls == [] then 0
    else Attempts(cfg, retry, calls[..|calls| - 1])
         + if Admitted(cfg, calls) then R.Calls(retry, calls[|calls| - 1].env, 0) else 0
  }

  function AdmittedCalls(cfg: CB.Config, calls: seq<Call>): nat {
    if calls == [] then 0
    else AdmittedCalls(cfg, calls[..|calls| - 1]) + if Admitted(cfg, calls) then 1 else 0
  }

  /** How often the breaker has been left for HalfOpen. */
  function Probes(cfg: CB.Config, calls: seq<Call>): nat {
    if calls == [] then 0
    else
      var before := calls[..|calls| - 1];
      Probes(cfg, before) + if Admitted(cfg, calls) && After(cfg, before).mode == CB.Open then 1 else 0
  }

  /** The calls follow one another, and every one of them fails if it runs. */
  ghost predicate AllFail(retry: R.RetryConfig, calls: seq<Call>) {
    && (forall i | 0 <= i < |calls| :: calls[i].start <= calls[i].end)
    && (forall i, j | 0 <= i < j < |calls| :: calls[i].end <= calls[j].start)
    && (forall i | 0 <= i < |calls| :: R.Verdict(retry, calls[i].env, 0, None).Some?)
  }

  /** One round of the breaker is `maxFailures` calls, and each probe comes a timeout later than the last. */
  lemma {:induction false} Rounds(cfg: CB.Config, retry: R.RetryConfig, calls: seq<Call>)
    requires cfg.maxFailures >= 1 && cfg.resetTimeout >= 0 && AllFail(retry, calls) && calls != []
    ensures var b := After(cfg, calls);
      && 0 <= b.failures <= cfg.maxFailures
      && (b.mode == CB.Open <==> b.failures == cfg.maxFailures)
      && AdmittedCalls(cfg, calls) == Probes(cfg, calls) * cfg.maxFailures + b.failures
      && b.lastFailure.Some?
      && calls[0].start + Probes(cfg, calls) * cfg.resetTimeout <= b.lastFailure.value <= calls[|calls| - 1].end
  {
    var before := calls[..|calls| - 1];
    if before == [] {
      assert After(cfg, before) == CB.NEW_BREAKER;
    } else {
      Rounds(cfg, retry, before);
      OneMore(Probes(cfg, before), cfg.maxFailures);
      OneMore(Probes(cfg, before), cfg.resetTimeout);
    }
  }

  lemma {:induction false} AttemptsPerCall(cfg: CB.Config, retry: R.RetryConfig, calls: seq<Call>)
    requires retry.maxAttempts >= 1
    ensures Attempts(cfg, retry, calls) <= AdmittedCalls(cfg, calls) * retry.maxAttempts
  {
    if calls != [] {
      var before := calls[..|calls| - 1];
      AttemptsPerCall(cfg, retry, before);
      R.NilMeansSuccess(retry, calls[|calls| - 1].env, 0, None);
      OneMore(AdmittedCalls(cfg, before), retry.maxAttempts);
    }
  }

  /** Equality holds when nobody cancels a call and every attempt fails. */
  lemma {:induction false} AttemptsUsedUp(cfg: CB.Config, retry: R.RetryConfig, calls: seq<Call>)
    requires retry.maxAttempts >= 1
    requires forall i | 0 <= i < |calls| ::
      R.NeverCancelled(calls[i].env) && forall j: nat :: calls[i].env.call(j).Some?
    ensures Attempts(cfg, retry, calls) == AdmittedCalls(cfg, calls) * retry.maxAttempts
  {
    if calls != [] {
      var before := calls[..|calls| - 1];
      AttemptsUsedUp(cfg, retry, before);
      R.Uninterrupted(retry, calls[|calls| - 1].env, retry.maxAttempts);
      OneMore(AdmittedCalls(cfg, before), retry.maxAttempts);
    }
  }

  lemma DivideBound(p: nat, d: nat, t: int)
    requires d > 0 && p * d <= t
    ensures p <= t / d
  {
    var q := t / d;
    assert t == q * d + t % d;
    OneMore(q, d);
    if 0 <= q < p {
      ScaleUp(q + 1, p, d);
    }
  }

  /** Calls in rounds of at most `size`, each but the last of which takes `d`:
      `rounds` of them are over after time t. */
  lemma RoundsFit(calls: int, rounds: nat, size: nat, d: nat, t: int)
    requires d > 0 && rounds * d <= t && calls <= rounds * size + size
    ensures calls <= (1 + t / d) * size
  {
    DivideBound(rounds, d, t);
    OneMore(rounds, size);
    ScaleUp(rounds + 1, 1 + t / d, size);
  }

  lemma CallsBounded(cfg: CB.Config, retry: R.RetryConfig, calls: seq<Call>)
    requires cfg.maxFailures >= 1 && cfg.resetTimeout >= 1 && calls != [] && AllFail(retry, calls)
    ensures var elapsed := calls[|calls| - 1].end - calls[0].start;
      AdmittedCalls(cfg, calls) <= (1 + elapsed / cfg.resetTimeout) * cfg.maxFailures
  {
    var elapsed := calls[|calls| - 1].end - calls[0].start;
    Rounds(cfg, retry, calls);
    RoundsFit(AdmittedCalls(cfg, calls), Probes(cfg, calls), cfg.maxFailures, cfg.resetTimeout, elapsed);
  }

  /** Over calls one after the other that take time T and never succeed:
      at most (1 + T/resetTimeout) * maxFailures * maxAttempts attempts. */
  lemma Budget(cfg: CB.Config, retry: R.RetryConfig, calls: seq<Call>)
    requires cfg.maxFailures >= 1 && cfg.resetTimeout >= 1 && retry.maxAttempts >= 1
    requires calls != [] && AllFail(retry, calls)
    ensures var elapsed := calls[|calls| - 1].end - calls[0].start;
      Attempts(cfg, retry, calls) <= ((1 + elapsed / cfg.resetTimeout) * cfg.maxFailures) * retry.maxAttempts
  {
    var elapsed := calls[|calls| - 1].end - calls[0].start;
    CallsBounded(cfg, retry, calls);
    AttemptsPerCall(cfg, retry, calls);
    ScaleUp(AdmittedCalls(cfg, calls), (1 + elapsed / cfg.resetTimeout) * cfg.maxFailures, retry.maxAttempts);
  }
}
