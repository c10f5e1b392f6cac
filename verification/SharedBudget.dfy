/**
 How often a service that never answers is called by callers that share one circuit breaker, as the
 workers of `ConvertEmail` do: the sections of their calls interleave freely.
 */
module SharedBudget {
  import opened Prelude
  import W = Workers
  import CB = CircuitBreaker
  import R = Retry
  import B = CallBudget

  /** Counts the callers that may still add a failure to the present round. */
  function Pending(): CB.Caller -> nat {
    (c: CB.Caller) => if c.InFn? || c.FnReturned? || (c.HasRead? && c.mode != CB.Open) then 1 else 0
  }

  /** Counts the callers whose call of `fn` is not recorded yet. */
  function Inside(): CB.Caller -> nat {
    (c: CB.Caller) => if c.InFn? || c.FnReturned? then 1 else 0
  }

  /** The calls of one round: all but one caller may be past the gate when the breaker opens. */
  function RoundSize(cfg: CB.Config, n: nat): nat
    requires cfg.maxFailures >= 1
  {
    cfg.maxFailures + n - 1
  }

  lemma {:induction false} TotalAtMost<T>(xs: seq<T>, f: T -> nat, g: T -> nat)
    requires forall x :: f(x) <= g(x) <= 1
    ensures W.Total(xs, f) <= W.Total(xs, g) <= |xs|
  {
    if xs != [] {
      TotalAtMost(xs[1..], f, g);
    }
  }

  /** No call of `fn` succeeds. */
  predicate AllFail(steps: seq<CB.Step>) {
    forall i | 0 <= i < |steps| && steps[i].FnReturns? :: steps[i].failed
  }

  /**
   The books of a run without success: `paid` calls belong to earlier rounds, which took `waited`
   since `start`, and the rest to the failures of this round and the callers inside.
   */
  ghost predicate Ledger(cfg: CB.Config, s: CB.System, start: int, admitted: nat, paid: int, waited: int)
    requires cfg.maxFailures >= 1
  {
    && CB.Inv(cfg, s)
    && (forall c | 0 <= c < |s.callers| && s.callers[c].FnReturned? :: s.callers[c].failed)
    && s.breaker.failures + W.Total(s.callers, Pending()) <= RoundSize(cfg, |s.callers|)
    && admitted <= paid + s.breaker.failures + W.Total(s.callers, Inside())
    && start + waited <= s.now
    && (s.breaker.failures > 0 ==> s.breaker.lastFailure.Some? && start + waited <= s.breaker.lastFailure.value)
  }

  /** A new round begins: the gate sets a positive count back to 0. */
  predicate NewRound(cfg: CB.Config, s: CB.System, step: CB.Step)
    requires CB.Enabled(s, step)
  {
    step.Admit? && s.callers[step.c].mode == CB.Open
    && CB.TimeoutPassed(cfg, s.breaker, s.now) && s.breaker.failures > 0
  }

  lemma LedgerKept(cfg: CB.Config, s: CB.System, step: CB.Step, start: int, admitted: nat, paid: int, waited: int)
    requires cfg.maxFailures >= 1 && cfg.resetTimeout >= 1 && CB.Enabled(s, step)
    requires Ledger(cfg, s, start, admitted, paid, waited) && (step.FnReturns? ==> step.failed)
    ensures var next := NewRound(cfg, s, step);
      Ledger(cfg, CB.Apply(cfg, s, step), start, admitted + (if CB.Admits(cfg, s, step) then 1 else 0),
             paid + (if next then RoundSize(cfg, |s.callers|) else 0), waited + (if next then cfg.resetTimeout else 0))
  {
    var s' := CB.Apply(cfg, s, step);
    CB.StepIsLegal(cfg, s, step);
    TotalAtMost(s'.callers, Inside(), Pending());
    TotalAtMost(s.callers, Inside(), Pending());
    if !step.Tick? {
      W.TotalUpdate(s.callers, step.c, s'.callers[step.c], Pending());
      W.TotalUpdate(s.callers, step.c, s'.callers[step.c], Inside());
    }
  }

  lemma {:induction false} LedgerOfRun(cfg: CB.Config, s: CB.System, steps: seq<CB.Step>,
                                       start: int, admitted: nat, rounds: nat)
    returns (end: nat)
    requires cfg.maxFailures >= 1 && cfg.resetTimeout >= 1 && CB.Exec(cfg, s, steps).Some? && AllFail(steps)
    requires Ledger(cfg, s, start, admitted, rounds * RoundSize(cfg, |s.callers|), rounds * cfg.resetTimeout)
    ensures var last := CB.Exec(cfg, s, steps).value;
      && |last.callers| == |s.callers|
      && Ledger(cfg, last, start, admitted + CB.AdmissionsIn(cfg, s, steps),
                end * RoundSize(cfg, |s.callers|), end * cfg.resetTimeout)
    decreases |steps|
  {
    if steps == [] {
      end := rounds;
    } else {
      LedgerKept(cfg, s, steps[0], start, admitted, rounds * RoundSize(cfg, |s.callers|), rounds * cfg.resetTimeout);
      OneMore(rounds, RoundSize(cfg, |s.callers|));
      OneMore(rounds, cfg.resetTimeout);
      end := LedgerOfRun(cfg, CB.Apply(cfg, s, steps[0]), steps[1..], start,
                         admitted + (if CB.Admits(cfg, s, steps[0]) then 1 else 0),
                         rounds + (if NewRound(cfg, s, steps[0]) then 1 else 0));
    }
  }

  /**
   For any number of callers and any interleaving: while no call of `fn` succeeds, at most
   (1 + T/resetTimeout) * (maxFailures + n - 1) calls of `fn` are admitted in time T.
   */
  lemma AdmissionsBounded(cfg: CB.Config, n: nat, start: int, steps: seq<CB.Step>)
    requires cfg.maxFailures >= 1 && cfg.resetTimeout >= 1
    requires CB.Exec(cfg, CB.Start(n, start), steps).Some? && AllFail(steps)
    ensures var elapsed := CB.Exec(cfg, CB.Start(n, start), steps).value.now - start;
      CB.AdmissionsIn(cfg, CB.Start(n, start), steps) <= (1 + elapsed / cfg.resetTimeout) * RoundSize(cfg, n)
  {
    var s := CB.Start(n, start);
    W.TotalConstant(s.callers, 0, Pending());
    W.TotalConstant(s.callers, 0, Inside());
    var rounds := LedgerOfRun(cfg, s, steps, start, 0, 0);
    var last := CB.Exec(cfg, s, steps).value;
    TotalAtMost(last.callers, Inside(), Pending());
    B.RoundsFit(CB.AdmissionsIn(cfg, s, steps), rounds, RoundSize(cfg, n), cfg.resetTimeout, last.now - start);
  }

  // ---------------------------------------------------------------- attempts

  /**
   The k-th admitted call runs `Retry` in `calls(k)`; `who` gives the number of the call that each
   caller is in. `fn` returns an error exactly when its `Retry` does.
   */
  ghost predicate Plays(cfg: CB.Config, retry: R.RetryConfig, calls: nat -> R.Env, s: CB.System, steps: seq<CB.Step>,
                        who: map<nat, nat>, next: nat)
    requires CB.Exec(cfg, s, steps).Some?
    decreases |steps|
  {
    steps == [] ||
    (var step := steps[0];
     var admits := CB.Admits(cfg, s, step);
     && (step.FnReturns? ==>
           step.c in who && (step.failed <==> R.Verdict(retry, calls(who[step.c]), 0, None).Some?))
     && Plays(cfg, retry, calls, CB.Apply(cfg, s, step), steps[1..],
              if admits then who[step.c := next] else who, if admits then next + 1 else next))
  }

  /** The attempts of the first `k` admitted calls. */
  function Attempts(retry: R.RetryConfig, calls: nat -> R.Env, k: nat): nat {
    if k == 0 then 0 else Attempts(retry, calls, k - 1) + R.Calls(retry, calls(k - 1), 0)
  }

  lemma {:induction false} PlaysFails(cfg: CB.Config, retry: R.RetryConfig, calls: nat -> R.Env, s: CB.System,
                                      steps: seq<CB.Step>, who: map<nat, nat>, next: nat)
    requires CB.Exec(cfg, s, steps).Some? && Plays(cfg, retry, calls, s, steps, who, next)
    requires forall k: nat :: R.Verdict(retry, calls(k), 0, None).Some?
    ensures AllFail(steps)
    decreases |steps|
  {
    if steps != [] {
      var admits := CB.Admits(cfg, s, steps[0]);
      PlaysFails(cfg, retry, calls, CB.Apply(cfg, s, steps[0]), steps[1..],
                 if admits then who[steps[0].c := next] else who, if admits then next + 1 else next);
      assert steps == [steps[0]] + steps[1..];
    }
  }

  /** When no call succeeds, this asks no more of a schedule than that `fn` always fails. */
  lemma {:induction false} FailingSchedulePlays(cfg: CB.Config, retry: R.RetryConfig, calls: nat -> R.Env, s: CB.System,
                                                steps: seq<CB.Step>, who: map<nat, nat>, next: nat)
    requires CB.Exec(cfg, s, steps).Some? && AllFail(steps)
    requires forall c | 0 <= c < |s.callers| && s.callers[c].InFn? :: c in who
    requires forall k: nat :: R.Verdict(retry, calls(k), 0, None).Some?
    ensures Plays(cfg, retry, calls, s, steps, who, next)
    decreases |steps|
  {
    if steps != [] {
      var admits := CB.Admits(cfg, s, steps[0]);
      assert AllFail(steps[1..]) by {
        assert steps == [steps[0]] + steps[1..];
      }
      FailingSchedulePlays(cfg, retry, calls, CB.Apply(cfg, s, steps[0]), steps[1..],
                           if admits then who[steps[0].c := next] else who, if admits then next + 1 else next);
    }
  }

  lemma {:induction false} AttemptsBounded(retry: R.RetryConfig, calls: nat -> R.Env, k: nat)
    requires retry.maxAttempts >= 1
    ensures Attempts(retry, calls, k) <= k * retry.maxAttempts
  {
    if k > 0 {
      AttemptsBounded(retry, calls, k - 1);
      R.NilMeansSuccess(retry, calls(k - 1), 0, None);
      OneMore(k - 1, retry.maxAttempts);
    }
  }

  /** Calls that nobody cancels and that fail to the end make all their attempts: the budget is used up. */
  lemma {:induction false} AttemptsUsedUp(retry: R.RetryConfig, calls: nat -> R.Env, k: nat)
    requires retry.maxAttempts >= 1
    requires forall i: nat :: R.NeverCancelled(calls(i)) && forall j: nat :: calls(i).call(j).Some?
    ensures Attempts(retry, calls, k) == k * retry.maxAttempts
  {
    if k > 0 {
      AttemptsUsedUp(retry, calls, k - 1);
      R.Uninterrupted(retry, calls(k - 1), retry.maxAttempts);
      OneMore(k - 1, retry.maxAttempts);
    }
  }

  /**
   The budget of `n` callers of one breaker: if no `Retry` of theirs ever succeeds, the service is
   called at most (1 + T/resetTimeout) * (maxFailures + n - 1) * maxAttempts times in time T.
   */
  lemma SharedBudget(cfg: CB.Config, retry: R.RetryConfig, n: nat, start: int, steps: seq<CB.Step>, calls: nat -> R.Env)
    requires cfg.maxFailures >= 1 && cfg.resetTimeout >= 1 && retry.maxAttempts >= 1
    requires CB.Exec(cfg, CB.Start(n, start), steps).Some?
    requires Plays(cfg, retry, calls, CB.Start(n, start), steps, map[], 0)
    requires forall k: nat :: R.Verdict(retry, calls(k), 0, None).Some?
    ensures var elapsed := CB.Exec(cfg, CB.Start(n, start), steps).value.now - start;
      Attempts(retry, calls, CB.AdmissionsIn(cfg, CB.Start(n, start), steps))
        <= ((1 + elapsed / cfg.resetTimeout) * RoundSize(cfg, n)) * retry.maxAttempts
  {
    var admitted := CB.AdmissionsIn(cfg, CB.Start(n, start), steps);
    var elapsed := CB.Exec(cfg, CB.Start(n, start), steps).value.now - start;
    PlaysFails(cfg, retry, calls, CB.Start(n, start), steps, map[], 0);
    AdmissionsBounded(cfg, n, start, steps);
    AttemptsBounded(retry, calls, admitted);
    ScaleUp(admitted, (1 + elapsed / cfg.resetTimeout) * RoundSize(cfg, n), retry.maxAttempts);
  }

  // ---------------------------------------------------------------- the bound is reached

  lemma {:induction false} Extend(cfg: CB.Config, s: CB.System, steps: seq<CB.Step>, step: CB.Step)
    requires CB.Exec(cfg, s, steps).Some? && CB.Enabled(CB.Exec(cfg, s, steps).value, step)
    ensures var last := CB.Exec(cfg, s, steps).value;
      && CB.Exec(cfg, s, steps + [step]) == Some(CB.Apply(cfg, last, step))
      && CB.AdmissionsIn(cfg, s, steps + [step])
         == CB.AdmissionsIn(cfg, s, steps) + if CB.Admits(cfg, last, step) then 1 else 0
    decreases |steps|
  {
    if steps == [] {
      assert [step][1..] == [];
      assert steps + [step] == [step];
      assert CB.Exec(cfg, s, [step]) == CB.Exec(cfg, CB.Apply(cfg, s, step), []);
    } else {
      assert (steps + [step])[1..] == steps[1..] + [step];
      Extend(cfg, CB.Apply(cfg, s, steps[0]), steps[1..], step);
    }
  }

  ghost predicate Plan(cfg: CB.Config, n: nat, now: int, steps: seq<CB.Step>, breaker: CB.Breaker,
                       callers: seq<CB.Caller>, admitted: nat)
  {
    && CB.Exec(cfg, CB.Start(n, now), steps) == Some(CB.System(breaker, now, callers))
    && CB.AdmissionsIn(cfg, CB.Start(n, now), steps) == admitted && AllFail(steps)
  }

  lemma AndThen(cfg: CB.Config, n: nat, now: int, steps: seq<CB.Step>, s: CB.System, admitted: nat, step: CB.Step)
    returns (steps': seq<CB.Step>)
    requires Plan(cfg, n, now, steps, s.breaker, s.callers, admitted) && s.now == now
    requires CB.Enabled(s, step) && !step.Tick? && (step.FnReturns? ==> step.failed)
    ensures var s' := CB.Apply(cfg, s, step);
      Plan(cfg, n, now, steps', s'.breaker, s'.callers, admitted + if CB.Admits(cfg, s, step) then 1 else 0)
  {
    steps' := steps + [step];
    Extend(cfg, CB.Start(n, now), steps, step);
  }

  function AfterFailures(k: nat, now: int): CB.Breaker {
    if k == 0 then CB.NEW_BREAKER else CB.Breaker(CB.Closed, k, Some(now))
  }

  lemma OneFailure(cfg: CB.Config, n: nat, now: int, steps: seq<CB.Step>, k: nat) returns (steps': seq<CB.Step>)
    requires k + 1 < cfg.maxFailures && n >= 1
    requires Plan(cfg, n, now, steps, AfterFailures(k, now), seq(n, _ => CB.Out), k)
    ensures Plan(cfg, n, now, steps', AfterFailures(k + 1, now), seq(n, _ => CB.Out), k + 1)
  {
    var out := CB.System(AfterFailures(k, now), now, seq(n, _ => CB.Out));
    var hasRead := CB.Apply(cfg, out, CB.ReadState(0));
    var inFn := CB.Apply(cfg, hasRead, CB.Admit(0));
    var returned := CB.Apply(cfg, inFn, CB.FnReturns(0, true));
    steps' := AndThen(cfg, n, now, steps, out, k, CB.ReadState(0));
    steps' := AndThen(cfg, n, now, steps', hasRead, k, CB.Admit(0));
    steps' := AndThen(cfg, n, now, steps', inFn, k + 1, CB.FnReturns(0, true));
    steps' := AndThen(cfg, n, now, steps', returned, k + 1, CB.RecordStep(0));
    assert CB.Apply(cfg, returned, CB.RecordStep(0)).callers == out.callers;
  }

  /** One caller brings the breaker to the brink, one call after the other. */
  lemma ToTheBrink(cfg: CB.Config, n: nat, now: int) returns (steps: seq<CB.Step>)
    requires cfg.maxFailures >= 1 && n >= 1
    ensures Plan(cfg, n, now, steps, AfterFailures(cfg.maxFailures - 1, now), seq(n, _ => CB.Out), cfg.maxFailures - 1)
  {
    steps := [];
    for k := 0 to cfg.maxFailures - 1
      invariant Plan(cfg, n, now, steps, AfterFailures(k, now), seq(n, _ => CB.Out), k)
    {
      steps := OneFailure(cfg, n, now, steps, k);
    }
  }

  /** Callers from `c` on are `b`, those before it `a`. */
  function Split(n: nat, c: nat, a: CB.Caller, b: CB.Caller): seq<CB.Caller> {
    seq(n, i requires 0 <= i < n => if i < c then a else b)
  }

  lemma SplitNext(n: nat, c: nat, a: CB.Caller, b: CB.Caller)
    requires c < n
    ensures Split(n, c, a, b)[c] == b && Split(n, c, a, b)[c := a] == Split(n, c + 1, a, b)
  {
  }

  /** The bound cannot be improved:
      all its calls can be admitted in no time, for any limits and any number of callers. */
  lemma BoundIsReached(cfg: CB.Config, n: nat, now: int) returns (steps: seq<CB.Step>)
    requires cfg.maxFailures >= 1 && n >= 1
    ensures CB.Exec(cfg, CB.Start(n, now), steps).Some? && CB.Exec(cfg, CB.Start(n, now), steps).value.now == now
    ensures AllFail(steps) && CB.AdmissionsIn(cfg, CB.Start(n, now), steps) == RoundSize(cfg, n)
  {
    var b := AfterFailures(cfg.maxFailures - 1, now);
    var read := CB.HasRead(CB.Closed);
    steps := ToTheBrink(cfg, n, now);
    assert seq(n, _ => CB.Out) == Split(n, 0, read, CB.Out);
    for c := 0 to n
      invariant Plan(cfg, n, now, steps, b, Split(n, c, read, CB.Out), cfg.maxFailures - 1)
    {
      SplitNext(n, c, read, CB.Out);
      steps :=
        AndThen(cfg, n, now, steps, CB.System(b, now, Split(n, c, read, CB.Out)), cfg.maxFailures - 1, CB.ReadState(c));
    }
    assert Split(n, n, read, CB.Out) == Split(n, 0, CB.InFn, read);
    for c := 0 to n
      invariant Plan(cfg, n, now, steps, b, Split(n, c, CB.InFn, read), cfg.maxFailures - 1 + c)
    {
      SplitNext(n, c, CB.InFn, read);
      steps :=
        AndThen(cfg, n, now, steps, CB.System(b, now, Split(n, c, CB.InFn, read)), cfg.maxFailures - 1 + c,
                CB.Admit(c));
    }
  }
}
