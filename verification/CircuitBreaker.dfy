/**
 The circuit breaker. `Execute` takes its lock three times: to read the state, to leave Open
 when the reset timeout has passed, and to record the result of `fn`; `fn` itself runs without
 the lock. Each locked section is one atomic step, and any number of callers interleave.
 */
module CircuitBreaker {
  import opened Prelude
  import W = Workers

  datatype Mode = Closed | Open | HalfOpen
  datatype Config = Config(maxFailures: int, resetTimeout: int)

  /** `lastFailure` is None for Go's zero time, which is longer ago than any timeout. */
  datatype Breaker = Breaker(mode: Mode, failures: int, lastFailure: Option<int>)

  const NEW_BREAKER := Breaker(Closed, 0, None)

  predicate TimeoutPassed(cfg: Config, b: Breaker, now: int) {
    b.lastFailure.None? || now - b.lastFailure.value >= cfg.resetTimeout
  }

  /** The locked section of a caller that has read Open. */
  function Probe(cfg: Config, b: Breaker, now: int): Breaker {
    if TimeoutPassed(cfg, b, now) then b.(mode := HalfOpen, failures := 0) else b
  }

  /** The locked section after `fn`. */
  function Record(cfg: Config, b: Breaker, failed: bool, now: int): Breaker {
    if failed then
      Breaker(if b.failures + 1 >= cfg.maxFailures then Open else b.mode, b.failures + 1, Some(now))
    else
      b.(failures := 0, mode := if b.mode == HalfOpen then Closed else b.mode)
  }

  /** What `Execute` returns: its own error, or the error or nil that `fn` returned. */
  datatype Outcome = Rejected | Ran(failed: bool)

  /** `Execute` when no other caller interferes. */
  function ExecuteAlone(cfg: Config, b: Breaker, start: int, failed: bool, end: int): (Breaker, Outcome) {
    if b.mode == Open && !TimeoutPassed(cfg, b, start) then (b, Rejected)
    else (Record(cfg, if b.mode == Open then Probe(cfg, b, start) else b, failed, end), Ran(failed))
  }

  class CircuitBreaker {
    const cfg: Config
    var state: Mode
    var failureCount: int
    var lastFailTime: Option<int>

    function Value(): Breaker
      reads this
    {
      Breaker(state, failureCount, lastFailTime)
    }

    constructor (maxFailures: int, resetTimeout: int)
      ensures cfg == Config(maxFailures, resetTimeout) && Value() == NEW_BREAKER
    {
      cfg := Config(maxFailures, resetTimeout);
      state, failureCount, lastFailTime := Closed, 0, None;
    }

    method TryHalfOpen(now: int) returns (admitted: bool)
      modifies this
      ensures Value() == old(Probe(cfg, Value(), now))
      ensures admitted == old(TimeoutPassed(cfg, Value(), now))
      ensures admitted <==> old(lastFailTime).None? || now - old(lastFailTime).value >= cfg.resetTimeout
      ensures lastFailTime == old(lastFailTime)
      ensures admitted ==> state == HalfOpen && failureCount == 0
      ensures !admitted ==> state == old(state) && failureCount == old(failureCount)
    {
      admitted := lastFailTime.None? || now - lastFailTime.value >= cfg.resetTimeout;
      if admitted {
        state := HalfOpen;
        failureCount := 0;
      }
    }

    method RecordResult(failed: bool, now: int)
      modifies this
      ensures Value() == old(Record(cfg, Value(), failed, now))
      ensures failed ==> failureCount == old(failureCount) + 1 && lastFailTime == Some(now)
      ensures failed ==> state == if failureCount >= cfg.maxFailures then Open else old(state)
      ensures !failed ==> failureCount == 0 && lastFailTime == old(lastFailTime)
      ensures !failed ==> state == if old(state) == HalfOpen then Closed else old(state)
    {
      if failed {
        failureCount := failureCount + 1;
        lastFailTime := Some(now);
        if failureCount >= cfg.maxFailures {
          state := Open;
        }
        return;
      }
      failureCount := 0;
      if state == HalfOpen {
        state := Closed;
      }
    }

    /** `failed` is what `fn` does if it is called, and `end` is when it returns. */
    method Execute(start: int, failed: bool, end: int) returns (outcome: Outcome)
      modifies this
      ensures (Value(), outcome) == old(ExecuteAlone(cfg, Value(), start, failed, end))
      ensures outcome.Rejected? <==>
        old(state) == Open && old(lastFailTime).Some? && start - old(lastFailTime).value < cfg.resetTimeout
      ensures outcome.Rejected? ==> Value() == old(Value())
      ensures outcome.Ran? ==> outcome.failed == failed
      ensures outcome == Ran(false) ==> state == Closed && failureCount == 0 && lastFailTime == old(lastFailTime)
      ensures outcome == Ran(true) ==>
        && failureCount == (if old(state) == Open then 0 else old(failureCount)) + 1
        && lastFailTime == Some(end)
        && state == if failureCount >= cfg.maxFailures then Open
                    else if old(state) == Closed then Closed else HalfOpen
    {
      if state == Open {
        var admitted := TryHalfOpen(start);
        if !admitted {
          return Rejected;
        }
      }
      RecordResult(failed, end);
      outcome := Ran(failed);
    }
  }

  // ---------------------------------------------------------------- interleaved callers

  datatype Caller = Out | HasRead(mode: Mode) | InFn | FnReturned(failed: bool)
  datatype System = System(breaker: Breaker, now: int, callers: seq<Caller>)
  datatype Step =
    Tick(elapsed: nat) | ReadState(c: nat) | Admit(c: nat) | FnReturns(c: nat, failed: bool) | RecordStep(c: nat)

  predicate Enabled(s: System, step: Step) {
    match step
    case Tick(_) => true
    case ReadState(c) => c < |s.callers| && s.callers[c].Out?
    case Admit(c) => c < |s.callers| && s.callers[c].HasRead?
    case FnReturns(c, _) => c < |s.callers| && s.callers[c].InFn?
    case RecordStep(c) => c < |s.callers| && s.callers[c].FnReturned?
  }

  function Apply(cfg: Config, s: System, step: Step): System
    requires Enabled(s, step)
  {
    match step
    case Tick(elapsed) => s.(now := s.now + elapsed)
    case ReadState(c) => s.(callers := s.callers[c := HasRead(s.breaker.mode)])
    case Admit(c) =>
      if s.callers[c].mode != Open then s.(callers := s.callers[c := InFn])
      else if TimeoutPassed(cfg, s.breaker, s.now) then
        s.(callers := s.callers[c := InFn], breaker := Probe(cfg, s.breaker, s.now))
      else s.(callers := s.callers[c := Out])
    case FnReturns(c, failed) => s.(callers := s.callers[c := FnReturned(failed)])
    case RecordStep(c) =>
      s.(callers := s.callers[c := Out], breaker := Record(cfg, s.breaker, s.callers[c].failed, s.now))
  }

  function Exec(cfg: Config, s: System, steps: seq<Step>): Option<System>
    decreases |steps|
  {
    if steps == [] then Some(s)
    else if Enabled(s, steps[0]) then Exec(cfg, Apply(cfg, s, steps[0]), steps[1..])
    else None
  }

  ghost predicate Inv(cfg: Config, s: System) {
    && 0 <= s.breaker.failures
    && (s.breaker.mode != Open ==> s.breaker.failures < cfg.maxFailures)
    && (s.breaker.mode == Open ==> s.breaker.lastFailure.Some?)
    && (s.breaker.lastFailure.Some? ==> s.breaker.lastFailure.value <= s.now)
    && (forall c | 0 <= c < |s.callers| && s.callers[c] == HasRead(Open) :: s.breaker.lastFailure.Some?)
  }

  ghost predicate NotEarlier(a: Option<int>, b: Option<int>) {
    a.Some? ==> b.Some? && a.value <= b.value
  }

  /** The state changes a single step may make. */
  ghost predicate LegalChange(cfg: Config, s: System, step: Step, s': System)
    requires Enabled(s, step)
  {
    var b, b' := s.breaker, s'.breaker;
    && NotEarlier(b.lastFailure, b'.lastFailure)
    && (b.mode == Open && b'.mode != Open ==>
          step.Admit? && b'.mode == HalfOpen && b'.failures == 0
          && b.lastFailure.Some? && s.now - b.lastFailure.value >= cfg.resetTimeout)
    && (b'.mode == Open && b.mode != Open ==>
          step.RecordStep? && b'.failures >= cfg.maxFailures && b'.lastFailure == Some(s.now))
    && (b'.mode == Closed && b.mode != Closed ==> b.mode == HalfOpen && step.RecordStep? && !s.callers[step.c].failed)
    && (b'.mode == HalfOpen && b.mode == Closed ==> step.Admit? && s.callers[step.c].mode == Open)
  }

  lemma StepIsLegal(cfg: Config, s: System, step: Step)
    requires cfg.maxFailures >= 1 && Inv(cfg, s) && Enabled(s, step)
    ensures Inv(cfg, Apply(cfg, s, step)) && LegalChange(cfg, s, step, Apply(cfg, s, step))
  {
  }

  /** Counts the failures recorded by a schedule. */
  function FailuresIn(cfg: Config, s: System, steps: seq<Step>): nat
    requires Exec(cfg, s, steps).Some?
    decreases |steps|
  {
    if steps == [] then 0
    else (if steps[0].RecordStep? && s.callers[steps[0].c].failed then 1 else 0)
         + FailuresIn(cfg, Apply(cfg, s, steps[0]), steps[1..])
  }

  lemma {:induction false} RunKeepsInv(cfg: Config, s: System, steps: seq<Step>)
    requires cfg.maxFailures >= 1 && Inv(cfg, s) && Exec(cfg, s, steps).Some?
    ensures Inv(cfg, Exec(cfg, s, steps).value) && Exec(cfg, s, steps).value.now >= s.now
    ensures NotEarlier(s.breaker.lastFailure, Exec(cfg, s, steps).value.breaker.lastFailure)
    decreases |steps|
  {
    if steps != [] {
      StepIsLegal(cfg, s, steps[0]);
      RunKeepsInv(cfg, Apply(cfg, s, steps[0]), steps[1..]);
    }
  }

  /** Opening takes the full number of failures: from HalfOpen, whose count is 0, `maxFailures` of them, not one. */
  lemma {:induction false} OpeningNeedsFailures(cfg: Config, s: System, steps: seq<Step>)
    requires cfg.maxFailures >= 1 && Inv(cfg, s) && Exec(cfg, s, steps).Some?
    requires s.breaker.mode != Open && Exec(cfg, s, steps).value.breaker.mode == Open
    ensures s.breaker.failures + FailuresIn(cfg, s, steps) >= cfg.maxFailures
    decreases |steps|
  {
    var s1 := Apply(cfg, s, steps[0]);
    StepIsLegal(cfg, s, steps[0]);
    if s1.breaker.mode != Open {
      OpeningNeedsFailures(cfg, s1, steps[1..]);
    }
  }

  /** The failures in a row at the end of a schedule that begins with `n`: a success and a probe start from 0. */
  function InARow(cfg: Config, s: System, steps: seq<Step>, n: int): int
    requires Exec(cfg, s, steps).Some?
    decreases |steps|
  {
    if steps == [] then n
    else
      var step := steps[0];
      var probes := step.Admit? && s.callers[step.c].mode == Open
        && (s.breaker.lastFailure.None? || s.now - s.breaker.lastFailure.value >= cfg.resetTimeout);
      var next := match step
        case RecordStep(c) => if s.callers[c].failed then n + 1 else 0
        case _ => if probes then 0 else n;
      InARow(cfg, Apply(cfg, s, step), steps[1..], next)
  }

  lemma {:induction false} CountIsInARow(cfg: Config, s: System, steps: seq<Step>)
    requires Exec(cfg, s, steps).Some?
    ensures Exec(cfg, s, steps).value.breaker.failures == InARow(cfg, s, steps, s.breaker.failures)
    decreases |steps|
  {
    if steps != [] {
      CountIsInARow(cfg, Apply(cfg, s, steps[0]), steps[1..]);
    }
  }

  /**
   After any run, the step that opens the breaker is the record of a failure that completes
   `maxFailures` failures in a row, with no success and no probe among them, and every such record does.
   */
  lemma OpensExactlyWhen(cfg: Config, s: System, steps: seq<Step>, step: Step)
    requires Exec(cfg, s, steps).Some? && Enabled(Exec(cfg, s, steps).value, step)
    requires Exec(cfg, s, steps).value.breaker.mode != Open
    ensures var last := Exec(cfg, s, steps).value;
      Apply(cfg, last, step).breaker.mode == Open <==>
        step.RecordStep? && last.callers[step.c].failed
        && InARow(cfg, s, steps, s.breaker.failures) + 1 >= cfg.maxFailures
  {
    CountIsInARow(cfg, s, steps);
  }

  /** A run from another mode to Open has such a step: `maxFailures` failures in a row, not just in all. */
  lemma {:induction false} OpeningNeedsARow(cfg: Config, s: System, steps: seq<Step>) returns (i: nat)
    requires Exec(cfg, s, steps).Some? && s.breaker.mode != Open && Exec(cfg, s, steps).value.breaker.mode == Open
    ensures i < |steps| && steps[i].RecordStep? && Exec(cfg, s, steps[..i]).Some?
    ensures var last := Exec(cfg, s, steps[..i]).value;
      && last.breaker.mode != Open
      && steps[i].c < |last.callers| && last.callers[steps[i].c] == FnReturned(true)
      && InARow(cfg, s, steps[..i], s.breaker.failures) + 1 >= cfg.maxFailures
    decreases |steps|
  {
    var s1 := Apply(cfg, s, steps[0]);
    if s1.breaker.mode == Open {
      i := 0;
      OpensExactlyWhen(cfg, s, steps[..0], steps[0]);
    } else {
      i := OpeningNeedsARow(cfg, s1, steps[1..]);
      assert steps[..i + 1][1..] == steps[1..][..i];
      i := i + 1;
      OpensInARow(cfg, s, steps, i);
    }
  }

  lemma OpensInARow(cfg: Config, s: System, steps: seq<Step>, i: nat)
    requires 0 < i < |steps| && Enabled(s, steps[0])
    requires Exec(cfg, Apply(cfg, s, steps[0]), steps[1..i]).Some?
    ensures Exec(cfg, s, steps[..i]) == Exec(cfg, Apply(cfg, s, steps[0]), steps[1..i])
    ensures InARow(cfg, s, steps[..i], s.breaker.failures)
         == InARow(cfg, Apply(cfg, s, steps[0]), steps[1..i], Apply(cfg, s, steps[0]).breaker.failures)
  {
    assert steps[..i][1..] == steps[1..i];
    CountIsInARow(cfg, s, steps[..i]);
    CountIsInARow(cfg, Apply(cfg, s, steps[0]), steps[1..i]);
  }

  /** Open lasts at least `resetTimeout` after the failure that is latest when the run starts, whoever interferes. */
  lemma {:induction false} OpenLasts(cfg: Config, s: System, steps: seq<Step>)
    requires cfg.maxFailures >= 1 && Inv(cfg, s) && Exec(cfg, s, steps).Some?
    requires s.breaker.mode == Open && Exec(cfg, s, steps).value.breaker.mode != Open
    ensures Exec(cfg, s, steps).value.now >= s.breaker.lastFailure.value + cfg.resetTimeout
    decreases |steps|
  {
    var s1 := Apply(cfg, s, steps[0]);
    StepIsLegal(cfg, s, steps[0]);
    if s1.breaker.mode == Open {
      OpenLasts(cfg, s1, steps[1..]);
    } else {
      RunKeepsInv(cfg, s1, steps[1..]);
    }
  }

  /** The step lets a caller call `fn`. */
  predicate Admits(cfg: Config, s: System, step: Step)
    requires Enabled(s, step)
  {
    step.Admit? && Apply(cfg, s, step).callers[step.c].InFn?
  }

  function AdmissionsIn(cfg: Config, s: System, steps: seq<Step>): nat
    requires Exec(cfg, s, steps).Some?
    decreases |steps|
  {
    if steps == [] then 0
    else (if Admits(cfg, s, steps[0]) then 1 else 0) + AdmissionsIn(cfg, Apply(cfg, s, steps[0]), steps[1..])
  }

  /** Counts the callers that read the state before the breaker opened and have not acted on it. */
  function PastTheRead(): Caller -> nat {
    (c: Caller) => if c.HasRead? && c.mode != Open then 1 else 0
  }

  lemma AdmissionUsesUpARead(cfg: Config, s: System, step: Step)
    requires Enabled(s, step) && s.breaker.mode == Open && !TimeoutPassed(cfg, s.breaker, s.now)
    ensures var s' := Apply(cfg, s, step);
      (if Admits(cfg, s, step) then 1 else 0) + W.Total(s'.callers, PastTheRead()) <= W.Total(s.callers, PastTheRead())
  {
    if !step.Tick? {
      W.TotalUpdate(s.callers, step.c, Apply(cfg, s, step).callers[step.c], PastTheRead());
    }
  }

  /**
   From the moment the breaker is Open until `resetTimeout` has passed since its last failure, `fn`
   is called at most once for each caller that had already read the state: everyone else is rejected.
   */
  lemma {:induction false} OpenAdmitsOnlyEarlierReaders(cfg: Config, s: System, steps: seq<Step>)
    requires cfg.maxFailures >= 1 && Inv(cfg, s) && Exec(cfg, s, steps).Some? && s.breaker.mode == Open
    requires Exec(cfg, s, steps).value.now < s.breaker.lastFailure.value + cfg.resetTimeout
    ensures Exec(cfg, s, steps).value.breaker.mode == Open
    ensures AdmissionsIn(cfg, s, steps) <= W.Total(s.callers, PastTheRead())
    decreases |steps|
  {
    if steps != [] {
      var s1 := Apply(cfg, s, steps[0]);
      StepIsLegal(cfg, s, steps[0]);
      RunKeepsInv(cfg, s1, steps[1..]);
      AdmissionUsesUpARead(cfg, s, steps[0]);
      OpenAdmitsOnlyEarlierReaders(cfg, s1, steps[1..]);
    }
  }

  /** All callers out, as after `NewCircuitBreaker`. */
  function Start(callers: nat, now: int): System {
    System(NEW_BREAKER, now, seq(callers, _ => Out))
  }

  /** In every reachable state the breaker is Open or below its failure limit. */
  lemma BelowLimitUnlessOpen(cfg: Config, callers: nat, now: int, steps: seq<Step>)
    requires cfg.maxFailures >= 1 && Exec(cfg, Start(callers, now), steps).Some?
    ensures var b := Exec(cfg, Start(callers, now), steps).value.breaker;
      b.mode != Open ==> 0 <= b.failures < cfg.maxFailures
  {
    RunKeepsInv(cfg, Start(callers, now), steps);
  }

  ghost predicate Reachable(cfg: Config, s: System) {
    exists callers, now, steps :: Exec(cfg, Start(callers, now), steps) == Some(s)
  }

  lemma {:induction false} ExecAppend(cfg: Config, s: System, first: seq<Step>, second: seq<Step>)
    requires Exec(cfg, s, first).Some?
    ensures Exec(cfg, s, first + second) == Exec(cfg, Exec(cfg, s, first).value, second)
    decreases |first|
  {
    if first == [] {
      assert first + second == second;
    } else {
      assert (first + second)[1..] == first[1..] + second;
      ExecAppend(cfg, Apply(cfg, s, first[0]), first[1..], second);
    }
  }

  lemma Next(cfg: Config, s: System, step: Step) returns (s': System)
    requires Reachable(cfg, s) && Enabled(s, step)
    ensures s' == Apply(cfg, s, step) && Reachable(cfg, s')
  {
    s' := Apply(cfg, s, step);
    var callers, now, steps :| Exec(cfg, Start(callers, now), steps) == Some(s);
    ExecAppend(cfg, Start(callers, now), steps, [step]);
    assert Exec(cfg, s, [step]) == Exec(cfg, s', []);
    assert Exec(cfg, Start(callers, now), steps + [step]) == Some(s');
  }

  /** A whole call of a breaker that is not Open, with nobody in between. */
  lemma WholeCall(cfg: Config, s: System, c: nat, failed: bool) returns (s': System)
    requires Reachable(cfg, s) && c < |s.callers| && s.callers[c].Out? && s.breaker.mode != Open
    ensures Reachable(cfg, s') && s' == s.(breaker := Record(cfg, s.breaker, failed, s.now))
  {
    s' := Next(cfg, s, ReadState(c));
    s' := Next(cfg, s', Admit(c));
    s' := Next(cfg, s', FnReturns(c, failed));
    s' := Next(cfg, s', RecordStep(c));
    assert s'.callers == s.callers;
  }

  lemma FailUntilOpen(cfg: Config, now: int) returns (s: System)
    requires cfg.maxFailures >= 1
    ensures Reachable(cfg, s)
    ensures s == System(Breaker(Open, cfg.maxFailures, Some(now)), now, [Out, Out, Out])
  {
    s := Start(3, now);
    assert Exec(cfg, Start(3, now), []) == Some(s);
    for k := 0 to cfg.maxFailures
      invariant Reachable(cfg, s) && s.now == now && s.callers == [Out, Out, Out]
      invariant s.breaker == if k == 0 then NEW_BREAKER
        else Breaker(if k == cfg.maxFailures then Open else Closed, k, Some(now))
    {
      s := WholeCall(cfg, s, 0, true);
    }
  }

  /**
   With any limits a healthy breaker can be put on probation: two callers read Open, the first one
   probes after the timeout and closes the breaker, and then the second takes it from Closed back to HalfOpen.
   */
  lemma StaleOpenReopensProbe(cfg: Config, now: int) returns (s: System)
    requires cfg.maxFailures >= 1
    ensures Reachable(cfg, s) && s.breaker == Breaker(Closed, 0, Some(now))
    ensures |s.callers| == 3 && s.callers[2] == HasRead(Open)
    ensures Reachable(cfg, Apply(cfg, s, Admit(2)))
    ensures Apply(cfg, s, Admit(2)).breaker.mode == HalfOpen
  {
    s := FailUntilOpen(cfg, now);
    s := Next(cfg, s, ReadState(1));
    s := Next(cfg, s, ReadState(2));
    s := Next(cfg, s, Tick(Max(0, cfg.resetTimeout)));
    s := Next(cfg, s, Admit(1));
    s := Next(cfg, s, FnReturns(1, false));
    s := Next(cfg, s, RecordStep(1));
    var probing := Next(cfg, s, Admit(2));
  }

  /** A Closed breaker leaves that mode for HalfOpen exactly in this way, and when the timeout has passed. */
  lemma ClosedReopensExactlyWhen(cfg: Config, s: System, step: Step)
    requires Enabled(s, step) && s.breaker.mode == Closed
    ensures Apply(cfg, s, step).breaker.mode == HalfOpen <==>
      step.Admit? && s.callers[step.c] == HasRead(Open) && TimeoutPassed(cfg, s.breaker, s.now)
  {
  }
}
