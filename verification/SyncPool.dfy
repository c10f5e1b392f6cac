/**
 One cycle of the scheduler: `syncAll` fills and closes a job channel, a pool of workers
 drains it into a result channel, and `syncAll` collects one result for each integration.
 Both channels are buffered for all the integrations picked. Integrations are numbered.
 */
module SyncPool {
  import opened Prelude
  import opened Workers

  datatype Result = Result(job: nat, ok: bool)

  /** `synced` is history: the calls of `SyncIntegration` that have returned. */
  datatype State = State(
    n: nat,
    sent: nat,
    closed: bool,
    jobs: seq<nat>,
    workers: seq<Worker>,
    results: seq<Result>,
    collected: seq<Result>,
    success: nat,
    synced: seq<Result>)

  datatype Step = Send | CloseJobs | Take(w: nat) | Return(w: nat, ok: bool) | Report(w: nat) | Exit(w: nat) | Collect

  function Start(n: nat, maxWorkers: int): State {
    State(n, 0, false, [], seq(Max(0, maxWorkers), _ => Idle), [], [], 0, [])
  }

  predicate Enabled(s: State, step: Step) {
    match step
    case Send => s.sent < s.n && |s.jobs| < s.n
    case CloseJobs => s.sent == s.n && !s.closed
    case Take(w) => w < |s.workers| && s.workers[w].Idle? && s.jobs != []
    case Return(w, _) => w < |s.workers| && s.workers[w].Running?
    case Report(w) => w < |s.workers| && s.workers[w].Reporting? && |s.results| < s.n
    case Exit(w) => w < |s.workers| && s.workers[w].Idle? && s.closed && s.jobs == []
    case Collect => s.closed && |s.collected| < s.n && s.results != []
  }

  function Apply(s: State, step: Step): State
    requires Enabled(s, step)
  {
    match step
    case Send => s.(jobs := s.jobs + [s.sent], sent := s.sent + 1)
    case CloseJobs => s.(closed := true)
    case Take(w) => s.(workers := s.workers[w := Running(s.jobs[0])], jobs := s.jobs[1..])
    case Return(w, ok) =>
      var job := s.workers[w].job;
      s.(workers := s.workers[w := Reporting(job, ok)], synced := s.synced + [Result(job, ok)])
    case Report(w) =>
      var done := s.workers[w];
      s.(workers := s.workers[w := Idle], results := s.results + [Result(done.job, done.ok)])
    case Exit(w) => s.(workers := s.workers[w := Exited])
    case Collect =>
      s.(results := s.results[1..], collected := s.collected + [s.results[0]],
         success := s.success + if s.results[0].ok then 1 else 0)
  }

  function Exec(s: State, steps: seq<Step>): Option<State>
    decreases |steps|
  {
    if steps == [] then Some(s)
    else if Enabled(s, steps[0]) then Exec(Apply(s, steps[0]), steps[1..])
    else None
  }

  /** Counts the results of job `j`, the results equal to `r`, and the successes. */
  function Of(j: nat): Result -> nat {
    (r: Result) => if r.job == j then 1 else 0
  }

  function Equal(r: Result): Result -> nat {
    (x: Result) => if x == r then 1 else 0
  }

  function Ok(): Result -> nat {
    (r: Result) => if r.ok then 1 else 0
  }

  /** Counts the workers that have the result `r` and have not sent it. */
  function Carries(r: Result): Worker -> nat {
    (w: Worker) => if w == Reporting(r.job, r.ok) then 1 else 0
  }

  /** How often job `j` occurs: unsent, queued, with a worker, as a result, collected. */
  function Places(s: State, j: nat): nat {
    (if s.sent <= j < s.n then 1 else 0) + Total(s.jobs, Is(j)) + Total(s.workers, HoldsJob(j))
    + Total(s.results, Of(j)) + Total(s.collected, Of(j))
  }

  /** History and results agree, result by result. */
  ghost predicate SyncedAgrees(s: State, r: Result) {
    Total(s.synced, Equal(r)) ==
      Total(s.workers, Carries(r)) + Total(s.results, Equal(r)) + Total(s.collected, Equal(r))
  }

  ghost predicate Inv(s: State) {
    && s.sent <= s.n
    && (forall j: nat :: Places(s, j) == if j < s.n then 1 else 0)
    && (s.n - s.sent) + |s.jobs| + Total(s.workers, Busy()) + |s.results| + |s.collected| == s.n
    && (forall r :: SyncedAgrees(s, r))
    && (s.closed ==> s.sent == s.n)
    && s.success == Total(s.collected, Ok())
    && (forall w | 0 <= w < |s.workers| && s.workers[w].Exited? :: s.closed && s.jobs == [])
  }

  /** Every step uses up exactly one unit. */
  function Measure(s: State): int {
    5 * (s.n - s.sent) + 4 * |s.jobs| + Total(s.workers, Weight()) + |s.results| + if s.closed then 0 else 1
  }

  lemma StartInv(n: nat, maxWorkers: int)
    ensures Inv(Start(n, maxWorkers)) && Measure(Start(n, maxWorkers)) == 5 * n + 1 + Max(0, maxWorkers)
  {
    var s := Start(n, maxWorkers);
    forall j: nat ensures Places(s, j) == if j < n then 1 else 0 {
      TotalConstant(s.workers, 0, HoldsJob(j));
    }
    forall r ensures SyncedAgrees(s, r) {
      TotalConstant(s.workers, 0, Carries(r));
    }
    TotalConstant(s.workers, 0, Busy());
    TotalConstant(s.workers, 1, Weight());
  }

  lemma PlacesKept(s: State, step: Step, j: nat)
    requires Enabled(s, step) && s.sent <= s.n
    ensures Places(Apply(s, step), j) == Places(s, j)
  {
    var s' := Apply(s, step);
    match step {
      case Send => TotalAppend<nat>(s.jobs, s.sent, Is(j));
      case CloseJobs =>
      case Collect => TotalAppend(s.collected, s.results[0], Of(j));
      case Report(w) =>
        TotalUpdate(s.workers, w, Idle, HoldsJob(j));
        TotalAppend(s.results, s'.results[|s.results|], Of(j));
      case _ => TotalUpdate(s.workers, step.w, s'.workers[step.w], HoldsJob(j));
    }
  }

  lemma SyncedKept(s: State, step: Step, r: Result)
    requires Enabled(s, step) && SyncedAgrees(s, r)
    ensures SyncedAgrees(Apply(s, step), r)
  {
    var s' := Apply(s, step);
    match step {
      case Send =>
      case CloseJobs =>
      case Collect => TotalAppend(s.collected, s.results[0], Equal(r));
      case Return(w, _) =>
        TotalUpdate(s.workers, w, s'.workers[w], Carries(r));
        TotalAppend(s.synced, s'.synced[|s.synced|], Equal(r));
      case Report(w) =>
        TotalUpdate(s.workers, w, Idle, Carries(r));
        TotalAppend(s.results, s'.results[|s.results|], Equal(r));
      case _ => TotalUpdate(s.workers, step.w, s'.workers[step.w], Carries(r));
    }
  }

  lemma CountsKept(s: State, step: Step)
    requires Enabled(s, step)
    ensures var s' := Apply(s, step);
      && |s'.jobs| + Total(s'.workers, Busy()) + |s'.results| + |s'.collected| - s'.sent
         == |s.jobs| + Total(s.workers, Busy()) + |s.results| + |s.collected| - s.sent
      && Measure(s') == Measure(s) - 1
      && s'.success - Total(s'.collected, Ok()) == s.success - Total(s.collected, Ok())
  {
    var s' := Apply(s, step);
    match step {
      case Send =>
      case CloseJobs =>
      case Collect => TotalAppend(s.collected, s.results[0], Ok());
      case _ =>
        TotalUpdate(s.workers, step.w, s'.workers[step.w], Busy());
        TotalUpdate(s.workers, step.w, s'.workers[step.w], Weight());
    }
  }

  lemma StepKeepsInv(s: State, step: Step)
    requires Inv(s) && Enabled(s, step)
    ensures Inv(Apply(s, step)) && Measure(Apply(s, step)) == Measure(s) - 1
    ensures Apply(s, step).n == s.n && |Apply(s, step).workers| == |s.workers|
  {
    var s' := Apply(s, step);
    forall j: nat ensures Places(s', j) == if j < s'.n then 1 else 0 {
      PlacesKept(s, step, j);
    }
    forall r ensures SyncedAgrees(s', r) {
      SyncedKept(s, step, r);
    }
    CountsKept(s, step);
  }

  /** A schedule can be no longer than the measure: the cycle ends, if every sync returns. */
  lemma {:induction false} RunIsBounded(s: State, steps: seq<Step>)
    requires Inv(s) && Exec(s, steps).Some?
    ensures Inv(Exec(s, steps).value)
    ensures Measure(Exec(s, steps).value) == Measure(s) - |steps|
    ensures Exec(s, steps).value.n == s.n && |Exec(s, steps).value.workers| == |s.workers|
    decreases |steps|
  {
    if steps != [] {
      StepKeepsInv(s, steps[0]);
      RunIsBounded(Apply(s, steps[0]), steps[1..]);
    }
  }

  /** No goroutine ever waits for room in a channel. */
  lemma ChannelsNeverFull(s: State, w: nat)
    requires Inv(s)
    ensures s.sent < s.n ==> |s.jobs| < s.n
    ensures w < |s.workers| && s.workers[w].Reporting? ==> |s.results| < s.n
  {
    if w < |s.workers| { TotalMember(s.workers, w, Busy()); }
  }

  ghost predicate Stuck(s: State) {
    forall step :: !Enabled(s, step)
  }

  lemma SomeStepEnabled(s: State) returns (step: Step)
    requires Inv(s) && s.workers != [] && |s.collected| < s.n
    ensures Enabled(s, step)
  {
    if s.sent < s.n { return Send; }
    if !s.closed { return CloseJobs; }
    if s.results != [] { return Collect; }
    if w :| 0 <= w < |s.workers| && s.workers[w].Running? { return Return(w, true); }
    if w :| 0 <= w < |s.workers| && s.workers[w].Reporting? { return Report(w); }
    TotalConstant(s.workers, 0, Busy());
    return Take(0);
  }

  lemma {:induction false} NothingRunsWithoutWorkers(s: State, steps: seq<Step>)
    requires Exec(s, steps).Some? && s.workers == [] && s.results == [] == s.collected
    ensures Exec(s, steps).value.collected == []
    decreases |steps|
  {
    if steps != [] {
      NothingRunsWithoutWorkers(Apply(s, steps[0]), steps[1..]);
    }
  }

  /**
   However the goroutines are scheduled, the cycle stops, and it stops with every result
   collected exactly when there is a worker or nothing to sync: otherwise it deadlocks.
   */
  lemma CycleEnds(n: nat, maxWorkers: int, steps: seq<Step>)
    requires Exec(Start(n, maxWorkers), steps).Some?
    ensures |steps| <= 5 * n + 1 + Max(0, maxWorkers)
    ensures var end := Exec(Start(n, maxWorkers), steps).value;
      Stuck(end) ==> (|end.collected| == n <==> maxWorkers >= 1 || n == 0)
  {
    var end := Exec(Start(n, maxWorkers), steps).value;
    StartInv(n, maxWorkers);
    RunIsBounded(Start(n, maxWorkers), steps);
    if maxWorkers >= 1 && |end.collected| < n {
      var step := SomeStepEnabled(end);
    }
    if maxWorkers <= 0 {
      NothingRunsWithoutWorkers(Start(n, maxWorkers), steps);
    }
  }

  /**
   When `syncAll` returns, every integration picked has been synced exactly once, the success
   counter counts the successful syncs, and no sync is still running: every stamp of this
   cycle is written before the next cycle reads the table.
   */
  lemma CycleComplete(n: nat, maxWorkers: int, steps: seq<Step>)
    requires Exec(Start(n, maxWorkers), steps).Some?
    requires |Exec(Start(n, maxWorkers), steps).value.collected| == n
    ensures var end := Exec(Start(n, maxWorkers), steps).value;
      && (forall j: nat :: Total(end.collected, Of(j)) == if j < n then 1 else 0)
      && (forall r :: Total(end.synced, Equal(r)) == Total(end.collected, Equal(r)))
      && end.success == Total(end.collected, Ok())
      && forall w | 0 <= w < |end.workers| :: !Holds(end.workers[w])
  {
    var end := Exec(Start(n, maxWorkers), steps).value;
    StartInv(n, maxWorkers);
    RunIsBounded(Start(n, maxWorkers), steps);
    forall w | 0 <= w < |end.workers| ensures !Holds(end.workers[w]) {
      TotalMember(end.workers, w, Busy());
    }
    forall j: nat ensures Total(end.collected, Of(j)) == if j < n then 1 else 0 {
      assert Places(end, j) == if j < n then 1 else 0;
      TotalConstant(end.workers, 0, HoldsJob(j));
    }
    forall r ensures Total(end.synced, Equal(r)) == Total(end.collected, Equal(r)) {
      assert SyncedAgrees(end, r);
      TotalConstant(end.workers, 0, Carries(r));
    }
  }
}
