/**
 The worker pool of `ConvertEmail`: the job channel is filled and closed before the workers
 start, each worker disposes of one email at a time, errors go through `errChan`, a further
 goroutine closes `errChan` once all workers have returned, and `ConvertEmail` drains it.
 The emails of the batch are numbered; what happens to one email is `Analyzer.ProcessEmail`.
 */
module ConvertPool {
  import opened Prelude
  import opened Workers

  const NUMBER_OF_WORKERS: nat := 4

  /** `parsed` and `fallback` list the emails published either way. */
  datatype State = State(
    n: nat,
    jobs: seq<nat>,
    workers: seq<Worker>,
    errChan: seq<nat>,
    errChanClosed: bool,
    parsed: seq<nat>,
    fallback: seq<nat>,
    errors: seq<nat>,
    returned: bool)

  datatype Step =
    | Take(w: nat)
    | PublishedParsed(w: nat)
    | PublishedFallback(w: nat)
    | Failed(w: nat)
    | SendError(w: nat)
    | Exit(w: nat)
    | CloseErrChan
    | CollectError
    | Return

  function Start(n: nat): State {
    State(n, Jobs(n), seq(Min(n, NUMBER_OF_WORKERS), _ => Idle), [], false, [], [], [], false)
  }

  predicate IsRunning(s: State, w: nat) {
    w < |s.workers| && s.workers[w].Running?
  }

  predicate Enabled(s: State, step: Step) {
    match step
    case Take(w) => w < |s.workers| && s.workers[w].Idle? && s.jobs != []
    case PublishedParsed(w) => IsRunning(s, w)
    case PublishedFallback(w) => IsRunning(s, w)
    case Failed(w) => IsRunning(s, w)
    case SendError(w) => w < |s.workers| && s.workers[w].Reporting? && !s.errChanClosed && |s.errChan| < s.n
    case Exit(w) => w < |s.workers| && s.workers[w].Idle? && s.jobs == []
    case CloseErrChan => !s.errChanClosed && forall w | 0 <= w < |s.workers| :: s.workers[w].Exited?
    case CollectError => !s.returned && s.errChan != []
    case Return => !s.returned && s.errChanClosed && s.errChan == []
  }

  function Apply(s: State, step: Step): State
    requires Enabled(s, step)
  {
    match step
    case Take(w) => s.(workers := s.workers[w := Running(s.jobs[0])], jobs := s.jobs[1..])
    case PublishedParsed(w) => s.(workers := s.workers[w := Idle], parsed := s.parsed + [s.workers[w].job])
    case PublishedFallback(w) => s.(workers := s.workers[w := Idle], fallback := s.fallback + [s.workers[w].job])
    case Failed(w) => s.(workers := s.workers[w := Reporting(s.workers[w].job, false)])
    case SendError(w) => s.(workers := s.workers[w := Idle], errChan := s.errChan + [s.workers[w].job])
    case Exit(w) => s.(workers := s.workers[w := Exited])
    case CloseErrChan => s.(errChanClosed := true)
    case CollectError => s.(errChan := s.errChan[1..], errors := s.errors + [s.errChan[0]])
    case Return => s.(returned := true)
  }

  function Exec(s: State, steps: seq<Step>): Option<State>
    decreases |steps|
  {
    if steps == [] then Some(s)
    else if Enabled(s, steps[0]) then Exec(Apply(s, steps[0]), steps[1..])
    else None
  }

  /** How often email `j` occurs: queued, with a worker, published, as an error on its way or collected. */
  function Places(s: State, j: nat): nat {
    Total(s.jobs, Is(j)) + Total(s.workers, HoldsJob(j)) + Total(s.parsed, Is(j)) + Total(s.fallback, Is(j))
    + Total(s.errChan, Is(j)) + Total(s.errors, Is(j))
  }

  function Count(s: State): nat {
    |s.jobs| + Total(s.workers, Busy()) + |s.parsed| + |s.fallback| + |s.errChan| + |s.errors|
  }

  ghost predicate Inv(s: State) {
    && (forall j: nat :: Places(s, j) == if j < s.n then 1 else 0)
    && Count(s) == s.n
    && (s.n > 0 ==> s.workers != [])
    && (s.errChanClosed ==> forall w | 0 <= w < |s.workers| :: s.workers[w].Exited?)
    && (forall w | 0 <= w < |s.workers| && s.workers[w].Exited? :: s.jobs == [])
    && (s.returned ==> s.errChanClosed && s.errChan == [])
  }

  function Measure(s: State): nat {
    4 * |s.jobs| + Total(s.workers, Weight()) + |s.errChan|
    + (if s.errChanClosed then 0 else 1) + if s.returned then 0 else 1
  }

  lemma StartInv(n: nat)
    ensures Inv(Start(n)) && Measure(Start(n)) <= 5 * n + 2
  {
    var s := Start(n);
    forall j: nat ensures Places(s, j) == if j < n then 1 else 0 {
      JobsOnce(n, j);
      TotalConstant(s.workers, 0, HoldsJob(j));
    }
    TotalConstant(s.workers, 0, Busy());
    TotalConstant(s.workers, 1, Weight());
  }

  lemma PlacesKept(s: State, step: Step, j: nat)
    requires Enabled(s, step)
    ensures Places(Apply(s, step), j) == Places(s, j)
  {
    var s' := Apply(s, step);
    match step {
      case CloseErrChan =>
      case Return =>
      case CollectError => TotalAppend<nat>(s.errors, s.errChan[0], Is(j));
      case Take(w) => TotalUpdate(s.workers, w, s'.workers[w], HoldsJob(j));
      case PublishedParsed(w) =>
        TotalUpdate(s.workers, w, Idle, HoldsJob(j));
        TotalAppend<nat>(s.parsed, s.workers[w].job, Is(j));
      case PublishedFallback(w) =>
        TotalUpdate(s.workers, w, Idle, HoldsJob(j));
        TotalAppend<nat>(s.fallback, s.workers[w].job, Is(j));
      case Failed(w) => TotalUpdate(s.workers, w, s'.workers[w], HoldsJob(j));
      case SendError(w) =>
        TotalUpdate(s.workers, w, Idle, HoldsJob(j));
        TotalAppend<nat>(s.errChan, s.workers[w].job, Is(j));
      case Exit(w) => TotalUpdate(s.workers, w, Exited, HoldsJob(j));
    }
  }

  lemma CountsKept(s: State, step: Step)
    requires Enabled(s, step)
    ensures Count(Apply(s, step)) == Count(s) && Measure(Apply(s, step)) < Measure(s)
  {
    var s' := Apply(s, step);
    if !step.CloseErrChan? && !step.Return? && !step.CollectError? {
      TotalUpdate(s.workers, step.w, s'.workers[step.w], Busy());
      TotalUpdate(s.workers, step.w, s'.workers[step.w], Weight());
    }
  }

  lemma StepKeepsInv(s: State, step: Step)
    requires Inv(s) && Enabled(s, step)
    ensures Inv(Apply(s, step)) && Measure(Apply(s, step)) < Measure(s) && Apply(s, step).n == s.n
  {
    var s' := Apply(s, step);
    forall j: nat ensures Places(s', j) == if j < s'.n then 1 else 0 {
      PlacesKept(s, step, j);
    }
    CountsKept(s, step);
  }

  lemma {:induction false} RunIsBounded(s: State, steps: seq<Step>)
    requires Inv(s) && Exec(s, steps).Some?
    ensures Inv(Exec(s, steps).value) && Exec(s, steps).value.n == s.n
    ensures Measure(Exec(s, steps).value) + |steps| <= Measure(s)
    decreases |steps|
  {
    if steps != [] {
      StepKeepsInv(s, steps[0]);
      RunIsBounded(Apply(s, steps[0]), steps[1..]);
    }
  }

  /** A worker with an error never finds `errChan` closed, which would panic, nor full, which would block. */
  lemma SendErrorIsSafe(n: nat, steps: seq<Step>, w: nat)
    requires Exec(Start(n), steps).Some?
    requires w < |Exec(Start(n), steps).value.workers| && Exec(Start(n), steps).value.workers[w].Reporting?
    ensures !Exec(Start(n), steps).value.errChanClosed && |Exec(Start(n), steps).value.errChan| < n
  {
    StartInv(n);
    RunIsBounded(Start(n), steps);
    TotalMember(Exec(Start(n), steps).value.workers, w, Busy());
  }

  lemma SomeStepEnabled(s: State) returns (step: Step)
    requires Inv(s) && !s.returned
    ensures Enabled(s, step)
  {
    if s.errChan != [] { return CollectError; }
    if s.errChanClosed { return Return; }
    if w :| 0 <= w < |s.workers| && s.workers[w].Running? { return Failed(w); }
    if w :| 0 <= w < |s.workers| && s.workers[w].Reporting? {
      TotalMember(s.workers, w, Busy());
      return SendError(w);
    }
    if w :| 0 <= w < |s.workers| && s.workers[w].Idle? {
      return if s.jobs == [] then Exit(w) else Take(w);
    }
    return CloseErrChan;
  }

  /** However the goroutines are scheduled, the pool stops, and it stops only by returning. */
  lemma PoolReturns(n: nat, steps: seq<Step>)
    requires Exec(Start(n), steps).Some?
    ensures |steps| <= 5 * n + 2
    ensures (forall step :: !Enabled(Exec(Start(n), steps).value, step)) ==> Exec(Start(n), steps).value.returned
  {
    StartInv(n);
    RunIsBounded(Start(n), steps);
    if !Exec(Start(n), steps).value.returned {
      var step := SomeStepEnabled(Exec(Start(n), steps).value);
    }
  }

  /** The pool has four workers, or as many as there are emails. */
  lemma FourWorkers(n: nat, steps: seq<Step>)
    requires Exec(Start(n), steps).Some?
    ensures |Exec(Start(n), steps).value.workers| == if n < 4 then n else 4
  {
    WorkersStay(Start(n), steps);
  }

  lemma {:induction false} WorkersStay(s: State, steps: seq<Step>)
    requires Exec(s, steps).Some?
    ensures |Exec(s, steps).value.workers| == |s.workers|
    decreases |steps|
  {
    if steps != [] {
      WorkersStay(Apply(s, steps[0]), steps[1..]);
    }
  }

  /** `ConvertEmail` returns nil when no error was collected. */
  predicate ReturnsNil(s: State) {
    s.returned && s.errors == []
  }

  /**
   By the time `ConvertEmail` returns, each email has been published as parsed, or published as
   a fallback, or has produced one error, and never two of these; so the result is nil exactly
   when every email was published.
   */
  lemma EveryEmailEndsOnce(n: nat, steps: seq<Step>)
    requires Exec(Start(n), steps).Some? && Exec(Start(n), steps).value.returned
    ensures var end := Exec(Start(n), steps).value;
      && (forall j: nat :: Total(end.parsed, Is(j)) + Total(end.fallback, Is(j)) + Total(end.errors, Is(j))
                           == if j < n then 1 else 0)
      && |end.parsed| + |end.fallback| + |end.errors| == n
      && (ReturnsNil(end) <==> forall j: nat | j < n :: Total(end.parsed, Is(j)) + Total(end.fallback, Is(j)) == 1)
  {
    var end := Exec(Start(n), steps).value;
    StartInv(n);
    RunIsBounded(Start(n), steps);
    AllExitedHoldNothing(end);
    forall j: nat
      ensures Total(end.parsed, Is(j)) + Total(end.fallback, Is(j)) + Total(end.errors, Is(j)) == if j < n then 1 else 0
    {
      assert Places(end, j) == if j < n then 1 else 0;
      TotalConstant(end.workers, 0, HoldsJob(j));
    }
    if end.errors != [] {
      var j := end.errors[0];
      TotalMember<nat>(end.errors, 0, Is(j));
      assert Total(end.parsed, Is(j)) + Total(end.fallback, Is(j)) + Total(end.errors, Is(j)) == if j < n then 1 else 0;
    }
  }

  lemma AllExitedHoldNothing(s: State)
    requires Inv(s) && s.returned
    ensures s.jobs == [] && s.errChan == [] && Total(s.workers, Busy()) == 0
    ensures forall w | 0 <= w < |s.workers| :: s.workers[w].Exited?
  {
    TotalConstant(s.workers, 0, Busy());
    if s.workers != [] { assert s.workers[0].Exited?; }
  }
}
