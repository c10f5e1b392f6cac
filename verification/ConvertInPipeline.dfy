/**
 One `ConvertEmail` inside the pipeline. Its worker pool runs on the raw message of handler `h`
 while everybody else, the broker included, takes steps of the pipeline in between. Each email
 that the pool publishes or fails is a step of the pipeline, and the pipeline never refuses it.
 */
module ConvertInPipeline {
  import opened Workers
  import C = ConvertPool
  import P = Pipeline
  import D = Delivery

  /** What the pool publishes for an email, parsed or as a fallback. */
  datatype Contents = Contents(parsed: nat -> string, fallback: nat -> string)

  datatype System = System(pool: C.State, pipeline: P.State)

  datatype Event = ByPool(step: C.Step) | ByOthers(other: P.Step)

  datatype Outcome = Ended(end: System) | NotASchedule | Refused

  /** The pipeline steps behind a step of the pool. */
  function Image(h: nat, contents: Contents, pool: C.State, step: C.Step): seq<P.Step>
    requires C.Enabled(pool, step)
  {
    match step
    case PublishedParsed(w) =>
      [P.Analyzer(P.PublishParsed(h, pool.workers[w].job, contents.parsed(pool.workers[w].job)))]
    case PublishedFallback(w) =>
      [P.Analyzer(P.PublishParsed(h, pool.workers[w].job, contents.fallback(pool.workers[w].job)))]
    case Failed(w) => [P.Analyzer(P.EmailFails(h, pool.workers[w].job))]
    case _ => []
  }

  /** The step is not one that handler `h` takes. */
  predicate NotOf(h: nat, step: P.Step) {
    step.Analyzer? ==>
      match step.analyzer
      case DeliverRaw(_, _) => true
      case RequeueRaw(_) => true
      case PublishParsed(g, _, _) => g != h
      case EmailFails(g, _) => g != h
      case AckRaw(g) => g != h
      case EndAnalysis(g) => g != h
  }

  function Run(h: nat, contents: Contents, x: System, events: seq<Event>): Outcome
    decreases |events|
  {
    if events == [] then Ended(x)
    else
      match events[0]
      case ByPool(step) =>
        if !C.Enabled(x.pool, step) then NotASchedule
        else
          var next := P.Exec(x.pipeline, Image(h, contents, x.pool, step));
          if next.None? then Refused
          else Run(h, contents, System(C.Apply(x.pool, step), next.value), events[1..])
      case ByOthers(step) =>
        if !NotOf(h, step) || !P.Enabled(x.pipeline, step) then NotASchedule
        else Run(h, contents, System(x.pool, P.Apply(x.pipeline, step)), events[1..])
  }

  /** Counts the workers that are running job `j`. */
  function Runs(j: nat): Worker -> nat {
    (w: Worker) => if w.Running? && w.job == j then 1 else 0
  }

  function ToDo(pool: C.State, j: nat): nat {
    Total(pool.jobs, Is(j)) + Total(pool.workers, Runs(j))
  }

  function PublishedTimes(pool: C.State, j: nat): nat {
    Total(pool.parsed, Is(j)) + Total(pool.fallback, Is(j))
  }

  /** Handler `h` has a batch of `n` emails. */
  predicate HasBatch(s: P.State, h: nat, n: nat) {
    P.Analyzing(s, h) && |s.analyses[h].fates| == |s.raw[s.analyses[h].message].batch| == n
  }

  ghost predicate FateAgrees(pool: C.State, fate: P.Fate, j: nat) {
    (fate.Waiting? <==> ToDo(pool, j) > 0) && (fate.Published? <==> PublishedTimes(pool, j) > 0)
  }

  ghost predicate Agree(h: nat, x: System) {
    && C.Inv(x.pool)
    && HasBatch(x.pipeline, h, x.pool.n)
    && forall j: nat | j < x.pool.n :: FateAgrees(x.pool, x.pipeline.analyses[h].fates[j], j)
  }

  /** A published email has a message of its own: parsed or fallback, as the pool published it. */
  ghost predicate MessageAgrees(h: nat, contents: Contents, x: System, j: nat)
    requires HasBatch(x.pipeline, h, x.pool.n) && j < x.pool.n
  {
    var a := x.pipeline.analyses[h];
    var e := x.pipeline.raw[a.message].batch[j];
    a.fates[j].Published? ==>
      && a.fates[j].at < |x.pipeline.parsed|
      && x.pipeline.parsed[a.fates[j].at].key == P.Key(e.id, e.user)
      && x.pipeline.parsed[a.fates[j].at].content
         == if Total(x.pool.parsed, Is(j)) > 0 then contents.parsed(j) else contents.fallback(j)
  }

  ghost predicate MessagesAgree(h: nat, contents: Contents, x: System) {
    HasBatch(x.pipeline, h, x.pool.n) && forall j: nat | j < x.pool.n :: MessageAgrees(h, contents, x, j)
  }

  lemma OthersKeepMessages(h: nat, contents: Contents, x: System, step: P.Step)
    requires MessagesAgree(h, contents, x) && NotOf(h, step) && P.Enabled(x.pipeline, step)
    ensures MessagesAgree(h, contents, System(x.pool, P.Apply(x.pipeline, step)))
  {
    var x' := System(x.pool, P.Apply(x.pipeline, step));
    OthersKeep(h, x.pipeline, step, x.pool.n);
    P.StepKeepsParsedKeys(x.pipeline, step);
    forall j: nat | j < x.pool.n ensures MessageAgrees(h, contents, x', j) {
      assert MessageAgrees(h, contents, x, j);
      BatchStays(x.pipeline, step, x.pipeline.analyses[h].message);
    }
  }

  lemma BatchStays(s: P.State, step: P.Step, r: nat)
    requires r < |s.raw| && P.Enabled(s, step)
    ensures r < |P.Apply(s, step).raw| && P.Apply(s, step).raw[r].batch == s.raw[r].batch
  {
    match step {
      case Core(c) => P.CoreFrame(s, c);
      case Analyzer(a) => P.AnalyzerFrame(s, a);
      case Collector(c) => P.CollectorFrame(s, c);
    }
  }

  /** Only the publication as parsed makes an email count as parsed. */
  lemma ParsedAfter(pool: C.State, step: C.Step, j: nat)
    requires C.Enabled(pool, step)
    ensures Total(C.Apply(pool, step).parsed, Is(j))
      == Total(pool.parsed, Is(j)) + if step.PublishedParsed? && pool.workers[step.w].job == j then 1 else 0
  {
    if step.PublishedParsed? {
      TotalAppend<nat>(pool.parsed, pool.workers[step.w].job, Is(j));
    }
  }

  lemma PoolKeepsMessages(h: nat, contents: Contents, x: System, step: C.Step)
    requires Agree(h, x) && MessagesAgree(h, contents, x) && C.Enabled(x.pool, step)
    requires P.Exec(x.pipeline, Image(h, contents, x.pool, step)).Some?
    ensures MessagesAgree(h, contents,
      System(C.Apply(x.pool, step), P.Exec(x.pipeline, Image(h, contents, x.pool, step)).value))
  {
    var image := Image(h, contents, x.pool, step);
    var x' := System(C.Apply(x.pool, step), P.Exec(x.pipeline, image).value);
    if image != [] {
      RunningIsWaiting(h, x, step.w);
      assert image[1..] == [];
      assert P.Exec(x.pipeline, image) == P.Exec(P.Apply(x.pipeline, image[0]), []);
    }
    forall j: nat | j < x.pool.n ensures MessageAgrees(h, contents, x', j) {
      assert MessageAgrees(h, contents, x, j);
      ParsedAfter(x.pool, step, j);
    }
  }

  /** Whatever the interleaving, the parsed queue holds what the pool published, email by email. */
  lemma {:induction false} PublishesItsContents(h: nat, contents: Contents, x: System, events: seq<Event>)
    requires Agree(h, x) && MessagesAgree(h, contents, x) && Run(h, contents, x, events).Ended?
    ensures MessagesAgree(h, contents, Run(h, contents, x, events).end)
    decreases |events|
  {
    if events != [] {
      match events[0] {
        case ByPool(step) =>
          PoolStepAgrees(h, contents, x, step);
          PoolKeepsMessages(h, contents, x, step);
          var next := P.Exec(x.pipeline, Image(h, contents, x.pool, step)).value;
          PublishesItsContents(h, contents, System(C.Apply(x.pool, step), next), events[1..]);
        case ByOthers(step) =>
          OthersKeep(h, x.pipeline, step, x.pool.n);
          OthersKeepMessages(h, contents, x, step);
          PublishesItsContents(h, contents, System(x.pool, P.Apply(x.pipeline, step)), events[1..]);
      }
    }
  }

  /** From the delivery on: every email that the batch counts as published is in the parsed queue with its content. */
  lemma DeliveredContents(h: nat, contents: Contents, s: P.State, n: nat, events: seq<Event>)
    requires JustDelivered(s, h, n) && Run(h, contents, System(C.Start(n), s), events).Ended?
    ensures MessagesAgree(h, contents, Run(h, contents, System(C.Start(n), s), events).end)
  {
    StartAgrees(h, s, n);
    PublishesItsContents(h, contents, System(C.Start(n), s), events);
  }

  /** The handler has just got its delivery. */
  ghost predicate JustDelivered(s: P.State, h: nat, n: nat) {
    HasBatch(s, h, n) && forall j | 0 <= j < n :: s.analyses[h].fates[j] == P.Waiting
  }

  /** That is what the delivery of a queued message does, whoever was at work on it before. */
  lemma DeliveryStarts(s: P.State, r: nat, h: nat)
    requires P.AnalyzerEnabled(s, P.DeliverRaw(r, h))
    ensures var s' := P.ApplyAnalyzer(s, P.DeliverRaw(r, h));
      JustDelivered(s', h, |s.raw[r].batch|) && P.OwnsRaw(s', h) && s'.analyses[h].message == r
  {
  }

  lemma StartAgrees(h: nat, s: P.State, n: nat)
    requires JustDelivered(s, h, n)
    ensures Agree(h, System(C.Start(n), s))
  {
    C.StartInv(n);
    forall j: nat | j < n ensures FateAgrees(C.Start(n), s.analyses[h].fates[j], j) {
      JobsOnce(n, j);
    }
  }

  /** Steps of others leave the handler and its batch alone. */
  lemma OthersKeep(h: nat, s: P.State, step: P.Step, n: nat)
    requires HasBatch(s, h, n) && NotOf(h, step) && P.Enabled(s, step)
    ensures HasBatch(P.Apply(s, step), h, n) && P.Apply(s, step).analyses[h] == s.analyses[h]
  {
    match step {
      case Core(c) => P.CoreFrame(s, c);
      case Analyzer(a) => P.AnalyzerFrame(s, a);
      case Collector(c) => P.CollectorFrame(s, c);
    }
  }

  /** How a step of the pool moves email `j`. */
  lemma ToDoAfter(pool: C.State, step: C.Step, j: nat)
    requires C.Enabled(pool, step)
    ensures var disposes := (step.PublishedParsed? || step.PublishedFallback? || step.Failed?)
        && pool.workers[step.w].job == j;
      ToDo(C.Apply(pool, step), j) + (if disposes then 1 else 0) == ToDo(pool, j)
  {
    if !step.CloseErrChan? && !step.Return? && !step.CollectError? {
      TotalUpdate(pool.workers, step.w, C.Apply(pool, step).workers[step.w], Runs(j));
    }
  }

  lemma PublishedAfter(pool: C.State, step: C.Step, j: nat)
    requires C.Enabled(pool, step)
    ensures var publishes := (step.PublishedParsed? || step.PublishedFallback?) && pool.workers[step.w].job == j;
      PublishedTimes(C.Apply(pool, step), j) == PublishedTimes(pool, j) + (if publishes then 1 else 0)
  {
    if step.PublishedParsed? {
      TotalAppend<nat>(pool.parsed, pool.workers[step.w].job, Is(j));
    } else if step.PublishedFallback? {
      TotalAppend<nat>(pool.fallback, pool.workers[step.w].job, Is(j));
    }
  }

  /** A job that is running is one of the batch, not published yet, and its email is waiting. */
  lemma RunningIsWaiting(h: nat, x: System, w: nat)
    requires Agree(h, x) && C.IsRunning(x.pool, w)
    ensures P.EmailWaiting(x.pipeline, h, x.pool.workers[w].job)
    ensures ToDo(x.pool, x.pool.workers[w].job) == 1 && PublishedTimes(x.pool, x.pool.workers[w].job) == 0
  {
    var j := x.pool.workers[w].job;
    TotalMember(x.pool.workers, w, Runs(j));
    RunsAreHeld(x.pool.workers, j);
    assert C.Places(x.pool, j) == if j < x.pool.n then 1 else 0;
    assert FateAgrees(x.pool, x.pipeline.analyses[h].fates[j], j);
  }

  lemma {:induction false} RunsAreHeld(workers: seq<Worker>, j: nat)
    ensures Total(workers, Runs(j)) <= Total(workers, HoldsJob(j))
  {
    if workers != [] {
      RunsAreHeld(workers[1..], j);
    }
  }

  lemma PoolStepAgrees(h: nat, contents: Contents, x: System, step: C.Step)
    requires Agree(h, x) && C.Enabled(x.pool, step)
    ensures var next := P.Exec(x.pipeline, Image(h, contents, x.pool, step));
      next.Some? && Agree(h, System(C.Apply(x.pool, step), next.value))
  {
    var image := Image(h, contents, x.pool, step);
    if image != [] {
      RunningIsWaiting(h, x, step.w);
      assert image[1..] == [];
      assert P.Exec(x.pipeline, image) == P.Exec(P.Apply(x.pipeline, image[0]), []);
    }
    var s' := P.Exec(x.pipeline, image).value;
    C.StepKeepsInv(x.pool, step);
    forall j: nat | j < x.pool.n ensures FateAgrees(C.Apply(x.pool, step), s'.analyses[h].fates[j], j) {
      ToDoAfter(x.pool, step, j);
      PublishedAfter(x.pool, step, j);
      assert FateAgrees(x.pool, x.pipeline.analyses[h].fates[j], j);
    }
  }

  /** However the pool and everybody else interleave, the pipeline never refuses a step of the pool. */
  lemma {:induction false} NeverRefused(h: nat, contents: Contents, x: System, events: seq<Event>)
    requires Agree(h, x)
    ensures Run(h, contents, x, events) != Refused
    ensures Run(h, contents, x, events).Ended? ==>
      Agree(h, Run(h, contents, x, events).end) && Run(h, contents, x, events).end.pool.n == x.pool.n
    decreases |events|
  {
    if events != [] {
      match events[0] {
        case ByPool(step) =>
          if C.Enabled(x.pool, step) {
            PoolStepAgrees(h, contents, x, step);
            var next := P.Exec(x.pipeline, Image(h, contents, x.pool, step)).value;
            C.StepKeepsInv(x.pool, step);
            NeverRefused(h, contents, System(C.Apply(x.pool, step), next), events[1..]);
          }
        case ByOthers(step) =>
          if NotOf(h, step) && P.Enabled(x.pipeline, step) {
            OthersKeep(h, x.pipeline, step, x.pool.n);
            NeverRefused(h, contents, System(x.pool, P.Apply(x.pipeline, step)), events[1..]);
          }
      }
    }
  }

  /** When `ConvertEmail` has returned, it returns nil exactly when every email of the batch was published. */
  lemma NilMeansAllPublished(h: nat, x: System)
    requires Agree(h, x) && x.pool.returned
    ensures C.ReturnsNil(x.pool) <==> P.AllPublished(x.pipeline.analyses[h].fates)
  {
    var fates := x.pipeline.analyses[h].fates;
    C.AllExitedHoldNothing(x.pool);
    forall j: nat | j < x.pool.n
      ensures fates[j].Published? <==> Total(x.pool.errors, Is(j)) == 0
    {
      assert C.Places(x.pool, j) == 1;
      TotalConstant(x.pool.workers, 0, HoldsJob(j));
      assert FateAgrees(x.pool, fates[j], j);
    }
    if x.pool.errors != [] {
      var j := x.pool.errors[0];
      TotalMember<nat>(x.pool.errors, 0, Is(j));
      assert C.Places(x.pool, j) == if j < x.pool.n then 1 else 0;
      assert !fates[j].Published?;
    }
  }

  /**
   The acknowledgement step of the pipeline is what the code does: for a delivery of `n` emails,
   in every interleaving of its pool with everybody else, the pipeline lets the handler ack at its
   return exactly when `ConvertEmail` returns nil and the broker has not requeued the delivery;
   and that is when the delivery loop gets its ack through.
   */
  lemma AckExactlyWhenNil(h: nat, contents: Contents, s: P.State, n: nat, events: seq<Event>, loop: D.Behaviour, i: nat)
    requires JustDelivered(s, h, n)
    ensures Run(h, contents, System(C.Start(n), s), events) != Refused
    ensures var out := Run(h, contents, System(C.Start(n), s), events);
      out.Ended? && out.end.pool.returned ==>
        (P.AnalyzerEnabled(out.end.pipeline, P.AckRaw(h)) <==>
          C.ReturnsNil(out.end.pool) && P.OwnsRaw(out.end.pipeline, h))
    ensures var out := Run(h, contents, System(C.Start(n), s), events);
      out.Ended? && out.end.pool.returned
      && loop.handlerOk(i) == C.ReturnsNil(out.end.pool) && loop.ackWorks(i) == P.OwnsRaw(out.end.pipeline, h) ==>
        (loop.AnalyzerOutcome(i) == D.Acked <==> P.AnalyzerEnabled(out.end.pipeline, P.AckRaw(h)))
  {
    StartAgrees(h, s, n);
    NeverRefused(h, contents, System(C.Start(n), s), events);
    var out := Run(h, contents, System(C.Start(n), s), events);
    if out.Ended? && out.end.pool.returned {
      NilMeansAllPublished(h, out.end);
    }
  }

  /** Only the broker takes the delivery away from a handler that is still at work. */
  lemma OnlyRequeueDisowns(h: nat, s: P.State, step: P.Step)
    requires P.OwnsRaw(s, h) && NotOf(h, step) && P.Enabled(s, step)
    ensures P.OwnsRaw(P.Apply(s, step), h) <==> step != P.Analyzer(P.RequeueRaw(s.analyses[h].message))
  {
    match step {
      case Core(c) => P.CoreFrame(s, c);
      case Analyzer(a) => P.AnalyzerFrame(s, a);
      case Collector(c) => P.CollectorFrame(s, c);
    }
  }

  /** The run of the pipeline behind a schedule is one of its own runs. */
  lemma {:induction false} RunIsReachable(h: nat, contents: Contents, x: System, events: seq<Event>)
    requires P.Reachable(x.pipeline) && Run(h, contents, x, events).Ended?
    ensures P.Reachable(Run(h, contents, x, events).end.pipeline)
    decreases |events|
  {
    if events != [] {
      match events[0] {
        case ByPool(step) =>
          var image := Image(h, contents, x.pool, step);
          var next := P.Exec(x.pipeline, image).value;
          if image != [] {
            assert P.Exec(x.pipeline, image) == P.Exec(P.Apply(x.pipeline, image[0]), []);
            P.ReachableStep(x.pipeline, image[0]);
          }
          RunIsReachable(h, contents, System(C.Apply(x.pool, step), next), events[1..]);
        case ByOthers(step) =>
          P.ReachableStep(x.pipeline, step);
          RunIsReachable(h, contents, System(x.pool, P.Apply(x.pipeline, step)), events[1..]);
      }
    }
  }
}
