/**
 More about the runs of the pipeline: what the tasks hold, what a replay does, and that a queued
 batch can always be brought to its tasks.
 */
module PipelineRuns {
  import opened Prelude
  import opened Pipeline

  // ---------------------------------------------------------------- what a task holds

  /** The message that handler `h` works on. */
  function MessageOf(s: State, h: nat): ParsedMessage
    requires h in s.handlings && s.handlings[h].message < |s.parsed|
  {
    s.parsed[s.handlings[h].message]
  }

  predicate NoTask(tasks: seq<Task>, key: Key) {
    forall i | 0 <= i < |tasks| :: tasks[i].key != key
  }

  /** What the two inserts do: a row with the content of the message, or a conflict that changes no row. */
  lemma InsertStores(s: State, h: nat)
    requires AtPhase(s, h, SawAbsent)
    ensures var m := MessageOf(s, h);
      var s' := ApplyCollector(s, InsertTask(h));
      if NoTask(s.tasks, m.key)
      then s'.tasks == s.tasks + [Task(m.key, m.content)] && s'.handlings[h].phase == HandlerOk
      else s'.tasks == s.tasks && s'.handlings[h].phase == HandlerFailed(true)
    ensures var m := MessageOf(s, h);
      NoTask(s.tasks, m.key) ==>
        var s' := ApplyCollector(s, InsertTaskUnconfirmed(h));
        s'.tasks == s.tasks + [Task(m.key, m.content)] && s'.handlings[h].phase == HandlerFailed(false)
  {
  }

  /** The check finds the task of the message if there is one, and then the handler is done. */
  lemma CheckFinds(s: State, h: nat)
    requires AtPhase(s, h, Received)
    ensures ApplyCollector(s, CheckTask(h)).handlings[h].phase
         == if NoTask(s.tasks, MessageOf(s, h).key) then SawAbsent else HandlerOk
  {
  }

  predicate Inserting(s: State, step: Step) {
    step.Collector? && (step.collector.InsertTask? || step.collector.InsertTaskUnconfirmed?)
    && AtPhase(s, step.collector.h, SawAbsent)
  }

  /** A step leaves the table alone, adds the task of a message whose key has none, or deletes a row. */
  ghost predicate TableStep(s: State, step: Step, tasks: seq<Task>) {
    || tasks == s.tasks
    || (Inserting(s, step)
        && var m := MessageOf(s, step.collector.h);
           NoTask(s.tasks, m.key) && tasks == s.tasks + [Task(m.key, m.content)])
    || (!NoDeletes([step]) && forall i | 0 <= i < |tasks| :: tasks[i] in s.tasks)
  }

  lemma StepTasks(s: State, step: Step)
    requires Enabled(s, step)
    ensures TableStep(s, step, Apply(s, step).tasks)
  {
    match step {
      case Core(c) => CoreFrame(s, c);
      case Analyzer(a) => AnalyzerFrame(s, a);
      case Collector(c) => CollectorTasks(s, c);
    }
  }

  lemma CollectorTasks(s: State, step: CollectorStep)
    requires CollectorEnabled(s, step)
    ensures TableStep(s, Collector(step), ApplyCollector(s, step).tasks)
  {
    if step.InsertTask? || step.InsertTaskUnconfirmed? {
      InsertStores(s, step.h);
    } else if step.DeleteTask? {
      assert [Collector(step)][0] == Collector(step);
    }
  }

  ghost predicate ComesFrom(t: Task, parsed: seq<ParsedMessage>) {
    exists p | 0 <= p < |parsed| :: parsed[p].key == t.key && parsed[p].content == t.content
  }

  ghost predicate ContentInv(s: State) {
    forall i | 0 <= i < |s.tasks| :: ComesFrom(s.tasks[i], s.parsed)
  }

  lemma ComesFromKept(t: Task, parsed: seq<ParsedMessage>, parsed': seq<ParsedMessage>)
    requires ComesFrom(t, parsed) && SameMessages(parsed, parsed')
    ensures ComesFrom(t, parsed')
  {
    var p :| 0 <= p < |parsed| && parsed[p].key == t.key && parsed[p].content == t.content;
    assert parsed'[p].key == t.key;
  }

  /** Every row after a step is a row from before, or comes from the message of the step. */
  lemma RowsAfter(s: State, step: Step, i: nat)
    requires Enabled(s, step) && i < |Apply(s, step).tasks|
    ensures var t := Apply(s, step).tasks[i]; t in s.tasks || ComesFrom(t, s.parsed)
  {
    StepTasks(s, step);
  }

  lemma {:induction false} RunKeepsContent(s: State, steps: seq<Step>)
    requires ContentInv(s) && Exec(s, steps).Some?
    ensures ContentInv(Exec(s, steps).value)
    decreases |steps|
  {
    if steps != [] {
      var s' := Apply(s, steps[0]);
      StepKeepsParsedKeys(s, steps[0]);
      forall i | 0 <= i < |s'.tasks| ensures ComesFrom(s'.tasks[i], s'.parsed) {
        RowsAfter(s, steps[0], i);
        ComesFromKept(s'.tasks[i], s.parsed, s'.parsed);
      }
      RunKeepsContent(s', steps[1..]);
    }
  }

  /** In every run, the key and the content of a task are those of one and the same parsed message. */
  lemma TaskHoldsItsMessage(s: State, i: nat) returns (p: nat)
    requires Reachable(s) && i < |s.tasks|
    ensures p < |s.parsed| && s.parsed[p].key == s.tasks[i].key && s.parsed[p].content == s.tasks[i].content
  {
    var exclusive, steps :| Exec(Init(exclusive), steps) == Some(s);
    RunKeepsContent(Init(exclusive), steps);
    assert ComesFrom(s.tasks[i], s.parsed);
    p :| 0 <= p < |s.parsed| && s.parsed[p].key == s.tasks[i].key && s.parsed[p].content == s.tasks[i].content;
  }

  /** The step inserts a task for the key, in this state. */
  predicate Inserts(s: State, step: Step, key: Key, content: string) {
    Inserting(s, step)
    && MessageOf(s, step.collector.h).key == key && MessageOf(s, step.collector.h).content == content
  }

  /**
   Absent deletes, the task of a key holds the content of its first insert, confirmed or not: the
   content of the message that was inserted while the key had no task.
   */
  lemma {:induction false} FirstInsertDecides(s: State, steps: seq<Step>, key: Key, i: nat) returns (k: nat)
    requires Exec(s, steps).Some? && NoDeletes(steps) && NoTask(s.tasks, key)
    requires i < |Exec(s, steps).value.tasks| && Exec(s, steps).value.tasks[i].key == key
    ensures k < |steps| && Exec(s, steps[..k]).Some?
    ensures NoTask(Exec(s, steps[..k]).value.tasks, key)
    ensures Inserts(Exec(s, steps[..k]).value, steps[k], key, Exec(s, steps).value.tasks[i].content)
    decreases |steps|
  {
    var s1 := Apply(s, steps[0]);
    if NoTask(s1.tasks, key) {
      var rest := FirstInsertDecides(s1, steps[1..], key, i);
      k := rest + 1;
      assert steps[..k][1..] == steps[1..][..rest];
    } else {
      k := 0;
      FirstInsertWins(s1, steps[1..]);
      StepInserts(s, steps[0], key);
      assert s1.tasks[|s.tasks|] == Exec(s, steps).value.tasks[|s.tasks|];
      assert i >= |s1.tasks| ==> false by {
        if i >= |s1.tasks| { OneRow(s1, steps[1..], key, |s.tasks|, i); }
      }
    }
  }

  lemma StepInserts(s: State, step: Step, key: Key)
    requires Enabled(s, step) && NoDeletes([step]) && NoTask(s.tasks, key) && !NoTask(Apply(s, step).tasks, key)
    ensures |Apply(s, step).tasks| == |s.tasks| + 1 && s.tasks <= Apply(s, step).tasks
    ensures Inserts(s, step, key, Apply(s, step).tasks[|s.tasks|].content)
    ensures Apply(s, step).tasks[|s.tasks|].key == key
  {
    StepTasks(s, step);
  }

  /** A key that has a row does not get another one. */
  lemma {:induction false} OneRow(s: State, steps: seq<Step>, key: Key, first: nat, other: nat)
    requires Exec(s, steps).Some? && NoDeletes(steps)
    requires first < |s.tasks| && s.tasks[first].key == key
    requires |s.tasks| <= other < |Exec(s, steps).value.tasks|
    ensures Exec(s, steps).value.tasks[other].key != key
    decreases |steps|
  {
    var s1 := Apply(s, steps[0]);
    StepKeepsRows(s, steps[0]);
    if other >= |s1.tasks| {
      OneRow(s1, steps[1..], key, first, other);
    } else {
      FirstInsertWins(s1, steps[1..]);
      NewRowIsNew(s, steps[0]);
      assert Exec(s, steps).value.tasks[other] == s1.tasks[|s.tasks|];
    }
  }

  lemma NewRowIsNew(s: State, step: Step)
    requires Enabled(s, step) && NoDeletes([step])
    ensures var s' := Apply(s, step);
      |s'.tasks| <= |s.tasks| + 1 && (|s'.tasks| > |s.tasks| ==> NoTask(s.tasks, s'.tasks[|s.tasks|].key))
  {
    StepTasks(s, step);
  }

  // ---------------------------------------------------------------- redelivery

  /**
   A requeued message can be delivered again, to a handler that starts afresh, and the handler of
   the delivery before goes on as if nothing had happened, except that it cannot settle the message.
   */
  lemma RawDeliveredAgain(s: State, r: nat, h: nat)
    requires r < |s.raw| && s.raw[r].status.RawInFlight? && h !in s.analyses
    ensures var s' := ApplyAnalyzer(s, RequeueRaw(r));
      && AnalyzerEnabled(s', DeliverRaw(r, h)) && s'.analyses == s.analyses
      && var again := ApplyAnalyzer(s', DeliverRaw(r, h));
         && again.raw == s.raw[r := RawMessage(s.raw[r].batch, RawInFlight(h))]
         && again.analyses == s.analyses[h := Analysis(r, seq(|s.raw[r].batch|, _ => Waiting))]
         && forall g | g in s.analyses && s.analyses[g].message == r :: !AnalyzerEnabled(again, AckRaw(g))
  {
  }

  lemma ParsedDeliveredAgain(s: State, p: nat, h: nat)
    requires p < |s.parsed| && s.parsed[p].status.ParsedInFlight? && h !in s.handlings
    ensures var s' := ApplyCollector(s, RequeueParsed(p));
      && CollectorEnabled(s', DeliverParsed(p, h)) && s'.handlings == s.handlings
      && var again := ApplyCollector(s', DeliverParsed(p, h));
         && again.parsed == s.parsed[p := ParsedMessage(s.parsed[p].key, s.parsed[p].content, ParsedInFlight(h))]
         && again.handlings == s.handlings[h := Handling(p, Received)]
         && forall g | g in s.handlings && s.handlings[g].message == p :: !CollectorEnabled(again, SettleParsed(g))
  {
  }

  /** A handler that has ended does nothing more, and nothing else has changed; its id is free. */
  lemma EndedAnalysisIsGone(s: State, h: nat)
    requires h in s.analyses
    ensures var s' := ApplyAnalyzer(s, EndAnalysis(h));
      && s'.raw == s.raw && s'.parsed == s.parsed && h !in s'.analyses
      && (forall g | g in s.analyses && g != h :: g in s'.analyses && s'.analyses[g] == s.analyses[g])
  {
  }

  lemma EndedHandlingIsGone(s: State, h: nat)
    requires h in s.handlings
    ensures var s' := ApplyCollector(s, EndHandling(h));
      && s'.parsed == s.parsed && s'.tasks == s.tasks && h !in s'.handlings
      && (forall g | g in s.handlings && g != h :: g in s'.handlings && s'.handlings[g] == s.handlings[g])
  {
  }

  /** Nothing is safe: whatever is under way can fail, be taken away or be given up at any moment. */
  lemma AnythingCanFail(s: State)
    ensures forall t | t in s.syncs ::
      CoreEnabled(s, EndSync(t)) && (s.syncs[t].unseen.Some? ==> CoreEnabled(s, SaveFails(t)))
    ensures forall r: nat | r < |s.raw| && s.raw[r].status.RawInFlight? :: AnalyzerEnabled(s, RequeueRaw(r))
    ensures forall h | h in s.analyses :: AnalyzerEnabled(s, EndAnalysis(h))
    ensures forall h, i | EmailWaiting(s, h, i) :: AnalyzerEnabled(s, EmailFails(h, i))
    ensures forall p: nat | p < |s.parsed| && s.parsed[p].status.ParsedInFlight? ::
      CollectorEnabled(s, RequeueParsed(p))
    ensures forall h | h in s.handlings :: CollectorEnabled(s, EndHandling(h))
    ensures forall h | AtPhase(s, h, Received) || AtPhase(s, h, SawAbsent) :: CollectorEnabled(s, HandlerFails(h))
    ensures forall h | AtPhase(s, h, SawAbsent) && NoTask(s.tasks, MessageOf(s, h).key) ::
      CollectorEnabled(s, InsertTaskUnconfirmed(h))
  {
  }

  // ---------------------------------------------------------------- replays

  /** No handler is between its check and its insert, or has met a conflict. */
  ghost predicate NoConflicts(s: State, dropped: set<nat>) {
    && (forall h | h in s.handlings :: s.handlings[h].phase !in {SawAbsent, HandlerFailed(true)})
    && (forall p: nat | p < |s.parsed| && s.parsed[p].status == ParsedDropped(true) :: p in dropped)
  }

  lemma ReplayStep(s: State, step: Step, dropped: set<nat>)
    requires Enabled(s, step) && NoConflicts(s, dropped)
    requires forall p | 0 <= p < |s.parsed| :: HasTask(s.tasks, s.parsed[p].key)
    ensures NoConflicts(Apply(s, step), dropped)
  {
    match step {
      case Core(c) => CoreFrame(s, c);
      case Analyzer(a) => AnalyzerFrame(s, a);
      case Collector(c) => ReplayHandlers(s, c, dropped);
    }
  }

  lemma ReplayHandlers(s: State, step: CollectorStep, dropped: set<nat>)
    requires CollectorEnabled(s, step) && NoConflicts(s, dropped)
    requires forall p | 0 <= p < |s.parsed| :: HasTask(s.tasks, s.parsed[p].key)
    ensures NoConflicts(ApplyCollector(s, step), dropped)
  {
    if step.CheckTask? {
      CheckFinds(s, step.h);
      var i :| 0 <= i < |s.tasks| && s.tasks[i].key == MessageOf(s, step.h).key;
    }
  }

  /** Replayed messages whose tasks exist meet no conflict: they are dropped only on other errors. */
  lemma {:induction false} ReplaysMeetNoConflict(s: State, steps: seq<Step>, dropped: set<nat>)
    requires Exec(s, steps).Some? && NoDeletes(steps) && OnlyReplays(s, steps) && NoConflicts(s, dropped)
    ensures NoConflicts(Exec(s, steps).value, dropped)
    decreases |steps|
  {
    if steps != [] {
      RunKeepsParsedKeys(s, steps);
      StepWithTasksPresent(s, steps[0]);
      ReplayStep(s, steps[0], dropped);
      ReplaysMeetNoConflict(Apply(s, steps[0]), steps[1..], dropped);
    }
  }

  // ---------------------------------------------------------------- a queued batch can get to its tasks

  /** A run built step by step. */
  ghost predicate Leads(s: State, steps: seq<Step>, end: State) {
    Exec(s, steps) == Some(end)
  }

  lemma NoSteps(s: State) returns (steps: seq<Step>)
    ensures Leads(s, steps, s)
  {
    steps := [];
  }

  lemma Join(s: State, first: seq<Step>, here: State, second: seq<Step>, end: State) returns (steps: seq<Step>)
    requires Leads(s, first, here) && Leads(here, second, end)
    ensures Leads(s, steps, end)
  {
    ExecAppend(s, first, second);
    steps := first + second;
  }

  lemma JoinStep(s: State, first: seq<Step>, here: State, step: Step, end: State) returns (steps: seq<Step>)
    requires Leads(s, first, here) && Enabled(here, step) && Apply(here, step) == end
    ensures Leads(s, steps, end)
  {
    assert Exec(here, [step]) == Exec(end, []);
    steps := Join(s, first, here, [step], end);
  }

  /** The messages for the first `k` emails of a batch. */
  function MessagesFor(batch: seq<Email>, contents: nat -> string, k: nat, status: ParsedStatus): seq<ParsedMessage>
    requires k <= |batch|
  {
    seq(k, i requires 0 <= i < k => ParsedMessage(Key(batch[i].id, batch[i].user), contents(i), status))
  }

  function FatesFor(n: nat, k: nat, base: nat): seq<Fate> {
    seq(n, i requires i >= 0 => if i < k then Published(base + i) else Waiting)
  }

  /** The state when handler `h` has published the first `k` emails of message `r`. */
  function AfterPublishing(s: State, r: nat, h: nat, contents: nat -> string, k: nat): State
    requires r < |s.raw| && k <= |s.raw[r].batch|
  {
    var batch := s.raw[r].batch;
    s.(raw := s.raw[r := RawMessage(batch, RawInFlight(h))],
       analyses := s.analyses[h := Analysis(r, FatesFor(|batch|, k, |s.parsed|))],
       parsed := s.parsed + MessagesFor(batch, contents, k, ParsedQueued))
  }

  lemma PublishOne(s: State, r: nat, h: nat, contents: nat -> string, k: nat)
    requires r < |s.raw| && k < |s.raw[r].batch|
    ensures var here := AfterPublishing(s, r, h, contents, k);
      var step := Analyzer(PublishParsed(h, k, contents(k)));
      Enabled(here, step) && Apply(here, step) == AfterPublishing(s, r, h, contents, k + 1)
  {
    var batch := s.raw[r].batch;
    var base := |s.parsed|;
    assert FatesFor(|batch|, k, base)[k := Published(base + k)] == FatesFor(|batch|, k + 1, base);
    assert MessagesFor(batch, contents, k, ParsedQueued)
      + [ParsedMessage(Key(batch[k].id, batch[k].user), contents(k), ParsedQueued)]
      == MessagesFor(batch, contents, k + 1, ParsedQueued);
  }

  /** The state when message `r` has been acknowledged and every email of it is in the parsed queue. */
  function AfterAck(s: State, r: nat, contents: nat -> string): State
    requires r < |s.raw|
  {
    var batch := s.raw[r].batch;
    s.(raw := s.raw[r := RawMessage(batch, RawAcked(FatesFor(|batch|, |batch|, |s.parsed|)))],
       parsed := s.parsed + MessagesFor(batch, contents, |batch|, ParsedQueued))
  }

  lemma DeliverFirst(s: State, r: nat, h: nat, contents: nat -> string)
    requires r < |s.raw| && s.raw[r].status.RawQueued? && h !in s.analyses
    ensures Apply(s, Analyzer(DeliverRaw(r, h))) == AfterPublishing(s, r, h, contents, 0)
  {
    assert seq(|s.raw[r].batch|, _ => Waiting) == FatesFor(|s.raw[r].batch|, 0, |s.parsed|);
    assert s.parsed + MessagesFor(s.raw[r].batch, contents, 0, ParsedQueued) == s.parsed;
  }

  lemma AckAll(s: State, r: nat, h: nat, contents: nat -> string)
    requires r < |s.raw| && h !in s.analyses
    ensures var here := AfterPublishing(s, r, h, contents, |s.raw[r].batch|);
      Enabled(here, Analyzer(AckRaw(h))) && Apply(here, Analyzer(AckRaw(h))) == AfterAck(s, r, contents)
  {
    var here := AfterPublishing(s, r, h, contents, |s.raw[r].batch|);
    assert here.analyses - {h} == s.analyses;
  }

  lemma {:induction false} BatchIsPublished(s: State, r: nat, h: nat, contents: nat -> string, k: nat)
    returns (steps: seq<Step>)
    requires r < |s.raw| && s.raw[r].status.RawQueued? && h !in s.analyses && k <= |s.raw[r].batch|
    ensures Leads(s, steps, AfterPublishing(s, r, h, contents, k))
  {
    if k == 0 {
      DeliverFirst(s, r, h, contents);
      steps := NoSteps(s);
      steps := JoinStep(s, steps, s, Analyzer(DeliverRaw(r, h)), AfterPublishing(s, r, h, contents, 0));
    } else {
      var step := Analyzer(PublishParsed(h, k - 1, contents(k - 1)));
      steps := BatchIsPublished(s, r, h, contents, k - 1);
      PublishOne(s, r, h, contents, k - 1);
      var here := AfterPublishing(s, r, h, contents, k - 1);
      steps := JoinStep(s, steps, here, step, AfterPublishing(s, r, h, contents, k));
    }
  }

  lemma BatchIsAnalyzed(s: State, r: nat, contents: nat -> string) returns (steps: seq<Step>)
    requires r < |s.raw| && s.raw[r].status.RawQueued?
    ensures Leads(s, steps, AfterAck(s, r, contents))
  {
    var h := UpperBound(s.analyses.Keys);
    var n := |s.raw[r].batch|;
    steps := BatchIsPublished(s, r, h, contents, n);
    AckAll(s, r, h, contents);
    steps := JoinStep(s, steps, AfterPublishing(s, r, h, contents, n), Analyzer(AckRaw(h)), AfterAck(s, r, contents));
  }

  function WithTask(tasks: seq<Task>, m: ParsedMessage): seq<Task> {
    if NoTask(tasks, m.key) then tasks + [Task(m.key, m.content)] else tasks
  }

  /** The state when the queued message `p` has been handled without an error. */
  function AfterHandling(s: State, p: nat): State
    requires p < |s.parsed|
  {
    s.(parsed := s.parsed[p := s.parsed[p].(status := ParsedAcked)], tasks := WithTask(s.tasks, s.parsed[p]))
  }

  /** Handler `h` has message `p` in this phase. */
  function InHand(s: State, p: nat, h: nat, phase: Phase): State
    requires p < |s.parsed|
  {
    s.(parsed := s.parsed[p := s.parsed[p].(status := ParsedInFlight(h))],
       handlings := s.handlings[h := Handling(p, phase)])
  }

  lemma TakesMessage(s: State, p: nat, h: nat)
    requires p < |s.parsed| && s.parsed[p].status.ParsedQueued? && h !in s.handlings
    ensures Apply(s, Collector(DeliverParsed(p, h))) == InHand(s, p, h, Received)
  {
  }

  lemma ChecksMessage(s: State, p: nat, h: nat)
    requires p < |s.parsed|
    ensures Enabled(InHand(s, p, h, Received), Collector(CheckTask(h)))
    ensures Apply(InHand(s, p, h, Received), Collector(CheckTask(h)))
         == InHand(s, p, h, if NoTask(s.tasks, s.parsed[p].key) then SawAbsent else HandlerOk)
  {
    CheckFinds(InHand(s, p, h, Received), h);
  }

  lemma InsertsMessage(s: State, p: nat, h: nat)
    requires p < |s.parsed| && NoTask(s.tasks, s.parsed[p].key)
    ensures Enabled(InHand(s, p, h, SawAbsent), Collector(InsertTask(h)))
    ensures Apply(InHand(s, p, h, SawAbsent), Collector(InsertTask(h)))
         == InHand(s.(tasks := WithTask(s.tasks, s.parsed[p])), p, h, HandlerOk)
  {
    var here := InHand(s, p, h, SawAbsent);
    assert AtPhase(here, h, SawAbsent) && MessageOf(here, h).key == s.parsed[p].key;
    InsertStores(here, h);
    assert here.handlings[h := Handling(p, HandlerOk)] == s.handlings[h := Handling(p, HandlerOk)];
  }

  lemma SettlesMessage(s: State, p: nat, h: nat)
    requires p < |s.parsed| && h !in s.handlings
    ensures Enabled(InHand(s, p, h, HandlerOk), Collector(SettleParsed(h)))
    ensures Apply(InHand(s, p, h, HandlerOk), Collector(SettleParsed(h)))
         == s.(parsed := s.parsed[p := s.parsed[p].(status := ParsedAcked)])
  {
    assert InHand(s, p, h, HandlerOk).handlings - {h} == s.handlings;
  }

  lemma MessageIsHandled(s: State, p: nat) returns (steps: seq<Step>)
    requires p < |s.parsed| && s.parsed[p].status.ParsedQueued?
    ensures Leads(s, steps, AfterHandling(s, p))
  {
    var h := UpperBound(s.handlings.Keys);
    var found := s.(tasks := WithTask(s.tasks, s.parsed[p]));
    TakesMessage(s, p, h);
    steps := NoSteps(s);
    steps := JoinStep(s, steps, s, Collector(DeliverParsed(p, h)), InHand(s, p, h, Received));
    ChecksMessage(s, p, h);
    if NoTask(s.tasks, s.parsed[p].key) {
      steps := JoinStep(s, steps, InHand(s, p, h, Received), Collector(CheckTask(h)), InHand(s, p, h, SawAbsent));
      InsertsMessage(s, p, h);
      steps := JoinStep(s, steps, InHand(s, p, h, SawAbsent), Collector(InsertTask(h)), InHand(found, p, h, HandlerOk));
    } else {
      steps := JoinStep(s, steps, InHand(s, p, h, Received), Collector(CheckTask(h)), InHand(found, p, h, HandlerOk));
    }
    SettlesMessage(found, p, h);
    steps := JoinStep(s, steps, InHand(found, p, h, HandlerOk), Collector(SettleParsed(h)), AfterHandling(s, p));
  }

  /** The tasks when the first `k` messages of a batch have been inserted into `tasks`. */
  function TasksFor(tasks: seq<Task>, batch: seq<Email>, contents: nat -> string, k: nat): seq<Task>
    requires k <= |batch|
  {
    if k == 0 then tasks
    else
      var before := TasksFor(tasks, batch, contents, k - 1);
      var key := Key(batch[k - 1].id, batch[k - 1].user);
      if NoTask(before, key) then before + [Task(key, contents(k - 1))] else before
  }

  /** The state when the first `k` of the new messages have been handled. */
  function AfterInserts(s: State, batch: seq<Email>, contents: nat -> string, k: nat): State
    requires k <= |batch|
  {
    s.(parsed := s.parsed + MessagesFor(batch, contents, k, ParsedAcked)
                 + MessagesFor(batch, contents, |batch|, ParsedQueued)[k..],
       tasks := TasksFor(s.tasks, batch, contents, k))
  }

  lemma HandleOne(s: State, batch: seq<Email>, contents: nat -> string, k: nat)
    requires k < |batch|
    ensures var here := AfterInserts(s, batch, contents, k);
      var p := |s.parsed| + k;
      && p < |here.parsed| && here.parsed[p].status.ParsedQueued?
      && AfterHandling(here, p) == AfterInserts(s, batch, contents, k + 1)
  {
    var here := AfterInserts(s, batch, contents, k);
    var p := |s.parsed| + k;
    var key := Key(batch[k].id, batch[k].user);
    assert here.parsed[p] == ParsedMessage(key, contents(k), ParsedQueued);
    assert here.parsed[p := here.parsed[p].(status := ParsedAcked)] == AfterInserts(s, batch, contents, k + 1).parsed;
  }

  lemma NextIsInserted(s: State, batch: seq<Email>, contents: nat -> string, k: nat) returns (steps: seq<Step>)
    requires k < |batch|
    ensures Leads(AfterInserts(s, batch, contents, k), steps, AfterInserts(s, batch, contents, k + 1))
  {
    HandleOne(s, batch, contents, k);
    steps := MessageIsHandled(AfterInserts(s, batch, contents, k), |s.parsed| + k);
  }

  lemma {:induction false} BatchIsInserted(s: State, batch: seq<Email>, contents: nat -> string, k: nat)
    returns (steps: seq<Step>)
    requires k <= |batch|
    ensures Leads(AfterInserts(s, batch, contents, 0), steps, AfterInserts(s, batch, contents, k))
  {
    if k == 0 {
      steps := NoSteps(AfterInserts(s, batch, contents, 0));
    } else {
      var before := BatchIsInserted(s, batch, contents, k - 1);
      var next := NextIsInserted(s, batch, contents, k - 1);
      steps := Join(AfterInserts(s, batch, contents, 0), before, AfterInserts(s, batch, contents, k - 1), next,
                    AfterInserts(s, batch, contents, k));
    }
  }

  /** Every email of the batch has a task afterwards, and the rows there were stay. */
  lemma {:induction false} TasksForAll(tasks: seq<Task>, batch: seq<Email>, contents: nat -> string, k: nat)
    requires k <= |batch|
    ensures tasks <= TasksFor(tasks, batch, contents, k)
    ensures forall i | 0 <= i < k :: !NoTask(TasksFor(tasks, batch, contents, k), Key(batch[i].id, batch[i].user))
    ensures forall t | t in TasksFor(tasks, batch, contents, k) ::
      t in tasks || exists i: nat :: i < k && t == Task(Key(batch[i].id, batch[i].user), contents(i))
  {
    if k > 0 {
      var before := TasksFor(tasks, batch, contents, k - 1);
      var after := TasksFor(tasks, batch, contents, k);
      TasksForAll(tasks, batch, contents, k - 1);
      forall i | 0 <= i < k ensures !NoTask(after, Key(batch[i].id, batch[i].user)) {
        var key := Key(batch[i].id, batch[i].user);
        if !NoTask(before, key) {
          var j :| 0 <= j < |before| && before[j].key == key;
          assert after[j].key == key;
        } else {
          assert i == k - 1;
          assert after[|before|].key == key;
        }
      }
      forall t | t in after && t !in tasks
        ensures exists i: nat :: i < k && t == Task(Key(batch[i].id, batch[i].user), contents(i))
      {
        if t in before {
          var i: nat :| i < k - 1 && t == Task(Key(batch[i].id, batch[i].user), contents(i));
          assert i < k;
        } else {
          assert t == Task(Key(batch[k - 1].id, batch[k - 1].user), contents(k - 1));
        }
      }
    }
  }

  /** The batch of message `r` has been acknowledged and has become tasks. */
  ghost predicate Finished(s: State, r: nat, contents: nat -> string, end: State)
    requires r < |s.raw|
  {
    var batch := s.raw[r].batch;
    && |end.raw| == |s.raw| && end.raw[r].status.RawAcked?
    && (forall x | 0 <= x < |s.raw| && x != r :: end.raw[x] == s.raw[x])
    && |end.parsed| == |s.parsed| + |batch| && end.parsed[..|s.parsed|] == s.parsed
    && (forall i | 0 <= i < |batch| ::
          end.parsed[|s.parsed| + i] == ParsedMessage(Key(batch[i].id, batch[i].user), contents(i), ParsedAcked))
    && s.tasks <= end.tasks
    && (forall i | 0 <= i < |batch| :: !NoTask(end.tasks, Key(batch[i].id, batch[i].user)))
    && (forall t | t in end.tasks && t !in s.tasks ::
          exists i: nat :: i < |batch| && t == Task(Key(batch[i].id, batch[i].user), contents(i)))
  }

  /**
   In every state, reachable or not, a queued batch can be brought to its tasks: some run
   acknowledges it and a message for each of its emails, adds the tasks that are missing with the
   contents that were published, and changes no other row.
   */
  lemma BatchGetsItsTasks(s: State, r: nat, contents: nat -> string) returns (steps: seq<Step>)
    requires r < |s.raw| && s.raw[r].status.RawQueued?
    ensures Exec(s, steps).Some? && Finished(s, r, contents, Exec(s, steps).value)
  {
    var batch := s.raw[r].batch;
    var mid := AfterAck(s, r, contents).(parsed := s.parsed);
    var end := AfterInserts(mid, batch, contents, |batch|);
    var analyzed := BatchIsAnalyzed(s, r, contents);
    var inserted := BatchIsInserted(mid, batch, contents, |batch|);
    StartsInserting(s, r, contents);
    steps := Join(s, analyzed, AfterAck(s, r, contents), inserted, end);
    EndIsFinished(s, r, contents);
  }

  lemma StartsInserting(s: State, r: nat, contents: nat -> string)
    requires r < |s.raw|
    ensures AfterInserts(AfterAck(s, r, contents).(parsed := s.parsed), s.raw[r].batch, contents, 0)
         == AfterAck(s, r, contents)
  {
    var batch := s.raw[r].batch;
    var queued := MessagesFor(batch, contents, |batch|, ParsedQueued);
    assert s.parsed + MessagesFor(batch, contents, 0, ParsedAcked) + queued[0..] == s.parsed + queued;
  }

  lemma EndIsFinished(s: State, r: nat, contents: nat -> string)
    requires r < |s.raw|
    ensures var mid := AfterAck(s, r, contents).(parsed := s.parsed);
      Finished(s, r, contents, AfterInserts(mid, s.raw[r].batch, contents, |s.raw[r].batch|))
  {
    TasksForAll(s.tasks, s.raw[r].batch, contents, |s.raw[r].batch|);
  }

  // ---------------------------------------------------------------- new messages can get to the raw queue

  /** Batches of seven and what is left over. */
  function Sevens(rows: seq<Email>): seq<seq<Email>> {
    if rows == [] then []
    else if |rows| <= 7 then [rows]
    else [rows[..7]] + Sevens(rows[7..])
  }

  function Queued(batches: seq<seq<Email>>): seq<RawMessage> {
    seq(|batches|, i requires 0 <= i < |batches| => RawMessage(batches[i], RawQueued))
  }

  /** The rows are of this user, and neither their ids nor their messages are in the table or among each other. */
  ghost predicate NewRows(saved: map<Id, Email>, user: Id, rows: seq<Email>) {
    && (forall i | 0 <= i < |rows| :: rows[i].user == user && rows[i].id !in saved)
    && (forall i | 0 <= i < |rows| :: !EmailSaved(saved, user, rows[i].messageId))
    && (forall i, j | 0 <= i < j < |rows| :: rows[i].id != rows[j].id && rows[i].messageId != rows[j].messageId)
  }

  /** Thread `t` is between two messages. */
  predicate ReadyFor(s: State, t: nat, user: Id, pending: seq<Email>) {
    t in s.syncs && s.syncs[t] == Sync(user, None, pending) && |pending| < 7
  }

  /** A message whose row cannot be saved is skipped, and the sync goes on with its batch. */
  lemma FailedSaveIsSkipped(s: State, t: nat)
    requires CoreEnabled(s, SaveFails(t))
    ensures var s' := ApplyCore(s, SaveFails(t));
      s' == s.(syncs := s'.syncs) && s'.syncs == s.syncs[t := Sync(s.syncs[t].user, None, s.syncs[t].pending)]
  {
  }

  /** One new message: checked, saved, and the batch published when it is full. */
  lemma OneNewRow(s: State, t: nat, pending: seq<Email>, row: Email) returns (steps: seq<Step>, end: State)
    requires ReadyFor(s, t, row.user, pending) && row.id !in s.saved && !EmailSaved(s.saved, row.user, row.messageId)
    ensures Leads(s, steps, end) && end.saved == s.saved[row.id := row]
    ensures end.syncs.Keys == s.syncs.Keys && forall u | u in s.syncs && u != t :: end.syncs[u] == s.syncs[u]
    ensures if |pending| == 6
      then ReadyFor(end, t, row.user, []) && end.raw == s.raw + [RawMessage(pending + [row], RawQueued)]
      else ReadyFor(end, t, row.user, pending + [row]) && end.raw == s.raw
  {
    var checked := Apply(s, Core(CheckUnseen(t, row.messageId)));
    var stored := Apply(checked, Core(Save(t, row.id)));
    steps := NoSteps(s);
    steps := JoinStep(s, steps, s, Core(CheckUnseen(t, row.messageId)), checked);
    steps := JoinStep(s, steps, checked, Core(Save(t, row.id)), stored);
    end := stored;
    assert stored.syncs[t] == Sync(row.user, None, pending + [row]);
    if |pending| == 6 {
      end := Apply(stored, Core(PublishFull(t)));
      steps := JoinStep(s, steps, stored, Core(PublishFull(t)), end);
    }
  }

  lemma NewRowsRest(saved: map<Id, Email>, user: Id, rows: seq<Email>)
    requires rows != [] && NewRows(saved, user, rows)
    ensures NewRows(saved[rows[0].id := rows[0]], user, rows[1..])
  {
    var after := saved[rows[0].id := rows[0]];
    forall i | 0 <= i < |rows[1..]| ensures !EmailSaved(after, user, rows[1..][i].messageId) {
      assert rows[1..][i] == rows[i + 1];
      assert !EmailSaved(saved, user, rows[i + 1].messageId);
    }
  }

  lemma LastBatch(s: State, t: nat, user: Id, pending: seq<Email>) returns (steps: seq<Step>, end: State)
    requires ReadyFor(s, t, user, pending)
    ensures Leads(s, steps, end) && end.saved == s.saved && end.raw == s.raw + Queued(Sevens(pending))
    ensures end.syncs == s.syncs - {t}
  {
    var step := if pending == [] then Core(EndSync(t)) else Core(PublishRest(t));
    end := Apply(s, step);
    steps := NoSteps(s);
    steps := JoinStep(s, steps, s, step, end);
    assert Queued([pending]) == [RawMessage(pending, RawQueued)];
  }

  /** The table has the rows in addition. */
  ghost predicate SavedToo(before: map<Id, Email>, after: map<Id, Email>, rows: seq<Email>) {
    && after.Keys == before.Keys + (set r | r in rows :: r.id)
    && (forall id | id in before :: after[id] == before[id])
    && forall r | r in rows :: r.id in after && after[r.id] == r
  }

  /** The sync of thread `t` has ended, after queueing its batch and the rows. */
  ghost predicate GotQueued(s: State, end: State, t: nat, pending: seq<Email>, rows: seq<Email>) {
    && end.raw == s.raw + Queued(Sevens(pending + rows)) && end.syncs == s.syncs - {t}
    && SavedToo(s.saved, end.saved, rows)
  }

  lemma {:induction false} RowsArePublished(s: State, t: nat, user: Id, pending: seq<Email>, rows: seq<Email>)
    returns (steps: seq<Step>, end: State)
    requires ReadyFor(s, t, user, pending) && NewRows(s.saved, user, rows)
    ensures Leads(s, steps, end) && GotQueued(s, end, t, pending, rows)
    decreases |rows|
  {
    if rows == [] {
      assert pending + rows == pending;
      steps, end := LastBatch(s, t, user, pending);
    } else {
      var mid, rest;
      steps, mid := OneNewRow(s, t, pending, rows[0]);
      NewRowsRest(s.saved, user, rows);
      rest, end := RowsArePublished(mid, t, user, if |pending| == 6 then [] else pending + [rows[0]], rows[1..]);
      QueuedAfterOne(s, mid, end, t, pending, rows);
      steps := Join(s, steps, mid, rest, end);
    }
  }

  lemma QueuedAfterOne(s: State, mid: State, end: State, t: nat, pending: seq<Email>, rows: seq<Email>)
    requires rows != [] && |pending| < 7 && rows[0].id !in s.saved
    requires mid.saved == s.saved[rows[0].id := rows[0]]
    requires mid.syncs.Keys == s.syncs.Keys && forall u | u in s.syncs && u != t :: mid.syncs[u] == s.syncs[u]
    requires mid.raw == if |pending| == 6 then s.raw + [RawMessage(pending + [rows[0]], RawQueued)] else s.raw
    requires GotQueued(mid, end, t, if |pending| == 6 then [] else pending + [rows[0]], rows[1..])
    ensures GotQueued(s, end, t, pending, rows)
  {
    if |pending| == 6 {
      FullBatchFirst(pending, rows);
    } else {
      assert pending + rows == (pending + [rows[0]]) + rows[1..];
    }
    assert mid.syncs - {t} == s.syncs - {t};
    SavedRows(s.saved, end.saved, rows);
  }

  lemma SavedRows(before: map<Id, Email>, after: map<Id, Email>, rows: seq<Email>)
    requires rows != [] && rows[0].id !in before && SavedToo(before[rows[0].id := rows[0]], after, rows[1..])
    ensures SavedToo(before, after, rows)
  {
    assert rows == [rows[0]] + rows[1..];
    assert after[rows[0].id] == rows[0];
    forall r | r in rows ensures r.id in after && after[r.id] == r {
      if r !in rows[1..] { assert r == rows[0]; }
    }
  }

  lemma FullBatchFirst(pending: seq<Email>, rows: seq<Email>)
    requires |pending| == 6 && rows != []
    ensures [RawMessage(pending + [rows[0]], RawQueued)] + Queued(Sevens([] + rows[1..]))
         == Queued(Sevens(pending + rows))
  {
    var all := pending + rows;
    assert all[..7] == pending + [rows[0]] && all[7..] == rows[1..] && [] + rows[1..] == rows[1..];
    if |all| == 7 {
      assert Sevens(all) == [all] && all == all[..7] && rows[1..] == [];
    }
  }

  /**
   In every state in which a sync of the user may start, any number of new messages can get to the
   raw queue: some run saves a row for each and queues them, in order, in batches of seven.
   */
  lemma NewMessagesGetQueued(s: State, t: nat, user: Id, rows: seq<Email>) returns (steps: seq<Step>, end: State)
    requires CoreEnabled(s, StartSync(t, user)) && NewRows(s.saved, user, rows)
    ensures Exec(s, steps) == Some(end)
    ensures end.raw == s.raw + Queued(Sevens(rows)) && end.syncs == s.syncs && SavedToo(s.saved, end.saved, rows)
  {
    var started := StartedSync(s, t, user);
    steps := NoSteps(s);
    steps := JoinStep(s, steps, s, Core(StartSync(t, user)), started);
    var rest;
    rest, end := RowsArePublished(started, t, user, [], rows);
    assert [] + rows == rows;
    steps := Join(s, steps, started, rest, end);
    assert Leads(s, steps, end);
  }

  lemma StartedSync(s: State, t: nat, user: Id) returns (started: State)
    requires CoreEnabled(s, StartSync(t, user))
    ensures started == Apply(s, Core(StartSync(t, user))) && ReadyFor(started, t, user, [])
    ensures started.raw == s.raw && started.saved == s.saved && started.syncs - {t} == s.syncs
  {
    started := Apply(s, Core(StartSync(t, user)));
    assert started.syncs - {t} == s.syncs;
  }
}
