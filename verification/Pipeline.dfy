/**
 The path of an email from a mailbox to a row of `tasks`, as a system of atomic steps:
 sync threads of the core service, the raw queue, the analyzer's deliveries, the parsed
 queue and the collector's deliveries. Any number of sync threads, analyzer handlers
 and collector handlers are active at once and their steps interleave freely; every
 call that can fail may fail. The broker may requeue a delivery at any moment, and the
 handler it had then goes on beside the handlers of later deliveries of the same message.
 */
module Pipeline {
  import opened Prelude

  const MAX_BATCH: nat := 7

  type Id = nat

  /** A row of `emails_raw`, which is also what the raw queue carries. */
  datatype Email = Email(id: Id, user: Id, messageId: string)

  /** The columns of the unique index of `tasks`. */
  datatype Key = Key(emailId: Id, user: Id)

  datatype Task = Task(key: Key, content: string)

  /** One running `SyncIntegration`: `unseen` is a message whose existence check came back false. */
  datatype Sync = Sync(user: Id, unseen: Option<string>, pending: seq<Email>)

  /** What has happened to one email of a raw delivery; `at` is its message in the parsed queue. */
  datatype Fate = Waiting | Published(at: nat) | Errored

  /** One running `ConvertEmail`. */
  datatype Analysis = Analysis(message: nat, fates: seq<Fate>)

  /** In flight, a message belongs to the handler of its last delivery; `fates` is what an acked one left behind. */
  datatype RawStatus = RawQueued | RawInFlight(handler: nat) | RawAcked(fates: seq<Fate>)
  datatype RawMessage = RawMessage(batch: seq<Email>, status: RawStatus)

  /** `HandlerFailed(true)` is the unique violation, `HandlerFailed(false)` any other error. */
  datatype Phase = Received | SawAbsent | HandlerOk | HandlerFailed(conflict: bool)

  /** One running `HandleEmailMessage`, or the settling after it. */
  datatype Handling = Handling(message: nat, phase: Phase)
  datatype ParsedStatus = ParsedQueued | ParsedInFlight(handler: nat) | ParsedAcked | ParsedDropped(conflict: bool)
  datatype ParsedMessage = ParsedMessage(key: Key, content: string, status: ParsedStatus)

  /** Where the one copy of a saved email is: history, read by no step. */
  datatype Home = Pending(thread: nat, index: nat) | InBatch(message: nat, index: nat) | Stranded

  /** `exclusive` says that syncs of one user never overlap; `deleted` is history as well. */
  datatype State = State(
    exclusive: bool,
    saved: map<Id, Email>,
    syncs: map<nat, Sync>,
    home: map<Id, Home>,
    raw: seq<RawMessage>,
    analyses: map<nat, Analysis>,
    parsed: seq<ParsedMessage>,
    handlings: map<nat, Handling>,
    tasks: seq<Task>,
    deleted: set<Key>)

  datatype CoreStep =
    | StartSync(thread: nat, user: Id)
    | CheckUnseen(thread: nat, messageId: string)
    | Save(thread: nat, id: Id)
    | SaveFails(thread: nat)
    | PublishFull(thread: nat)
    | PublishRest(thread: nat)
    | EndSync(thread: nat)

  datatype AnalyzerStep =
    | DeliverRaw(r: nat, h: nat)
    | PublishParsed(h: nat, i: nat, content: string)
    | EmailFails(h: nat, i: nat)
    | AckRaw(h: nat)
    | RequeueRaw(r: nat)
    | EndAnalysis(h: nat)

  datatype CollectorStep =
    | DeliverParsed(p: nat, h: nat)
    | CheckTask(h: nat)
    | HandlerFails(h: nat)
    | InsertTask(h: nat)
    | InsertTaskUnconfirmed(h: nat)
    | SettleParsed(h: nat)
    | RequeueParsed(p: nat)
    | EndHandling(h: nat)
    | DeleteTask(t: nat)

  datatype Step = Core(core: CoreStep) | Analyzer(analyzer: AnalyzerStep) | Collector(collector: CollectorStep)

  function Init(exclusive: bool): State {
    State(exclusive, map[], map[], map[], [], map[], [], map[], [], {})
  }

  function KeyOf(e: Email): Key {
    Key(e.id, e.user)
  }

  function TaskOf(m: ParsedMessage): Task {
    Task(m.key, m.content)
  }

  predicate EmailSaved(saved: map<Id, Email>, user: Id, messageId: string) {
    exists id | id in saved :: saved[id].user == user && saved[id].messageId == messageId
  }

  predicate HasTask(tasks: seq<Task>, key: Key) {
    exists i | 0 <= i < |tasks| :: tasks[i].key == key
  }

  predicate Analyzing(s: State, h: nat) {
    h in s.analyses && s.analyses[h].message < |s.raw|
  }

  /** The broker takes an ack or nack of this handler. */
  predicate OwnsRaw(s: State, h: nat) {
    Analyzing(s, h) && s.raw[s.analyses[h].message].status == RawInFlight(h)
  }

  predicate EmailWaiting(s: State, h: nat, i: nat) {
    Analyzing(s, h) && i < |s.analyses[h].fates| && i < |s.raw[s.analyses[h].message].batch|
    && s.analyses[h].fates[i] == Waiting
  }

  predicate AllPublished(fates: seq<Fate>) {
    forall i | 0 <= i < |fates| :: fates[i].Published?
  }

  predicate AtPhase(s: State, h: nat, phase: Phase) {
    h in s.handlings && s.handlings[h].message < |s.parsed| && s.handlings[h].phase == phase
  }

  predicate OwnsParsed(s: State, h: nat) {
    h in s.handlings && s.handlings[h].message < |s.parsed|
    && s.parsed[s.handlings[h].message].status == ParsedInFlight(h)
  }

  function KeyAt(s: State, h: nat): Key
    requires h in s.handlings && s.handlings[h].message < |s.parsed|
  {
    s.parsed[s.handlings[h].message].key
  }

  predicate CoreEnabled(s: State, step: CoreStep) {
    match step
    case StartSync(t, user) =>
      t !in s.syncs && (s.exclusive ==> forall u | u in s.syncs :: s.syncs[u].user != user)
    case CheckUnseen(t, m) =>
      t in s.syncs && s.syncs[t].unseen == None && |s.syncs[t].pending| < MAX_BATCH
      && !EmailSaved(s.saved, s.syncs[t].user, m)
    case Save(t, id) =>
      t in s.syncs && s.syncs[t].unseen.Some? && id !in s.saved
    case SaveFails(t) =>
      t in s.syncs && s.syncs[t].unseen.Some?
    case PublishFull(t) =>
      t in s.syncs && s.syncs[t].unseen == None && |s.syncs[t].pending| == MAX_BATCH
    case PublishRest(t) =>
      t in s.syncs && s.syncs[t].unseen == None && 0 < |s.syncs[t].pending| < MAX_BATCH
    case EndSync(t) => t in s.syncs
  }

  predicate AnalyzerEnabled(s: State, step: AnalyzerStep) {
    match step
    case DeliverRaw(r, h) => r < |s.raw| && s.raw[r].status.RawQueued? && h !in s.analyses
    case PublishParsed(h, i, _) => EmailWaiting(s, h, i)
    case EmailFails(h, i) => EmailWaiting(s, h, i)
    case AckRaw(h) => OwnsRaw(s, h) && AllPublished(s.analyses[h].fates)
    case RequeueRaw(r) => r < |s.raw| && s.raw[r].status.RawInFlight?
    case EndAnalysis(h) => h in s.analyses
  }

  predicate CollectorEnabled(s: State, step: CollectorStep) {
    match step
    case DeliverParsed(p, h) => p < |s.parsed| && s.parsed[p].status.ParsedQueued? && h !in s.handlings
    case CheckTask(h) => AtPhase(s, h, Received)
    case HandlerFails(h) => AtPhase(s, h, Received) || AtPhase(s, h, SawAbsent)
    case InsertTask(h) => AtPhase(s, h, SawAbsent)
    case InsertTaskUnconfirmed(h) => AtPhase(s, h, SawAbsent) && !HasTask(s.tasks, KeyAt(s, h))
    case SettleParsed(h) =>
      OwnsParsed(s, h) && (s.handlings[h].phase.HandlerOk? || s.handlings[h].phase.HandlerFailed?)
    case RequeueParsed(p) => p < |s.parsed| && s.parsed[p].status.ParsedInFlight?
    case EndHandling(h) => h in s.handlings
    case DeleteTask(t) => t < |s.tasks|
  }

  predicate Enabled(s: State, step: Step) {
    match step
    case Core(c) => CoreEnabled(s, c)
    case Analyzer(a) => AnalyzerEnabled(s, a)
    case Collector(c) => CollectorEnabled(s, c)
  }

  function Enqueue(s: State, t: nat): State
    requires t in s.syncs
  {
    s.(raw := s.raw + [RawMessage(s.syncs[t].pending, RawQueued)],
       home := map id | id in s.home ::
         match s.home[id]
         case Pending(u, i) => if u == t then InBatch(|s.raw|, i) else s.home[id]
         case _ => s.home[id])
  }

  function WithRawStatus(s: State, r: nat, status: RawStatus): State
    requires r < |s.raw|
  {
    s.(raw := s.raw[r := s.raw[r].(status := status)])
  }

  function WithFate(s: State, h: nat, i: nat, fate: Fate): State
    requires h in s.analyses && i < |s.analyses[h].fates|
  {
    s.(analyses := s.analyses[h := s.analyses[h].(fates := s.analyses[h].fates[i := fate])])
  }

  function WithParsedStatus(s: State, p: nat, status: ParsedStatus): State
    requires p < |s.parsed|
  {
    s.(parsed := s.parsed[p := s.parsed[p].(status := status)])
  }

  function WithPhase(s: State, h: nat, phase: Phase): State
    requires h in s.handlings
  {
    s.(handlings := s.handlings[h := s.handlings[h].(phase := phase)])
  }

  function ApplyCore(s: State, step: CoreStep): State
    requires CoreEnabled(s, step)
  {
    match step
    case StartSync(t, user) => s.(syncs := s.syncs[t := Sync(user, None, [])])
    case CheckUnseen(t, m) => s.(syncs := s.syncs[t := s.syncs[t].(unseen := Some(m))])
    case Save(t, id) =>
      var sync := s.syncs[t];
      var row := Email(id, sync.user, sync.unseen.value);
      s.(saved := s.saved[id := row],
         home := s.home[id := Pending(t, |sync.pending|)],
         syncs := s.syncs[t := sync.(unseen := None, pending := sync.pending + [row])])
    case SaveFails(t) => s.(syncs := s.syncs[t := s.syncs[t].(unseen := None)])
    case PublishFull(t) => Enqueue(s, t).(syncs := s.syncs[t := s.syncs[t].(pending := [])])
    case PublishRest(t) => Enqueue(s, t).(syncs := s.syncs - {t})
    case EndSync(t) =>
      s.(syncs := s.syncs - {t},
         home := map id | id in s.home ::
           match s.home[id]
           case Pending(u, _) => if u == t then Stranded else s.home[id]
           case _ => s.home[id])
  }

  /** An ack of the handler settles its message; a nack is `RequeueRaw` and `EndAnalysis`. */
  function ApplyAnalyzer(s: State, step: AnalyzerStep): State
    requires AnalyzerEnabled(s, step)
  {
    match step
    case DeliverRaw(r, h) =>
      WithRawStatus(s, r, RawInFlight(h))
        .(analyses := s.analyses[h := Analysis(r, seq(|s.raw[r].batch|, _ => Waiting))])
    case PublishParsed(h, i, content) =>
      WithFate(s, h, i, Published(|s.parsed|))
        .(parsed := s.parsed + [ParsedMessage(KeyOf(s.raw[s.analyses[h].message].batch[i]), content, ParsedQueued)])
    case EmailFails(h, i) => WithFate(s, h, i, Errored)
    case AckRaw(h) =>
      WithRawStatus(s, s.analyses[h].message, RawAcked(s.analyses[h].fates)).(analyses := s.analyses - {h})
    case RequeueRaw(r) => WithRawStatus(s, r, RawQueued)
    case EndAnalysis(h) => s.(analyses := s.analyses - {h})
  }

  function ApplyCollector(s: State, step: CollectorStep): State
    requires CollectorEnabled(s, step)
  {
    match step
    case DeliverParsed(p, h) =>
      WithParsedStatus(s, p, ParsedInFlight(h)).(handlings := s.handlings[h := Handling(p, Received)])
    case CheckTask(h) => WithPhase(s, h, if HasTask(s.tasks, KeyAt(s, h)) then HandlerOk else SawAbsent)
    case HandlerFails(h) => WithPhase(s, h, HandlerFailed(false))
    case InsertTask(h) =>
      if HasTask(s.tasks, KeyAt(s, h)) then
        WithPhase(s, h, HandlerFailed(true))
      else
        WithPhase(s, h, HandlerOk).(tasks := s.tasks + [TaskOf(s.parsed[s.handlings[h].message])])
    case InsertTaskUnconfirmed(h) =>
      WithPhase(s, h, HandlerFailed(false)).(tasks := s.tasks + [TaskOf(s.parsed[s.handlings[h].message])])
    case SettleParsed(h) =>
      var status := match s.handlings[h].phase
        case HandlerFailed(conflict) => ParsedDropped(conflict)
        case _ => ParsedAcked;
      WithParsedStatus(s, s.handlings[h].message, status).(handlings := s.handlings - {h})
    case RequeueParsed(p) => WithParsedStatus(s, p, ParsedQueued)
    case EndHandling(h) => s.(handlings := s.handlings - {h})
    case DeleteTask(t) =>
      s.(tasks := s.tasks[..t] + s.tasks[t + 1..], deleted := s.deleted + {s.tasks[t].key})
  }

  function Apply(s: State, step: Step): State
    requires Enabled(s, step)
  {
    match step
    case Core(c) => ApplyCore(s, c)
    case Analyzer(a) => ApplyAnalyzer(s, a)
    case Collector(c) => ApplyCollector(s, c)
  }

  /** Runs a schedule; `None` when one of its steps is not possible. */
  function Exec(s: State, steps: seq<Step>): Option<State>
    decreases |steps|
  {
    if steps == [] then Some(s)
    else if Enabled(s, steps[0]) then Exec(Apply(s, steps[0]), steps[1..])
    else None
  }

  // ---------------------------------------------------------------- invariants

  /** Every saved email is in exactly one place, and every place holds only saved emails. */
  ghost predicate HomeInv(s: State) {
    && s.home.Keys == s.saved.Keys
    && (forall id | id in s.saved :: s.saved[id].id == id && HomeHolds(s, id))
    && (forall t, i | t in s.syncs && 0 <= i < |s.syncs[t].pending| :: PendingHome(s, t, i))
    && (forall r, i | 0 <= r < |s.raw| && 0 <= i < |s.raw[r].batch| :: BatchHome(s, r, i))
    && (forall t | t in s.syncs :: |s.syncs[t].pending| <= MAX_BATCH
          && (s.syncs[t].unseen.Some? ==> |s.syncs[t].pending| < MAX_BATCH))
    && (forall r | 0 <= r < |s.raw| :: 0 < |s.raw[r].batch| <= MAX_BATCH)
  }

  ghost predicate HomeHolds(s: State, id: Id)
    requires id in s.saved && id in s.home
  {
    match s.home[id]
    case Pending(t, i) => t in s.syncs && i < |s.syncs[t].pending| && s.syncs[t].pending[i] == s.saved[id]
    case InBatch(r, i) => r < |s.raw| && i < |s.raw[r].batch| && s.raw[r].batch[i] == s.saved[id]
    case Stranded => true
  }

  ghost predicate PendingHome(s: State, t: nat, i: nat)
    requires t in s.syncs && i < |s.syncs[t].pending|
  {
    var e := s.syncs[t].pending[i];
    e.id in s.saved && s.saved[e.id] == e && e.id in s.home && s.home[e.id] == Pending(t, i)
  }

  ghost predicate BatchHome(s: State, r: nat, i: nat)
    requires r < |s.raw| && i < |s.raw[r].batch|
  {
    var e := s.raw[r].batch[i];
    e.id in s.saved && s.saved[e.id] == e && e.id in s.home && s.home[e.id] == InBatch(r, i)
  }

  /** Without overlapping syncs of one user, an existence check is still true when the row is saved. */
  ghost predicate ExclusiveInv(s: State) {
    s.exclusive ==>
      && (forall t, u | t in s.syncs && u in s.syncs && s.syncs[t].user == s.syncs[u].user :: t == u)
      && (forall t | t in s.syncs && s.syncs[t].unseen.Some? ::
            !EmailSaved(s.saved, s.syncs[t].user, s.syncs[t].unseen.value))
      && MessagesSavedOnce(s)
  }

  ghost predicate MessagesSavedOnce(s: State) {
    forall a, b | a in s.saved && b in s.saved && s.saved[a].user == s.saved[b].user
                  && s.saved[a].messageId == s.saved[b].messageId :: a == b
  }

  ghost predicate FateInv(s: State) {
    && (forall h | h in s.analyses :: AnalysisHolds(s, s.analyses[h]))
    && (forall r | 0 <= r < |s.raw| :: RawMessageHolds(s.raw[r], s.parsed))
  }

  ghost predicate AnalysisHolds(s: State, a: Analysis) {
    a.message < |s.raw| && FatesHold(a.fates, s.raw[a.message].batch, s.parsed)
  }

  ghost predicate RawMessageHolds(m: RawMessage, parsed: seq<ParsedMessage>) {
    m.status.RawAcked? ==> FatesHold(m.status.fates, m.batch, parsed) && AllPublished(m.status.fates)
  }

  /** Every published email of the batch has its message in the parsed queue. */
  ghost predicate FatesHold(fates: seq<Fate>, batch: seq<Email>, parsed: seq<ParsedMessage>) {
    |fates| == |batch| && forall i | 0 <= i < |batch| :: FateHolds(fates[i], batch[i], parsed)
  }

  ghost predicate FateHolds(fate: Fate, e: Email, parsed: seq<ParsedMessage>) {
    fate.Published? ==> fate.at < |parsed| && parsed[fate.at].key == KeyOf(e)
  }

  /** The key is that of a saved row which has reached the raw queue. */
  ghost predicate KeyPublished(s: State, key: Key) {
    key.emailId in s.saved && KeyOf(s.saved[key.emailId]) == key
    && key.emailId in s.home && s.home[key.emailId].InBatch?
  }

  predicate Settled(status: ParsedStatus) {
    status in {ParsedAcked, ParsedDropped(true)}
  }

  predicate Decided(phase: Phase) {
    phase in {HandlerOk, HandlerFailed(true)}
  }

  /** The task of the key is in the table, or a user has deleted it. */
  ghost predicate Done(s: State, key: Key) {
    HasTask(s.tasks, key) || key in s.deleted
  }

  ghost predicate TaskInv(s: State) {
    && RowsOnce(s.tasks)
    && (forall i | 0 <= i < |s.tasks| :: KeyPublished(s, s.tasks[i].key))
    && (forall p | 0 <= p < |s.parsed| :: KeyPublished(s, s.parsed[p].key))
    && (forall p | 0 <= p < |s.parsed| && Settled(s.parsed[p].status) :: Done(s, s.parsed[p].key))
    && (forall h | h in s.handlings :: HandlingHolds(s, s.handlings[h]))
  }

  ghost predicate HandlingHolds(s: State, a: Handling) {
    a.message < |s.parsed| && (Decided(a.phase) ==> Done(s, s.parsed[a.message].key))
  }

  ghost predicate Inv(s: State) {
    HomeInv(s) && ExclusiveInv(s) && FateInv(s) && TaskInv(s)
  }

  /** HomeInv looks only at saved rows, pending batches and the batches of raw messages. */
  lemma HomeFrame(s: State, s': State)
    requires HomeInv(s)
    requires s'.saved == s.saved && s'.home == s.home
    requires s'.syncs.Keys >= s.syncs.Keys
    requires forall t | t in s.syncs :: s'.syncs[t].pending == s.syncs[t].pending
    requires forall t | t in s'.syncs && t !in s.syncs :: s'.syncs[t].pending == []
    requires forall t | t in s'.syncs && s'.syncs[t].unseen.Some? :: |s'.syncs[t].pending| < MAX_BATCH
    requires |s'.raw| == |s.raw| && forall r | 0 <= r < |s.raw| :: s'.raw[r].batch == s.raw[r].batch
    ensures HomeInv(s')
  {
    forall x | x in s'.saved ensures HomeHolds(s', x) {
      assert HomeHolds(s, x);
    }
    forall u, i | u in s'.syncs && 0 <= i < |s'.syncs[u].pending| ensures PendingHome(s', u, i) {
      assert PendingHome(s, u, i);
    }
    forall r, i | 0 <= r < |s'.raw| && 0 <= i < |s'.raw[r].batch| ensures BatchHome(s', r, i) {
      assert BatchHome(s, r, i);
    }
  }

  lemma HomeSave(s: State, t: nat, id: Id)
    requires Inv(s) && CoreEnabled(s, Save(t, id)) && |s.syncs[t].pending| < MAX_BATCH
    ensures HomeInv(ApplyCore(s, Save(t, id)))
  {
    var s' := ApplyCore(s, Save(t, id));
    forall x | x in s'.saved ensures HomeHolds(s', x) {
      if x != id { assert HomeHolds(s, x); }
    }
    forall u, i | u in s'.syncs && 0 <= i < |s'.syncs[u].pending| ensures PendingHome(s', u, i) {
      if i < |s.syncs[u].pending| { assert PendingHome(s, u, i); }
    }
    forall r, i | 0 <= r < |s'.raw| && 0 <= i < |s'.raw[r].batch| ensures BatchHome(s', r, i) {
      assert BatchHome(s, r, i);
    }
  }

  lemma HomePublish(s: State, t: nat)
    requires Inv(s) && t in s.syncs && s.syncs[t].pending != []
    ensures HomeInv(Enqueue(s, t).(syncs := s.syncs - {t}))
  {
    var s' := Enqueue(s, t).(syncs := s.syncs - {t});
    forall x | x in s.saved ensures HomeHolds(s', x) {
      assert HomeHolds(s, x);
    }
    forall u, i | u in s'.syncs && 0 <= i < |s'.syncs[u].pending| ensures PendingHome(s', u, i) {
      assert PendingHome(s, u, i);
    }
    forall r, i | 0 <= r < |s'.raw| && 0 <= i < |s'.raw[r].batch| ensures BatchHome(s', r, i) {
      if r < |s.raw| { assert BatchHome(s, r, i); } else { assert PendingHome(s, t, i); }
    }
  }

  lemma HomeEnd(s: State, t: nat)
    requires Inv(s) && t in s.syncs
    ensures HomeInv(ApplyCore(s, EndSync(t)))
  {
    var s' := ApplyCore(s, EndSync(t));
    forall x | x in s'.saved ensures HomeHolds(s', x) {
      assert HomeHolds(s, x);
    }
    forall u, i | u in s'.syncs && 0 <= i < |s'.syncs[u].pending| ensures PendingHome(s', u, i) {
      assert PendingHome(s, u, i);
    }
    forall r, i | 0 <= r < |s'.raw| && 0 <= i < |s'.raw[r].batch| ensures BatchHome(s', r, i) {
      assert BatchHome(s, r, i);
    }
  }

  lemma HomeCore(s: State, step: CoreStep)
    requires Inv(s) && CoreEnabled(s, step)
    ensures HomeInv(ApplyCore(s, step))
  {
    match step {
      case Save(t, id) => HomeSave(s, t, id);
      case PublishFull(t) =>
        HomePublish(s, t);
        HomeFrame(Enqueue(s, t).(syncs := s.syncs - {t}), ApplyCore(s, step));
      case PublishRest(t) => HomePublish(s, t);
      case EndSync(t) => HomeEnd(s, t);
      case _ => HomeIdle(s, step);
    }
  }

  /** Steps that leave the saved rows and the batches alone. */
  lemma HomeIdle(s: State, step: CoreStep)
    requires HomeInv(s) && CoreEnabled(s, step) && (step.StartSync? || step.CheckUnseen? || step.SaveFails?)
    ensures HomeInv(ApplyCore(s, step))
  {
    HomeFrame(s, ApplyCore(s, step));
  }

  lemma ExclusiveSave(s: State, t: nat, id: Id)
    requires Inv(s) && s.exclusive && CoreEnabled(s, Save(t, id))
    ensures ExclusiveInv(ApplyCore(s, Save(t, id)))
  {
    var row := ApplyCore(s, Save(t, id)).saved[id];
    forall a | a in s.saved && s.saved[a].user == row.user && s.saved[a].messageId == row.messageId
      ensures false
    {
      assert EmailSaved(s.saved, row.user, row.messageId);
    }
  }

  lemma ExclusiveCore(s: State, step: CoreStep)
    requires Inv(s) && CoreEnabled(s, step)
    ensures ExclusiveInv(ApplyCore(s, step))
  {
    if s.exclusive && step.Save? {
      ExclusiveSave(s, step.thread, step.id);
    }
  }

  /** A published key stays published: the core service only adds rows and messages. */
  lemma KeyPublishedKept(s: State, step: CoreStep, key: Key)
    requires CoreEnabled(s, step) && KeyPublished(s, key)
    ensures KeyPublished(ApplyCore(s, step), key)
  {
  }

  lemma CoreFrame(s: State, step: CoreStep)
    requires CoreEnabled(s, step)
    ensures var s' := ApplyCore(s, step);
      && s'.parsed == s.parsed && s'.tasks == s.tasks && s'.deleted == s.deleted
      && s'.analyses == s.analyses && s'.handlings == s.handlings && s'.exclusive == s.exclusive
      && s.raw <= s'.raw
      && forall r | |s.raw| <= r < |s'.raw| :: s'.raw[r].status == RawQueued
  {
  }

  lemma CoreKeepsInv(s: State, step: CoreStep)
    requires Inv(s) && CoreEnabled(s, step)
    ensures Inv(ApplyCore(s, step))
  {
    var s' := ApplyCore(s, step);
    HomeCore(s, step);
    ExclusiveCore(s, step);
    CoreFrame(s, step);
    forall key | KeyPublished(s, key) ensures KeyPublished(s', key) {
      KeyPublishedKept(s, step, key);
    }
    forall h | h in s'.analyses ensures AnalysisHolds(s', s'.analyses[h]) {
      assert AnalysisHolds(s, s.analyses[h]);
    }
    forall r | 0 <= r < |s'.raw| ensures RawMessageHolds(s'.raw[r], s'.parsed) {
      if r < |s.raw| { assert RawMessageHolds(s.raw[r], s.parsed); }
    }
    TaskInvFrame(s, s');
  }

  /** TaskInv looks at the queue, the handlers and the table; what is published or done may grow. */
  lemma TaskInvFrame(s: State, s': State)
    requires TaskInv(s)
    requires s'.parsed == s.parsed && s'.handlings == s.handlings && s'.tasks == s.tasks && s'.deleted == s.deleted
    requires forall key | KeyPublished(s, key) :: KeyPublished(s', key)
    ensures TaskInv(s')
  {
    forall p | 0 <= p < |s'.parsed| && Settled(s'.parsed[p].status) ensures Done(s', s'.parsed[p].key) {
      assert Done(s, s.parsed[p].key);
    }
    forall h | h in s'.handlings ensures HandlingHolds(s', s'.handlings[h]) {
      assert HandlingHolds(s, s.handlings[h]);
    }
  }

  ghost predicate SameMessages(parsed: seq<ParsedMessage>, parsed': seq<ParsedMessage>) {
    |parsed| <= |parsed'|
    && forall p | 0 <= p < |parsed| :: parsed'[p].key == parsed[p].key && parsed'[p].content == parsed[p].content
  }

  lemma FatesKept(fates: seq<Fate>, batch: seq<Email>, parsed: seq<ParsedMessage>, parsed': seq<ParsedMessage>)
    requires FatesHold(fates, batch, parsed) && SameMessages(parsed, parsed')
    ensures FatesHold(fates, batch, parsed')
  {
    forall i | 0 <= i < |batch| ensures FateHolds(fates[i], batch[i], parsed') {
      assert FateHolds(fates[i], batch[i], parsed);
    }
  }

  /** The analyzer changes the status of raw messages, its own handlers, and adds queued parsed messages. */
  lemma AnalyzerFrame(s: State, step: AnalyzerStep)
    requires AnalyzerEnabled(s, step)
    ensures var s' := ApplyAnalyzer(s, step);
      && s' == s.(raw := s'.raw, analyses := s'.analyses, parsed := s'.parsed)
      && s.parsed <= s'.parsed
      && |s'.raw| == |s.raw| && forall r | 0 <= r < |s.raw| :: s'.raw[r].batch == s.raw[r].batch
  {
  }

  lemma AnalyzerAdds(s: State, step: AnalyzerStep, p: nat)
    requires Inv(s) && AnalyzerEnabled(s, step) && |s.parsed| <= p < |ApplyAnalyzer(s, step).parsed|
    ensures var m := ApplyAnalyzer(s, step).parsed[p]; m.status == ParsedQueued && KeyPublished(s, m.key)
  {
    assert BatchHome(s, s.analyses[step.h].message, step.i);
  }

  lemma AnalysesAnalyzer(s: State, step: AnalyzerStep, h: nat)
    requires Inv(s) && AnalyzerEnabled(s, step) && h in ApplyAnalyzer(s, step).analyses
    ensures AnalysisHolds(ApplyAnalyzer(s, step), ApplyAnalyzer(s, step).analyses[h])
  {
    var s' := ApplyAnalyzer(s, step);
    AnalyzerFrame(s, step);
    if h in s.analyses {
      var a := s.analyses[h];
      assert AnalysisHolds(s, a);
      FatesKept(a.fates, s.raw[a.message].batch, s.parsed, s'.parsed);
    }
  }

  lemma FateAnalyzer(s: State, step: AnalyzerStep)
    requires Inv(s) && AnalyzerEnabled(s, step)
    ensures FateInv(ApplyAnalyzer(s, step))
  {
    var s' := ApplyAnalyzer(s, step);
    AnalyzerFrame(s, step);
    forall h | h in s'.analyses ensures AnalysisHolds(s', s'.analyses[h]) {
      AnalysesAnalyzer(s, step, h);
    }
    forall r | 0 <= r < |s'.raw| ensures RawMessageHolds(s'.raw[r], s'.parsed) {
      assert RawMessageHolds(s.raw[r], s.parsed);
      if s.raw[r].status.RawAcked? {
        FatesKept(s.raw[r].status.fates, s.raw[r].batch, s.parsed, s'.parsed);
      }
      if step.AckRaw? {
        assert AnalysisHolds(s, s.analyses[step.h]);
      }
    }
  }

  lemma AnalyzerKeepsInv(s: State, step: AnalyzerStep)
    requires Inv(s) && AnalyzerEnabled(s, step)
    ensures Inv(ApplyAnalyzer(s, step))
  {
    var s' := ApplyAnalyzer(s, step);
    AnalyzerFrame(s, step);
    HomeFrame(s, s');
    FateAnalyzer(s, step);
    TaskAnalyzer(s, step);
  }

  lemma TaskAnalyzer(s: State, step: AnalyzerStep)
    requires Inv(s) && AnalyzerEnabled(s, step)
    ensures TaskInv(ApplyAnalyzer(s, step))
  {
    var s' := ApplyAnalyzer(s, step);
    AnalyzerFrame(s, step);
    forall p | 0 <= p < |s'.parsed|
      ensures KeyPublished(s', s'.parsed[p].key) && (Settled(s'.parsed[p].status) ==> Done(s', s'.parsed[p].key))
    {
      if p < |s.parsed| {
        assert KeyPublished(s, s.parsed[p].key);
        assert Settled(s.parsed[p].status) ==> Done(s, s.parsed[p].key);
      } else {
        AnalyzerAdds(s, step, p);
      }
    }
    forall h | h in s'.handlings ensures HandlingHolds(s', s'.handlings[h]) {
      assert HandlingHolds(s, s.handlings[h]);
    }
  }

  lemma HasTaskKept(tasks: seq<Task>, tasks': seq<Task>, key: Key)
    requires tasks <= tasks' && HasTask(tasks, key)
    ensures HasTask(tasks', key)
  {
    var i :| 0 <= i < |tasks| && tasks[i].key == key;
    assert tasks'[i].key == key;
  }

  lemma DoneKept(s: State, step: CollectorStep, key: Key)
    requires CollectorEnabled(s, step) && Done(s, key)
    ensures Done(ApplyCollector(s, step), key)
  {
    var s' := ApplyCollector(s, step);
    if HasTask(s.tasks, key) {
      if step.DeleteTask? {
        var i :| 0 <= i < |s.tasks| && s.tasks[i].key == key;
        if i != step.t {
          assert s'.tasks[if i < step.t then i else i - 1].key == key;
        }
      } else {
        HasTaskKept(s.tasks, s'.tasks, key);
      }
    }
  }

  lemma CollectorFrame(s: State, step: CollectorStep)
    requires CollectorEnabled(s, step)
    ensures var s' := ApplyCollector(s, step);
      && s' == s.(parsed := s'.parsed, handlings := s'.handlings, tasks := s'.tasks, deleted := s'.deleted)
      && |s'.parsed| == |s.parsed| && SameMessages(s.parsed, s'.parsed)
  {
  }

  ghost predicate RowsOnce(tasks: seq<Task>) {
    forall i, j | 0 <= i < |tasks| && 0 <= j < |tasks| && tasks[i].key == tasks[j].key :: i == j
  }

  lemma RowsOnceCollector(s: State, step: CollectorStep)
    requires RowsOnce(s.tasks) && CollectorEnabled(s, step)
    ensures RowsOnce(ApplyCollector(s, step).tasks)
  {
  }

  /** Every row of the new table is an old one or comes from a parsed message. */
  lemma RowsPublishedCollector(s: State, step: CollectorStep, i: nat)
    requires TaskInv(s) && CollectorEnabled(s, step) && i < |ApplyCollector(s, step).tasks|
    ensures KeyPublished(s, ApplyCollector(s, step).tasks[i].key)
  {
    var s' := ApplyCollector(s, step);
    if step.DeleteTask? {
      assert s'.tasks[i] == s.tasks[if i < step.t then i else i + 1];
    } else if i == |s.tasks| {
      assert KeyPublished(s, KeyAt(s, step.h));
    }
  }

  lemma SettledCollector(s: State, step: CollectorStep, p: nat)
    requires TaskInv(s) && CollectorEnabled(s, step) && p < |s.parsed|
    requires p < |ApplyCollector(s, step).parsed| && Settled(ApplyCollector(s, step).parsed[p].status)
    ensures Done(ApplyCollector(s, step), s.parsed[p].key)
  {
    if !Settled(s.parsed[p].status) {
      assert HandlingHolds(s, s.handlings[step.h]);
    }
    DoneKept(s, step, s.parsed[p].key);
  }

  lemma HandlingsCollector(s: State, step: CollectorStep, h: nat)
    requires TaskInv(s) && CollectorEnabled(s, step) && h in ApplyCollector(s, step).handlings
    ensures HandlingHolds(ApplyCollector(s, step), ApplyCollector(s, step).handlings[h])
  {
    CollectorFrame(s, step);
    if h in s.handlings {
      assert HandlingHolds(s, s.handlings[h]);
      var key := KeyAt(s, h);
      if Done(s, key) {
        DoneKept(s, step, key);
      }
      MessageStays(s, step, h);
      if Decided(ApplyCollector(s, step).handlings[h].phase) && !Decided(s.handlings[h].phase) {
        StepDecides(s, step, h);
      }
    }
  }

  lemma MessageStays(s: State, step: CollectorStep, h: nat)
    requires CollectorEnabled(s, step) && h in s.handlings && h in ApplyCollector(s, step).handlings
    ensures ApplyCollector(s, step).handlings[h].message == s.handlings[h].message
  {
  }

  /** A handler that a step decides finds the task in the table, or has just inserted it. */
  lemma StepDecides(s: State, step: CollectorStep, h: nat)
    requires CollectorEnabled(s, step) && h in s.handlings && s.handlings[h].message < |s.parsed|
    requires h in ApplyCollector(s, step).handlings
    requires Decided(ApplyCollector(s, step).handlings[h].phase) && !Decided(s.handlings[h].phase)
    ensures HasTask(s.tasks, KeyAt(s, h)) || HasTask(ApplyCollector(s, step).tasks, KeyAt(s, h))
  {
    if step == InsertTask(h) && !HasTask(s.tasks, KeyAt(s, h)) {
      assert ApplyCollector(s, step).tasks[|s.tasks|].key == KeyAt(s, h);
    }
  }

  lemma CollectorKeepsInv(s: State, step: CollectorStep)
    requires Inv(s) && CollectorEnabled(s, step)
    ensures Inv(ApplyCollector(s, step))
  {
    var s' := ApplyCollector(s, step);
    CollectorFrame(s, step);
    HomeFrame(s, s');
    FateCollector(s, step);
    RowsOnceCollector(s, step);
    forall i | 0 <= i < |s'.tasks| ensures KeyPublished(s', s'.tasks[i].key) {
      RowsPublishedCollector(s, step, i);
    }
    forall p | 0 <= p < |s'.parsed|
      ensures KeyPublished(s', s'.parsed[p].key) && (Settled(s'.parsed[p].status) ==> Done(s', s'.parsed[p].key))
    {
      assert KeyPublished(s, s.parsed[p].key);
      if Settled(s'.parsed[p].status) {
        SettledCollector(s, step, p);
      }
    }
    forall h | h in s'.handlings ensures HandlingHolds(s', s'.handlings[h]) {
      HandlingsCollector(s, step, h);
    }
  }

  lemma FateCollector(s: State, step: CollectorStep)
    requires FateInv(s) && CollectorEnabled(s, step)
    ensures FateInv(ApplyCollector(s, step))
  {
    var s' := ApplyCollector(s, step);
    CollectorFrame(s, step);
    forall h | h in s'.analyses ensures AnalysisHolds(s', s'.analyses[h]) {
      assert AnalysisHolds(s, s.analyses[h]);
      FatesKept(s.analyses[h].fates, s.raw[s.analyses[h].message].batch, s.parsed, s'.parsed);
    }
    forall r | 0 <= r < |s'.raw| ensures RawMessageHolds(s'.raw[r], s'.parsed) {
      assert RawMessageHolds(s.raw[r], s.parsed);
      if s.raw[r].status.RawAcked? {
        FatesKept(s.raw[r].status.fates, s.raw[r].batch, s.parsed, s'.parsed);
      }
    }
  }

  lemma StepKeepsInv(s: State, step: Step)
    requires Inv(s) && Enabled(s, step)
    ensures Inv(Apply(s, step))
  {
    match step {
      case Core(c) => CoreKeepsInv(s, c);
      case Analyzer(a) => AnalyzerKeepsInv(s, a);
      case Collector(c) => CollectorKeepsInv(s, c);
    }
  }

  lemma {:induction false} RunKeepsInv(s: State, steps: seq<Step>)
    requires Inv(s) && Exec(s, steps).Some?
    ensures Inv(Exec(s, steps).value)
    decreases |steps|
  {
    if steps != [] {
      StepKeepsInv(s, steps[0]);
      RunKeepsInv(Apply(s, steps[0]), steps[1..]);
    }
  }

  // ---------------------------------------------------------------- results over every run

  ghost predicate Reachable(s: State) {
    exists exclusive, steps :: Exec(Init(exclusive), steps) == Some(s)
  }

  lemma ReachableInv(s: State)
    requires Reachable(s)
    ensures Inv(s)
  {
    var exclusive, steps :| Exec(Init(exclusive), steps) == Some(s);
    RunKeepsInv(Init(exclusive), steps);
  }

  lemma AtMostOneTaskPerKey(s: State, i: nat, j: nat)
    requires Reachable(s) && i < |s.tasks| && j < |s.tasks| && s.tasks[i].key == s.tasks[j].key
    ensures i == j
  {
    ReachableInv(s);
  }

  ghost predicate IsPublished(s: State, key: Key) {
    exists r, i :: 0 <= r < |s.raw| && 0 <= i < |s.raw[r].batch| && KeyOf(s.raw[r].batch[i]) == key
  }

  /** A task comes from a row of `emails_raw` that was published to the analyzer. */
  lemma EveryTaskWasSaved(s: State, i: nat)
    requires Reachable(s) && i < |s.tasks|
    ensures s.tasks[i].key.emailId in s.saved
    ensures var row := s.saved[s.tasks[i].key.emailId];
      row.id == s.tasks[i].key.emailId && row.user == s.tasks[i].key.user
    ensures IsPublished(s, s.tasks[i].key)
  {
    ReachableInv(s);
    var key := s.tasks[i].key;
    assert KeyPublished(s, key);
    assert HomeHolds(s, key.emailId);
    var home := s.home[key.emailId];
    assert KeyOf(s.raw[home.message].batch[home.index]) == key;
  }

  /** A parsed message for the key is on its way, was dropped on an error, or has done its work. */
  ghost predicate AccountedBy(s: State, key: Key, p: nat) {
    p < |s.parsed| && s.parsed[p].key == key
    && (s.parsed[p].status.ParsedQueued? || s.parsed[p].status.ParsedInFlight?
        || s.parsed[p].status == ParsedDropped(false) || Done(s, key))
  }

  /** Acking a raw batch loses no email of it. */
  lemma AckedEmailAccounted(s: State, r: nat, i: nat)
    requires Reachable(s) && r < |s.raw| && s.raw[r].status.RawAcked? && i < |s.raw[r].batch|
    ensures exists p: nat :: AccountedBy(s, KeyOf(s.raw[r].batch[i]), p)
  {
    ReachableInv(s);
    assert RawMessageHolds(s.raw[r], s.parsed);
    var fate := s.raw[r].status.fates[i];
    assert FateHolds(fate, s.raw[r].batch[i], s.parsed);
    assert AccountedBy(s, KeyOf(s.raw[r].batch[i]), fate.at);
  }

  /** Both queues are empty, nothing is unsettled, and no parsed message was dropped on an error. */
  ghost predicate Quiescent(s: State) {
    && (forall r | 0 <= r < |s.raw| :: s.raw[r].status.RawAcked?)
    && (forall p | 0 <= p < |s.parsed| :: s.parsed[p].status in {ParsedAcked, ParsedDropped(true)})
  }

  /** Once the queues have drained, the tasks are exactly the published emails whose task was not deleted, one each. */
  lemma DrainedMeansExactlyOnce(s: State, key: Key)
    requires Reachable(s) && Quiescent(s)
    ensures key !in s.deleted ==> (HasTask(s.tasks, key) <==> IsPublished(s, key))
    ensures forall i, j | 0 <= i < |s.tasks| && 0 <= j < |s.tasks| && s.tasks[i].key == key == s.tasks[j].key :: i == j
  {
    ReachableInv(s);
    if IsPublished(s, key) {
      var r, i :| 0 <= r < |s.raw| && 0 <= i < |s.raw[r].batch| && KeyOf(s.raw[r].batch[i]) == key;
      AckedEmailAccounted(s, r, i);
    }
    if HasTask(s.tasks, key) {
      var i: nat :| i < |s.tasks| && s.tasks[i].key == key;
      EveryTaskWasSaved(s, i);
    }
  }

  /** No saved row is published twice, whatever overlaps; and only saved rows are published. */
  lemma RowsPublishedOnce(s: State, r1: nat, i1: nat, r2: nat, i2: nat)
    requires Reachable(s)
    requires r1 < |s.raw| && i1 < |s.raw[r1].batch| && r2 < |s.raw| && i2 < |s.raw[r2].batch|
    requires s.raw[r1].batch[i1].id == s.raw[r2].batch[i2].id
    ensures r1 == r2 && i1 == i2
    ensures s.raw[r1].batch[i1] in s.saved.Values
  {
    ReachableInv(s);
    assert BatchHome(s, r1, i1) && BatchHome(s, r2, i2);
  }

  /** Without overlapping syncs of one user, no message of that user is published twice. */
  lemma MessagesPublishedOnce(s: State, r1: nat, i1: nat, r2: nat, i2: nat)
    requires Reachable(s) && s.exclusive
    requires r1 < |s.raw| && i1 < |s.raw[r1].batch| && r2 < |s.raw| && i2 < |s.raw[r2].batch|
    requires s.raw[r1].batch[i1].user == s.raw[r2].batch[i2].user
    requires s.raw[r1].batch[i1].messageId == s.raw[r2].batch[i2].messageId
    ensures r1 == r2 && i1 == i2
  {
    ReachableInv(s);
    assert BatchHome(s, r1, i1) && BatchHome(s, r2, i2);
  }

  /** Every saved row is waiting in one sync thread, is in one published batch, or is stranded. */
  lemma SavedRowHasOnePlace(s: State, id: Id)
    requires Reachable(s) && id in s.saved
    ensures id in s.home
    ensures forall t, i | t in s.syncs && 0 <= i < |s.syncs[t].pending| ::
      s.syncs[t].pending[i].id == id <==> s.home[id] == Pending(t, i)
    ensures forall r, i | 0 <= r < |s.raw| && 0 <= i < |s.raw[r].batch| ::
      s.raw[r].batch[i].id == id <==> s.home[id] == InBatch(r, i)
  {
    ReachableInv(s);
    assert HomeHolds(s, id);
    forall t, i | t in s.syncs && 0 <= i < |s.syncs[t].pending|
      ensures s.syncs[t].pending[i].id == id <==> s.home[id] == Pending(t, i)
    {
      assert PendingHome(s, t, i);
    }
    forall r, i | 0 <= r < |s.raw| && 0 <= i < |s.raw[r].batch|
      ensures s.raw[r].batch[i].id == id <==> s.home[id] == InBatch(r, i)
    {
      assert BatchHome(s, r, i);
    }
  }

  ghost function StrandedRows(s: State): set<Id> {
    set id | id in s.home && s.home[id] == Stranded
  }

  lemma EndSyncStrandsPending(s: State, t: nat)
    requires Inv(s) && t in s.syncs
    ensures StrandedRows(ApplyCore(s, EndSync(t))) == StrandedRows(s) + (set e | e in s.syncs[t].pending :: e.id)
  {
    var lost := s.syncs[t].pending;
    var ids := set e | e in lost :: e.id;
    forall id | id in ids ensures id in s.home && s.home[id].Pending? && s.home[id].thread == t {
      var i :| 0 <= i < |lost| && lost[i].id == id;
      assert PendingHome(s, t, i);
    }
    forall id | id in s.home && s.home[id].Pending? && s.home[id].thread == t ensures id in ids {
      assert HomeHolds(s, id);
      assert lost[s.home[id].index] in lost;
    }
  }

  lemma OthersStrandNothing(s: State, step: CoreStep)
    requires HomeInv(s) && CoreEnabled(s, step) && !step.EndSync?
    ensures StrandedRows(ApplyCore(s, step)) == StrandedRows(s)
  {
  }

  /** The only step that strands rows is the end of a sync, and it strands the pending batch: at most seven rows. */
  lemma StepStrandsOnlyPending(s: State, step: Step)
    requires Reachable(s) && Enabled(s, step)
    ensures step.Core? && step.core.EndSync? ==>
      var pending := s.syncs[step.core.thread].pending;
      && |pending| <= 7
      && StrandedRows(Apply(s, step)) == StrandedRows(s) + (set e | e in pending :: e.id)
    ensures !(step.Core? && step.core.EndSync?) ==> StrandedRows(Apply(s, step)) == StrandedRows(s)
  {
    ReachableInv(s);
    match step {
      case Core(c) =>
        if c.EndSync? {
          EndSyncStrandsPending(s, c.thread);
        } else {
          OthersStrandNothing(s, c);
        }
      case Analyzer(a) => AnalyzerFrame(s, a);
      case Collector(c) => CollectorFrame(s, c);
    }
  }

  lemma {:induction false} ExecAppend(s: State, first: seq<Step>, second: seq<Step>)
    requires Exec(s, first).Some?
    ensures Exec(s, first + second) == Exec(Exec(s, first).value, second)
    decreases |first|
  {
    if first == [] {
      assert first + second == second;
    } else {
      assert (first + second)[1..] == first[1..] + second;
      ExecAppend(Apply(s, first[0]), first[1..], second);
    }
  }

  lemma ReachableStep(s: State, step: Step)
    requires Reachable(s) && Enabled(s, step)
    ensures Reachable(Apply(s, step))
  {
    var exclusive, steps :| Exec(Init(exclusive), steps) == Some(s);
    ExecAppend(Init(exclusive), steps, [step]);
    assert Exec(s, [step]) == Exec(Apply(s, step), []);
    assert Exec(Init(exclusive), steps + [step]) == Some(Apply(s, step));
  }

  lemma OverlapBothCheck(user: Id, message: string) returns (s: State)
    ensures Reachable(s) && !s.exclusive && s.raw == [] && s.saved == map[]
    ensures s.syncs == map[0 := Sync(user, Some(message), []), 1 := Sync(user, Some(message), [])]
  {
    s := Init(false);
    assert Exec(Init(false), []) == Some(s);
    ReachableStep(s, Core(StartSync(0, user)));
    s := Apply(s, Core(StartSync(0, user)));
    ReachableStep(s, Core(StartSync(1, user)));
    s := Apply(s, Core(StartSync(1, user)));
    ReachableStep(s, Core(CheckUnseen(0, message)));
    s := Apply(s, Core(CheckUnseen(0, message)));
    ReachableStep(s, Core(CheckUnseen(1, message)));
    s := Apply(s, Core(CheckUnseen(1, message)));
  }

  /** Two overlapping syncs of one user publish the same message twice: any user, any message. */
  lemma OverlapPublishesTwice(user: Id, message: string, a: Id, b: Id) returns (s: State)
    requires a != b
    ensures Reachable(s) && !s.exclusive && |s.raw| == 2
    ensures s.raw[0].batch == [Email(a, user, message)] && s.raw[1].batch == [Email(b, user, message)]
  {
    s := OverlapBothCheck(user, message);
    ReachableStep(s, Core(Save(0, a)));
    s := Apply(s, Core(Save(0, a)));
    ReachableStep(s, Core(Save(1, b)));
    s := Apply(s, Core(Save(1, b)));
    ReachableStep(s, Core(PublishRest(0)));
    s := Apply(s, Core(PublishRest(0)));
    ReachableStep(s, Core(PublishRest(1)));
    s := Apply(s, Core(PublishRest(1)));
  }

  ghost predicate ReachableFrom(exclusive: bool, s: State) {
    exists steps :: Exec(Init(exclusive), steps) == Some(s)
  }

  /** No message of a user is at two places of the published batches. */
  ghost predicate PublishedOnce(s: State) {
    forall r1, i1, r2, i2 |
      0 <= r1 < |s.raw| && 0 <= i1 < |s.raw[r1].batch| && 0 <= r2 < |s.raw| && 0 <= i2 < |s.raw[r2].batch|
      && s.raw[r1].batch[i1].user == s.raw[r2].batch[i2].user
      && s.raw[r1].batch[i1].messageId == s.raw[r2].batch[i2].messageId ::
        r1 == r2 && i1 == i2
  }

  lemma {:induction false} ExclusiveFixed(s: State, steps: seq<Step>)
    requires Exec(s, steps).Some?
    ensures Exec(s, steps).value.exclusive == s.exclusive
    decreases |steps|
  {
    if steps != [] {
      match steps[0] {
        case Core(c) => CoreFrame(s, c);
        case Analyzer(a) => AnalyzerFrame(s, a);
        case Collector(c) => CollectorFrame(s, c);
      }
      ExclusiveFixed(Apply(s, steps[0]), steps[1..]);
    }
  }

  /** Messages are published at most once in every run if and only if syncs of one user never overlap. */
  lemma PublishedOnceExactlyWhen(exclusive: bool)
    ensures (forall s | ReachableFrom(exclusive, s) :: PublishedOnce(s)) <==> exclusive
  {
    if exclusive {
      forall s | ReachableFrom(exclusive, s) ensures PublishedOnce(s) {
        var steps :| Exec(Init(exclusive), steps) == Some(s);
        ExclusiveFixed(Init(exclusive), steps);
        forall r1: nat, i1: nat, r2: nat, i2: nat |
          r1 < |s.raw| && i1 < |s.raw[r1].batch| && r2 < |s.raw| && i2 < |s.raw[r2].batch|
          && s.raw[r1].batch[i1].user == s.raw[r2].batch[i2].user
          && s.raw[r1].batch[i1].messageId == s.raw[r2].batch[i2].messageId
          ensures r1 == r2 && i1 == i2
        {
          MessagesPublishedOnce(s, r1, i1, r2, i2);
        }
      }
    } else {
      var s := OverlapPublishesTwice(0, "", 0, 1);
      var e, steps :| Exec(Init(e), steps) == Some(s);
      ExclusiveFixed(Init(e), steps);
      assert ReachableFrom(exclusive, s);
      assert s.raw[0].batch[0].user == s.raw[1].batch[0].user;
      assert !PublishedOnce(s);
    }
  }

  predicate NoDeletes(steps: seq<Step>) {
    forall k | 0 <= k < |steps| :: !(steps[k].Collector? && steps[k].collector.DeleteTask?)
  }

  lemma CollectorKeepsRows(s: State, step: CollectorStep)
    requires CollectorEnabled(s, step) && !step.DeleteTask?
    ensures s.tasks <= ApplyCollector(s, step).tasks
  {
  }

  lemma StepKeepsRows(s: State, step: Step)
    requires Enabled(s, step) && NoDeletes([step])
    ensures s.tasks <= Apply(s, step).tasks
  {
    match step {
      case Core(c) => CoreFrame(s, c);
      case Analyzer(a) => AnalyzerFrame(s, a);
      case Collector(c) =>
        assert [step][0] == step;
        CollectorKeepsRows(s, c);
    }
  }

  /** Absent deletes, a task once inserted keeps its row and its content: the first insert wins. */
  lemma {:induction false} FirstInsertWins(s: State, steps: seq<Step>)
    requires Exec(s, steps).Some? && NoDeletes(steps)
    ensures s.tasks <= Exec(s, steps).value.tasks
    decreases |steps|
  {
    if steps != [] {
      StepKeepsRows(s, steps[0]);
      FirstInsertWins(Apply(s, steps[0]), steps[1..]);
    }
  }

  lemma StepKeepsParsedKeys(s: State, step: Step)
    requires Enabled(s, step)
    ensures SameMessages(s.parsed, Apply(s, step).parsed)
  {
    match step {
      case Core(c) => CoreFrame(s, c);
      case Analyzer(a) => AnalyzerFrame(s, a);
      case Collector(c) => CollectorFrame(s, c);
    }
  }

  lemma {:induction false} RunKeepsParsedKeys(s: State, steps: seq<Step>)
    requires Exec(s, steps).Some?
    ensures SameMessages(s.parsed, Exec(s, steps).value.parsed)
    decreases |steps|
  {
    if steps != [] {
      StepKeepsParsedKeys(s, steps[0]);
      RunKeepsParsedKeys(Apply(s, steps[0]), steps[1..]);
    }
  }

  lemma StepWithTasksPresent(s: State, step: Step)
    requires Enabled(s, step) && NoDeletes([step])
    requires forall p | 0 <= p < |s.parsed| :: HasTask(s.tasks, s.parsed[p].key)
    ensures Apply(s, step).tasks == s.tasks
  {
    match step {
      case Core(c) => CoreFrame(s, c);
      case Analyzer(a) => AnalyzerFrame(s, a);
      case Collector(c) =>
        assert [step][0] == step;
        CollectorAddsNothing(s, c);
    }
  }

  lemma CollectorAddsNothing(s: State, step: CollectorStep)
    requires CollectorEnabled(s, step) && !step.DeleteTask?
    requires forall p | 0 <= p < |s.parsed| :: HasTask(s.tasks, s.parsed[p].key)
    ensures ApplyCollector(s, step).tasks == s.tasks
  {
  }

  /** Every message the collector can see by the end of the run has a key that already has a task. */
  ghost predicate OnlyReplays(s: State, steps: seq<Step>)
    requires Exec(s, steps).Some?
  {
    var end := Exec(s, steps).value;
    forall p | 0 <= p < |end.parsed| :: HasTask(s.tasks, end.parsed[p].key)
  }

  /** Replaying messages whose tasks exist changes no row, however many collectors interleave. */
  lemma {:induction false} ReplayChangesNothing(s: State, steps: seq<Step>)
    requires Exec(s, steps).Some? && NoDeletes(steps) && OnlyReplays(s, steps)
    ensures Exec(s, steps).value.tasks == s.tasks
    decreases |steps|
  {
    if steps != [] {
      RunKeepsParsedKeys(s, steps);
      StepWithTasksPresent(s, steps[0]);
      ReplayChangesNothing(Apply(s, steps[0]), steps[1..]);
    }
  }
}
