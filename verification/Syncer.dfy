/**
 `SyncIntegration`: new messages are saved one by one and published in batches of seven. What the
 mailbox, the database and the broker do is a parameter: the messages with the failure each one
 meets, and the number of publications that succeed before one fails. A nil dereference ends the
 run with the outcome `Panicked`.
 */
module Syncer {
  import opened Prelude
  import F = Fairness

  const MAX_BATCH: nat := 7

  type Id = nat
  type Time = int

  /** A formatted time is never empty. */
  type Rfc3339 = s: string | s != "" witness "0"

  datatype Email = Email(id: Id, user: Id, messageId: string, from: string, subject: string, text: string, date: string)
  datatype RawEmail = RawEmail(email: Email, timestamp: string)

  datatype Fault = NoFault | ExistsCheckFails | UuidFails | SaveFails

  /** A message of the mailbox, the id generated for it, the clock reading for it, and what fails. */
  datatype Incoming = Incoming(
    messageId: string, from: string, subject: string, text: string, date: Rfc3339,
    id: Id, timestamp: Rfc3339, fault: Fault)

  /** `emails` is `emails_raw`, `published` the batches enqueued, `stamps` the table of integrations. */
  datatype World = World(emails: seq<Email>, published: seq<seq<RawEmail>>, stamps: F.Stamps)

  datatype Outcome = NotFetched | Synced | PublishFailed | StampFailed | Panicked

  /** What happens to one sync: `fetched` is None when login or fetch fails, `failAt` publications succeed. */
  datatype Run = Run(
    integration: Id, user: Id, fetched: Option<seq<Incoming>>, failAt: nat, stampFails: bool, now: Time)

  predicate Exists(emails: seq<Email>, user: Id, messageId: string) {
    exists i | 0 <= i < |emails| :: emails[i].user == user && emails[i].messageId == messageId
  }

  function RawOf(user: Id, m: Incoming): RawEmail {
    RawEmail(Email(m.id, user, m.messageId, m.from, m.subject, m.text, m.date), m.timestamp)
  }

  function Rows(raws: seq<RawEmail>): seq<Email> {
    seq(|raws|, i requires 0 <= i < |raws| => raws[i].email)
  }

  /** One more message after `done` was accepted: it is accepted if it is not known yet and nothing fails. */
  function AcceptOne(emails: seq<Email>, user: Id, done: seq<RawEmail>, m: Incoming): seq<RawEmail> {
    if m.fault.NoFault? && !Exists(emails + Rows(done), user, m.messageId) then done + [RawOf(user, m)] else done
  }

  /** The messages that are saved, in order. */
  function Accepted(emails: seq<Email>, user: Id, messages: seq<Incoming>): (a: seq<RawEmail>)
    ensures |a| <= |messages|
  {
    if messages == [] then []
    else AcceptOne(emails, user, Accepted(emails, user, messages[..|messages| - 1]), messages[|messages| - 1])
  }

  lemma AcceptedNext(emails: seq<Email>, user: Id, messages: seq<Incoming>, k: nat)
    requires k < |messages|
    ensures Accepted(emails, user, messages[..k + 1])
         == AcceptOne(emails, user, Accepted(emails, user, messages[..k]), messages[k])
  {
    assert messages[..k + 1][..k] == messages[..k];
  }

  /** The full batches of a sequence of accepted messages, and what is left over. */
  function FullBatches(a: seq<RawEmail>): (b: seq<seq<RawEmail>>)
    ensures |b| == |a| / MAX_BATCH
  {
    if |a| < MAX_BATCH then [] else [a[..MAX_BATCH]] + FullBatches(a[MAX_BATCH..])
  }

  function Rest(a: seq<RawEmail>): (r: seq<RawEmail>)
    ensures |r| == |a| % MAX_BATCH
  {
    a[|a| - |a| % MAX_BATCH..]
  }

  /** What a sync leaves behind, as a function of the accepted messages alone. */
  function SyncResult(w: World, run: Run): (World, Outcome) {
    if run.fetched.None? then (w, NotFetched)
    else
      var a := Accepted(w.emails, run.user, run.fetched.value);
      var batches := FullBatches(a);
      var stamped := if run.stampFails then w.stamps else F.Stamped(w.stamps, run.integration, run.now);
      var stampOutcome := if run.stampFails then StampFailed else Synced;
      if run.fetched.value == [] then (w.(stamps := stamped), stampOutcome)
      else if run.failAt < |batches| then
        (w.(emails := w.emails + Rows(a[..MAX_BATCH * (run.failAt + 1)]),
            published := w.published + batches[..run.failAt]), PublishFailed)
      else if Rest(a) == [] then
        (w.(emails := w.emails + Rows(a), published := w.published + batches), Panicked)
      else if run.failAt == |batches| then
        (w.(emails := w.emails + Rows(a), published := w.published + batches), PublishFailed)
      else
        (World(w.emails + Rows(a), w.published + batches + [Rest(a)], stamped), stampOutcome)
  }

  lemma RestDropsBatches(a: seq<RawEmail>)
    requires |a| >= MAX_BATCH
    ensures Rest(a[MAX_BATCH..]) == Rest(a)
  {
  }

  lemma {:induction false} FullBatchesAppend(a: seq<RawEmail>, x: RawEmail)
    ensures FullBatches(a + [x]) == FullBatches(a) + if |Rest(a)| + 1 == MAX_BATCH then [Rest(a) + [x]] else []
    ensures Rest(a + [x]) == if |Rest(a)| + 1 == MAX_BATCH then [] else Rest(a) + [x]
  {
    var b := a + [x];
    if |a| < MAX_BATCH {
      if |b| == MAX_BATCH {
        assert b[..MAX_BATCH] == b && b[MAX_BATCH..] == [];
      }
    } else {
      assert b[..MAX_BATCH] == a[..MAX_BATCH] && b[MAX_BATCH..] == a[MAX_BATCH..] + [x];
      FullBatchesAppend(a[MAX_BATCH..], x);
      RestDropsBatches(a);
      RestDropsBatches(b);
    }
  }

  /** Accepting more messages only extends what was accepted. */
  lemma {:induction false} AcceptedPrefix(emails: seq<Email>, user: Id, messages: seq<Incoming>, k: nat)
    requires k <= |messages|
    ensures Accepted(emails, user, messages[..k]) <= Accepted(emails, user, messages)
  {
    if k < |messages| {
      assert messages[..|messages| - 1][..k] == messages[..k];
      AcceptedPrefix(emails, user, messages[..|messages| - 1], k);
    } else {
      assert messages[..k] == messages;
    }
  }

  lemma {:induction false} FullBatchesPrefix(a: seq<RawEmail>, b: seq<RawEmail>)
    requires a <= b
    ensures FullBatches(a) <= FullBatches(b)
  {
    if |a| >= MAX_BATCH {
      assert b[..MAX_BATCH] == a[..MAX_BATCH];
      FullBatchesPrefix(a[MAX_BATCH..], b[MAX_BATCH..]);
    }
  }

  class MailStore {
    var emails: seq<Email>

    constructor ()
      ensures emails == []
    {
      emails := [];
    }

    method EmailExists(user: Id, messageId: string) returns (found: bool)
      ensures found <==> exists i | 0 <= i < |emails| :: emails[i].user == user && emails[i].messageId == messageId
    {
      found := exists i | 0 <= i < |emails| :: emails[i].user == user && emails[i].messageId == messageId;
    }

    method SaveEmail(email: Email)
      modifies this
      ensures emails == old(emails) + [email]
    {
      emails := emails + [email];
    }
  }

  /** A batch as it is sent: missing dates and timestamps are replaced by the clock's. */
  function Defaulted(batch: seq<RawEmail>, now: Rfc3339): (r: seq<RawEmail>)
    ensures |r| == |batch|
    ensures forall i | 0 <= i < |batch| ::
      r[i].email.(date := "") == batch[i].email.(date := "") && r[i].email.date != "" && r[i].timestamp != ""
  {
    seq(|batch|, i requires 0 <= i < |batch| =>
      var d := if batch[i].email.date == "" then now else batch[i].email.date;
      RawEmail(batch[i].email.(date := d), if batch[i].timestamp == "" then now else batch[i].timestamp))
  }

  lemma NothingToDefault(batch: seq<RawEmail>, now: Rfc3339)
    requires forall i | 0 <= i < |batch| :: batch[i].email.date != "" && batch[i].timestamp != ""
    ensures Defaulted(batch, now) == batch
  {
  }

  /** The publisher: `attempts` counts publications, and the one numbered `failAt` fails. */
  class Producer {
    var published: seq<seq<RawEmail>>
    var attempts: nat

    constructor ()
      ensures published == [] && attempts == 0
    {
      published, attempts := [], 0;
    }

    method PublishEmailBatch(batch: seq<RawEmail>, failAt: nat, now: Rfc3339) returns (ok: bool)
      modifies this
      ensures ok <==> batch == [] || old(attempts) != failAt
      ensures attempts == if batch == [] then old(attempts) else old(attempts) + 1
      ensures published == if ok && batch != [] then old(published) + [Defaulted(batch, now)] else old(published)
      ensures ok && batch != [] ==> var sent := published[|published| - 1];
        |sent| == |batch| && forall i | 0 <= i < |batch| ::
          && sent[i].email == batch[i].email.(date := if batch[i].email.date == "" then now else batch[i].email.date)
          && sent[i].timestamp == if batch[i].timestamp == "" then now else batch[i].timestamp
    {
      if |batch| == 0 {
        return true;
      }
      var rawEmails: seq<RawEmail> := [];
      for i := 0 to |batch|
        invariant rawEmails == Defaulted(batch, now)[..i]
      {
        var dateReceived := batch[i].email.date;
        if dateReceived == "" {
          dateReceived := now;
        }
        var syncTimestamp := batch[i].timestamp;
        if syncTimestamp == "" {
          syncTimestamp := now;
        }
        rawEmails := rawEmails + [RawEmail(batch[i].email.(date := dateReceived), syncTimestamp)];
      }
      assert rawEmails == Defaulted(batch, now);
      ok := attempts != failAt;
      attempts := attempts + 1;
      if ok {
        published := published + [rawEmails];
      }
    }
  }

  class MailSyncer {
    const db: MailStore
    const table: F.IntegrationTable
    const rabbit: Producer

    constructor (db: MailStore, table: F.IntegrationTable, rabbit: Producer)
      ensures this.db == db && this.table == table && this.rabbit == rabbit
    {
      this.db, this.table, this.rabbit := db, table, rabbit;
    }

    ghost function Value(): World
      reads db, table, rabbit
    {
      World(db.emails, rabbit.published, table.stamps)
    }

    method ProcessMessage(user: Id, m: Incoming) returns (raw: Option<RawEmail>)
      modifies db
      ensures raw ==
        if m.fault.NoFault? && !Exists(old(db.emails), user, m.messageId) then Some(RawOf(user, m)) else None
      ensures raw.Some? <==> m.fault == NoFault && forall i | 0 <= i < |old(db.emails)| ::
        !(old(db.emails)[i].user == user && old(db.emails)[i].messageId == m.messageId)
      ensures raw.Some? ==>
        raw.value == RawEmail(Email(m.id, user, m.messageId, m.from, m.subject, m.text, m.date), m.timestamp)
      ensures db.emails == if raw.Some? then old(db.emails) + [raw.value.email] else old(db.emails)
    {
      if m.fault.ExistsCheckFails? {
        return None;
      }
      var known := db.EmailExists(user, m.messageId);
      if known || m.fault.UuidFails? || m.fault.SaveFails? {
        return None;
      }
      raw := Some(RawOf(user, m));
      db.SaveEmail(raw.value.email);
    }

    method Stamp(run: Run) returns (outcome: Outcome)
      modifies table
      ensures outcome == if run.stampFails then StampFailed else Synced
      ensures table.stamps ==
        if run.stampFails then old(table.stamps) else F.Stamped(old(table.stamps), run.integration, run.now)
    {
      if run.stampFails {
        return StampFailed;
      }
      table.UpdateLastSync(run.integration, run.now);
      outcome := Synced;
    }

    /** The loop of SyncIntegration between two messages: `done` was accepted, `pending` is the current batch. */
    ghost predicate Between(before: World, run: Run, done: seq<RawEmail>, pending: Option<seq<RawEmail>>)
      reads db, table, rabbit
    {
      && Value() == World(before.emails + Rows(done), before.published + FullBatches(done), before.stamps)
      && rabbit.attempts == |FullBatches(done)| <= run.failAt
      && pending == (if |done| % MAX_BATCH == 0 then None else Some(Rest(done)))
      && forall i | 0 <= i < |done| :: done[i].email.date != "" && done[i].timestamp != ""
    }

    /** Appends a saved message to the current batch and publishes the batch when it is full. */
    method AddToBatch(raw: RawEmail, pending: Option<seq<RawEmail>>, run: Run, clock: Rfc3339,
                      ghost before: World, ghost done: seq<RawEmail>)
      returns (ok: bool, pending': Option<seq<RawEmail>>)
      requires db.emails == before.emails + Rows(done + [raw])
      requires rabbit.published == before.published + FullBatches(done) && table.stamps == before.stamps
      requires rabbit.attempts == |FullBatches(done)| <= run.failAt
      requires pending == if |done| % MAX_BATCH == 0 then None else Some(Rest(done))
      requires forall i | 0 <= i < |done| :: done[i].email.date != "" && done[i].timestamp != ""
      requires raw.email.date != "" && raw.timestamp != ""
      modifies rabbit
      ensures ok ==> Between(before, run, done + [raw], pending')
      ensures !ok ==> |done| + 1 == MAX_BATCH * (run.failAt + 1)
      ensures !ok ==> rabbit.published == before.published + FullBatches(done + [raw])[..run.failAt]
    {
      FullBatchesAppend(done, raw);
      var batch := (if pending.None? then [] else pending.value) + [raw];
      if |batch| < MAX_BATCH {
        return true, Some(batch);
      }
      NothingToDefault(batch, clock);
      ok := rabbit.PublishEmailBatch(batch, run.failAt, clock);
      pending' := None;
    }

    /** The body of the loop: one message is saved, or skipped, and the batch published when full. */
    method OneMessage(m: Incoming, pending: Option<seq<RawEmail>>, run: Run, clock: Rfc3339,
                      ghost before: World, ghost done: seq<RawEmail>)
      returns (ok: bool, pending': Option<seq<RawEmail>>)
      requires Between(before, run, done, pending)
      modifies db, rabbit
      ensures ok ==> Between(before, run, AcceptOne(before.emails, run.user, done, m), pending')
      ensures !ok ==> var accepted := AcceptOne(before.emails, run.user, done, m);
        |accepted| == MAX_BATCH * (run.failAt + 1)
        && Value() ==
          World(before.emails + Rows(accepted), before.published + FullBatches(accepted)[..run.failAt], before.stamps)
    {
      var rabbitMsg := ProcessMessage(run.user, m);
      if rabbitMsg.None? {
        return true, pending;
      }
      assert Rows(done + [rabbitMsg.value]) == Rows(done) + [rabbitMsg.value.email];
      ok, pending' := AddToBatch(rabbitMsg.value, pending, run, clock, before, done);
    }

    /** What follows the loop: the dereference of the current batch, the last publication and the stamp. */
    method Finish(pending: Option<seq<RawEmail>>, run: Run, clock: Rfc3339, ghost before: World)
      returns (outcome: Outcome)
      requires run.fetched.Some? && run.fetched.value != []
      requires Between(before, run, Accepted(before.emails, run.user, run.fetched.value), pending)
      modifies db, table, rabbit
      ensures (Value(), outcome) == SyncResult(before, run)
    {
      if pending.None? {
        return Panicked;
      }
      if |pending.value| > 0 {
        NothingToDefault(pending.value, clock);
        var ok := rabbit.PublishEmailBatch(pending.value, run.failAt, clock);
        if !ok {
          return PublishFailed;
        }
      }
      outcome := Stamp(run);
    }

    method SyncIntegration(run: Run, clock: Rfc3339) returns (outcome: Outcome)
      requires rabbit.attempts == 0
      modifies db, table, rabbit
      ensures (Value(), outcome) == SyncResult(old(Value()), run)
      ensures OutcomeFits(old(Value()), run, Value(), outcome)
    {
      OutcomeOf(Value(), run);
      if run.fetched.None? {
        return NotFetched;
      }
      var msgs := run.fetched.value;
      if |msgs| == 0 {
        outcome := Stamp(run);
        return;
      }
      ghost var before := Value();
      var ok, currentBatch := ProcessMessages(msgs, run, clock, before);
      if !ok {
        return PublishFailed;
      }
      outcome := Finish(currentBatch, run, clock, before);
    }

    /** The loop over the fetched messages. */
    method ProcessMessages(msgs: seq<Incoming>, run: Run, clock: Rfc3339, ghost before: World)
      returns (ok: bool, currentBatch: Option<seq<RawEmail>>)
      requires run.fetched == Some(msgs) && msgs != [] && before == Value() && rabbit.attempts == 0
      modifies db, rabbit
      ensures ok ==> Between(before, run, Accepted(before.emails, run.user, msgs), currentBatch)
      ensures !ok ==> (Value(), PublishFailed) == SyncResult(before, run)
    {
      currentBatch := None;
      assert msgs[..0] == [];
      for k := 0 to |msgs|
        invariant Between(before, run, Accepted(before.emails, run.user, msgs[..k]), currentBatch)
      {
        AcceptedNext(before.emails, run.user, msgs, k);
        ok, currentBatch :=
          OneMessage(msgs[k], currentBatch, run, clock, before, Accepted(before.emails, run.user, msgs[..k]));
        if !ok {
          FailedResult(before, run, k + 1);
          return;
        }
      }
      assert msgs[..|msgs|] == msgs;
      ok := true;
    }
  }

  /**
   What the outcome of a sync says about the tables: it is stamped exactly if it ends well, and how
   it ends is decided by the number of messages saved and the publication that fails.
   */
  ghost predicate OutcomeFits(before: World, run: Run, after: World, outcome: Outcome) {
    && before.emails <= after.emails && before.published <= after.published
    && after.stamps.Keys == before.stamps.Keys
    && (forall x | x in before.stamps ::
          after.stamps[x] == if outcome == Synced && x == run.integration then Some(run.now) else before.stamps[x])
    && (outcome == NotFetched <==> run.fetched.None?)
    && (outcome == NotFetched || run.fetched == Some([]) ==>
          after.emails == before.emails && after.published == before.published)
    && (run.fetched == Some([]) ==> outcome == if run.stampFails then StampFailed else Synced)
    && (run.fetched.Some? && run.fetched.value != [] ==>
          var saved := |after.emails| - |before.emails|;
          var sent := |after.published| - |before.published|;
          && (outcome == PublishFailed ==> saved > 7 * run.failAt && sent == run.failAt)
          && (outcome == Panicked ==> saved % 7 == 0 && sent == saved / 7 <= run.failAt)
          && (outcome in {Synced, StampFailed} ==>
                && saved % 7 != 0 && sent == saved / 7 + 1 <= run.failAt
                && outcome == if run.stampFails then StampFailed else Synced))
  }

  lemma OutcomeOf(w: World, run: Run)
    ensures OutcomeFits(w, run, SyncResult(w, run).0, SyncResult(w, run).1)
  {
  }

  /** A publication that fails after message `k` ends the sync there: later messages are not looked at. */
  lemma FailedResult(w: World, run: Run, k: nat)
    requires run.fetched.Some? && 0 < k <= |run.fetched.value|
    requires |Accepted(w.emails, run.user, run.fetched.value[..k])| == MAX_BATCH * (run.failAt + 1)
    ensures SyncResult(w, run) == (w.(emails := w.emails + Rows(Accepted(w.emails, run.user, run.fetched.value[..k])),
      published := w.published + FullBatches(Accepted(w.emails, run.user, run.fetched.value[..k]))[..run.failAt]),
      PublishFailed)
  {
    var done := Accepted(w.emails, run.user, run.fetched.value[..k]);
    var all := Accepted(w.emails, run.user, run.fetched.value);
    AcceptedPrefix(w.emails, run.user, run.fetched.value, k);
    FullBatchesPrefix(done, all);
    assert done == all[..MAX_BATCH * (run.failAt + 1)];
    assert FullBatches(done)[..run.failAt] == FullBatches(all)[..run.failAt];
    assert Rest(done) == [];
  }

  // ---------------------------------------------------------------- what a sync publishes

  function Flatten(batches: seq<seq<RawEmail>>): seq<RawEmail> {
    if batches == [] then [] else batches[0] + Flatten(batches[1..])
  }

  lemma {:induction false} FlattenAppend(a: seq<seq<RawEmail>>, b: seq<seq<RawEmail>>)
    ensures Flatten(a + b) == Flatten(a) + Flatten(b)
  {
    if a == [] {
      assert a + b == b;
    } else {
      assert (a + b)[1..] == a[1..] + b;
      FlattenAppend(a[1..], b);
    }
  }

  lemma {:induction false} FullBatchesFlatten(a: seq<RawEmail>)
    ensures Flatten(FullBatches(a)) + Rest(a) == a
    ensures forall b | b in FullBatches(a) :: |b| == 7
  {
    if |a| >= MAX_BATCH {
      FullBatchesFlatten(a[MAX_BATCH..]);
      RestDropsBatches(a);
      assert (FullBatches(a))[1..] == FullBatches(a[MAX_BATCH..]);
    }
  }

  lemma AllBatches(a: seq<RawEmail>)
    ensures Flatten(FullBatches(a) + [Rest(a)]) == a
    ensures forall i | 0 <= i < |FullBatches(a)| :: |FullBatches(a)[i]| == MAX_BATCH
  {
    FullBatchesFlatten(a);
    FlattenAppend(FullBatches(a), [Rest(a)]);
    assert Flatten([Rest(a)]) == Rest(a) + Flatten([]);
  }

  /** The batches a sync has added to the queue, and the rows it has added to the table. */
  function NewBatches(w: World, run: Run): seq<seq<RawEmail>>
    requires |w.published| <= |SyncResult(w, run).0.published|
  {
    SyncResult(w, run).0.published[|w.published|..]
  }

  /** No publication fails during the loop over the messages. */
  predicate LoopPublishes(w: World, run: Run) {
    run.fetched.Some? && run.failAt >= |Accepted(w.emails, run.user, run.fetched.value)| / MAX_BATCH
  }

  /** The nil dereference happens exactly when a non-empty mailbox yields a multiple of seven new messages, or none. */
  lemma PanicsExactlyWhen(w: World, run: Run)
    ensures SyncResult(w, run).1 == Panicked <==>
      (LoopPublishes(w, run) && run.fetched.value != []
       && |Accepted(w.emails, run.user, run.fetched.value)| % 7 == 0)
  {
  }

  lemma {:induction false} NothingNew(emails: seq<Email>, user: Id, messages: seq<Incoming>)
    requires forall m | m in messages :: Exists(emails, user, m.messageId)
    ensures Accepted(emails, user, messages) == []
  {
    if messages != [] {
      NothingNew(emails, user, messages[..|messages| - 1]);
      assert messages[|messages| - 1] in messages;
      assert emails + Rows([]) == emails;
    }
  }

  /** A mailbox whose unseen messages have all been saved before makes every sync of it panic, with nothing done. */
  lemma KnownMessagesPanic(w: World, run: Run)
    requires run.fetched.Some? && run.fetched.value != []
    requires forall m | m in run.fetched.value :: Exists(w.emails, run.user, m.messageId)
    ensures SyncResult(w, run) == (w, Panicked)
  {
    NothingNew(w.emails, run.user, run.fetched.value);
    assert w.emails + Rows([]) == w.emails && w.published + [] == w.published;
  }

  lemma ExistsKept(emails: seq<Email>, more: seq<Email>, user: Id, messageId: string)
    requires Exists(emails, user, messageId)
    ensures Exists(emails + more, user, messageId)
  {
    var i :| 0 <= i < |emails| && emails[i].user == user && emails[i].messageId == messageId;
    assert (emails + more)[i] == emails[i];
  }

  /** If nothing fails, every message of a fetch is known afterwards. */
  lemma {:induction false} AllKnownAfter(emails: seq<Email>, user: Id, messages: seq<Incoming>, m: Incoming)
    requires m in messages && forall x | x in messages :: x.fault.NoFault?
    ensures Exists(emails + Rows(Accepted(emails, user, messages)), user, m.messageId)
  {
    var last := messages[|messages| - 1];
    var before := messages[..|messages| - 1];
    var done := Accepted(emails, user, before);
    var all := Accepted(emails, user, messages);
    assert last in messages;
    if m in before {
      AllKnownAfter(emails, user, before, m);
      if all != done {
        assert emails + Rows(all) == emails + Rows(done) + [RawOf(user, last).email];
        ExistsKept(emails + Rows(done), [RawOf(user, last).email], user, m.messageId);
      }
    } else {
      assert m == last;
      if all != done {
        assert (emails + Rows(all))[|emails| + |done|] == RawOf(user, last).email;
      }
    }
  }

  /** The run fetches something, but only messages with ids from the fetch. */
  predicate FetchesAgain(again: Run, user: Id, messages: seq<Incoming>) {
    && again.user == user && again.fetched.Some? && again.fetched.value != []
    && forall m | m in again.fetched.value :: exists x | x in messages :: x.messageId == m.messageId
  }

  /**
   A panic repeats itself: if no message of the panicking sync had a fault, then every later sync
   that fetches messages of it again, and no new one, panics too. It changes nothing, so that the
   integration is never stamped.
   */
  lemma PanicRepeats(w: World, run: Run, again: Run)
    requires SyncResult(w, run).1 == Panicked && forall m | m in run.fetched.value :: m.fault.NoFault?
    requires FetchesAgain(again, run.user, run.fetched.value)
    ensures SyncResult(SyncResult(w, run).0, again) == (SyncResult(w, run).0, Panicked)
  {
    var after := SyncResult(w, run).0;
    forall m | m in again.fetched.value ensures Exists(after.emails, again.user, m.messageId) {
      var x :| x in run.fetched.value && x.messageId == m.messageId;
      AllKnownAfter(w.emails, run.user, run.fetched.value, x);
    }
    KnownMessagesPanic(after, again);
  }

  /** Such a loop has no end: after any number of these syncs the world is as the first one left it. */
  lemma {:induction false} PanicLoops(w: World, run: Run, later: seq<Run>)
    requires SyncResult(w, run).1 == Panicked && forall m | m in run.fetched.value :: m.fault.NoFault?
    requires forall again | again in later :: FetchesAgain(again, run.user, run.fetched.value)
    ensures AfterRuns(SyncResult(w, run).0, later) == SyncResult(w, run).0
  {
    if later != [] {
      PanicLoops(w, run, later[..|later| - 1]);
      PanicRepeats(w, run, later[|later| - 1]);
    }
  }

  /** A sync that ends well has published every accepted message, in order, in batches of seven but for the last. */
  lemma SyncedPublishesAll(w: World, run: Run)
    requires SyncResult(w, run).1 in {Synced, StampFailed} && run.fetched.value != []
    ensures SyncResult(w, run).0.published[..|w.published|] == w.published
    ensures Flatten(NewBatches(w, run)) == Accepted(w.emails, run.user, run.fetched.value)
    ensures NewBatches(w, run) != []
    ensures forall i | 0 <= i < |NewBatches(w, run)| - 1 :: |NewBatches(w, run)[i]| == 7
    ensures 0 < |NewBatches(w, run)[|NewBatches(w, run)| - 1]| < 7
  {
    var a := Accepted(w.emails, run.user, run.fetched.value);
    AllBatches(a);
    var batches := FullBatches(a) + [Rest(a)];
    assert SyncResult(w, run).0.published == w.published + batches;
    assert NewBatches(w, run) == batches;
  }

  // ---------------------------------------------------------------- sequences of syncs

  predicate SameMessage(a: Email, b: Email) {
    a.user == b.user && a.messageId == b.messageId
  }

  ghost predicate Distinct(emails: seq<Email>) {
    forall i, j | 0 <= i < |emails| && 0 <= j < |emails| && SameMessage(emails[i], emails[j]) :: i == j
  }

  /** What was published, together with what was stranded, is what was saved. */
  ghost predicate Accounted(w: World, stranded: multiset<Email>) {
    multiset(w.emails) == multiset(Rows(Flatten(w.published))) + stranded
  }

  lemma {:induction false} AcceptedKeepsDistinct(emails: seq<Email>, user: Id, messages: seq<Incoming>)
    requires Distinct(emails)
    ensures Distinct(emails + Rows(Accepted(emails, user, messages)))
  {
    var a := Accepted(emails, user, messages);
    if messages == [] {
      assert emails + Rows(a) == emails;
    } else {
      var before := Accepted(emails, user, messages[..|messages| - 1]);
      AcceptedKeepsDistinct(emails, user, messages[..|messages| - 1]);
      if a != before {
        assert Rows(a) == Rows(before) + [a[|before|].email];
        assert emails + Rows(a) == (emails + Rows(before)) + [a[|before|].email];
      }
    }
  }

  lemma DistinctPrefix(emails: seq<Email>, added: seq<Email>, k: nat)
    requires Distinct(emails + added) && k <= |added|
    ensures Distinct(emails + added[..k])
  {
    assert emails + added[..k] == (emails + added)[..|emails| + k];
  }

  lemma RowsAppend(a: seq<RawEmail>, b: seq<RawEmail>)
    ensures Rows(a + b) == Rows(a) + Rows(b)
  {
  }

  /** What is lost when the publication of batch `k` fails, full or not. */
  function Lost(a: seq<RawEmail>, k: nat): seq<RawEmail> {
    if k < |FullBatches(a)| then a[MAX_BATCH * k..MAX_BATCH * (k + 1)] else Rest(a)
  }

  lemma LostWhenFull(a: seq<RawEmail>, k: nat)
    requires k < |FullBatches(a)|
    ensures a[..MAX_BATCH * (k + 1)] == Flatten(FullBatches(a)[..k]) + Lost(a, k)
  {
    FirstBatches(a, k);
  }

  /** What one sync adds: rows and batches; the rows are the contents of the batches, then the stranded ones. */
  lemma SyncAdds(w: World, run: Run) returns (saved: seq<RawEmail>, batches: seq<seq<RawEmail>>, lost: seq<RawEmail>)
    ensures saved <= (if run.fetched.Some? then Accepted(w.emails, run.user, run.fetched.value) else [])
    ensures SyncResult(w, run).0.emails == w.emails + Rows(saved)
    ensures SyncResult(w, run).0.published == w.published + batches
    ensures saved == Flatten(batches) + lost
    ensures if SyncResult(w, run).1 == PublishFailed then 0 < |lost| <= 7 else lost == []
  {
    if run.fetched.None? || run.fetched.value == [] {
      saved, batches, lost := [], [], [];
      assert w.emails + Rows(saved) == w.emails && w.published + batches == w.published;
      return;
    }
    var a := Accepted(w.emails, run.user, run.fetched.value);
    if run.failAt < |FullBatches(a)| {
      saved, batches, lost := a[..MAX_BATCH * (run.failAt + 1)], FullBatches(a)[..run.failAt], Lost(a, run.failAt);
      LostWhenFull(a, run.failAt);
    } else if Rest(a) == [] || run.failAt == |FullBatches(a)| {
      saved, batches, lost := a, FullBatches(a), Rest(a);
      FullBatchesFlatten(a);
    } else {
      saved, batches, lost := a, FullBatches(a) + [Rest(a)], [];
      AllBatches(a);
      assert w.published + batches == w.published + FullBatches(a) + [Rest(a)];
    }
  }

  lemma {:induction false} FirstBatches(a: seq<RawEmail>, k: nat)
    requires k < |FullBatches(a)|
    ensures MAX_BATCH * (k + 1) <= |a|
    ensures Flatten(FullBatches(a)[..k]) == a[..MAX_BATCH * k]
  {
    if k > 0 {
      FirstBatches(a[MAX_BATCH..], k - 1);
      assert FullBatches(a)[..k] == [a[..MAX_BATCH]] + FullBatches(a[MAX_BATCH..])[..k - 1];
      assert a[..MAX_BATCH] + a[MAX_BATCH..][..MAX_BATCH * (k - 1)] == a[..MAX_BATCH * k];
    }
  }

  /** The worlds after each of a sequence of syncs, one after another, of any users. */
  function AfterRuns(w: World, runs: seq<Run>): World {
    if runs == [] then w else SyncResult(AfterRuns(w, runs[..|runs| - 1]), runs[|runs| - 1]).0
  }

  function FailedRuns(w: World, runs: seq<Run>): nat {
    if runs == [] then 0
    else
      var before := runs[..|runs| - 1];
      FailedRuns(w, before) + if SyncResult(AfterRuns(w, before), runs[|runs| - 1]).1 == PublishFailed then 1 else 0
  }

  lemma TwiceCountsTwo(s: seq<Email>, i: nat, j: nat)
    requires i < j < |s| && s[i] == s[j]
    ensures multiset(s)[s[i]] >= 2
  {
    assert s == s[..i] + [s[i]] + s[i + 1..j] + [s[j]] + s[j + 1..];
  }

  lemma DistinctCountsOne(s: seq<Email>, e: Email)
    requires Distinct(s)
    ensures multiset(s)[e] <= 1
  {
    if e in s {
      var i :| 0 <= i < |s| && s[i] == e;
      var others := s[..i] + s[i + 1..];
      assert s == s[..i] + [e] + s[i + 1..];
      assert multiset(s) == multiset(others) + multiset{e};
      forall k | 0 <= k < |others| ensures others[k] != e {
        assert others[k] == s[if k < i then k else k + 1];
      }
    }
  }

  lemma PublishedDistinct(w: World, stranded: multiset<Email>)
    requires Distinct(w.emails) && Accounted(w, stranded)
    ensures Distinct(Rows(Flatten(w.published)))
  {
    var p := Rows(Flatten(w.published));
    forall i, j | 0 <= i < j < |p| ensures !SameMessage(p[i], p[j]) {
      assert p[i] in multiset(p) && p[j] in multiset(p);
      assert p[i] in multiset(w.emails) && p[j] in multiset(w.emails);
      DistinctCountsOne(w.emails, p[i]);
      if p[i] == p[j] { TwiceCountsTwo(p, i, j); }
    }
  }

  /**
   Over any sequence of syncs no message is saved or published twice, and every saved message is
   in a published batch or stranded; each sync whose publication failed strands at most seven.
   */
  lemma {:induction false} PublishedAtMostOnce(stamps: F.Stamps, runs: seq<Run>) returns (stranded: multiset<Email>)
    ensures var w := AfterRuns(World([], [], stamps), runs);
      && Distinct(w.emails) && Distinct(Rows(Flatten(w.published)))
      && Accounted(w, stranded)
      && |stranded| <= 7 * FailedRuns(World([], [], stamps), runs)
  {
    var start := World([], [], stamps);
    if runs == [] {
      stranded := multiset{};
      assert AfterRuns(start, runs) == start;
    } else {
      var before := AfterRuns(start, runs[..|runs| - 1]);
      var run := runs[|runs| - 1];
      stranded := PublishedAtMostOnce(stamps, runs[..|runs| - 1]);
      var saved, batches, lost := SyncAdds(before, run);
      var all := if run.fetched.Some? then Accepted(before.emails, run.user, run.fetched.value) else [];
      if run.fetched.Some? {
        AcceptedKeepsDistinct(before.emails, run.user, run.fetched.value);
      } else {
        assert before.emails + Rows(all) == before.emails;
      }
      DistinctPrefix(before.emails, Rows(all), |saved|);
      assert Rows(all)[..|saved|] == Rows(saved);
      FlattenAppend(before.published, batches);
      RowsAppend(Flatten(before.published), Flatten(batches));
      RowsAppend(Flatten(batches), lost);
      stranded := stranded + multiset(Rows(lost));
    }
    PublishedDistinct(AfterRuns(start, runs), stranded);
  }

  // ---------------------------------------------------------------- the syncs of one cycle

  /** The integrations whose sync ended well. */
  function SyncedIn(w: World, runs: seq<Run>): set<Id> {
    if runs == [] then {}
    else
      var before := runs[..|runs| - 1];
      var last := runs[|runs| - 1];
      SyncedIn(w, before) + if SyncResult(AfterRuns(w, before), last).1 == Synced then {last.integration} else {}
  }

  lemma {:induction false} StampsAfter(w: World, runs: seq<Run>, now: map<Id, Time>)
    requires w.stamps.Keys <= now.Keys
    requires forall i | 0 <= i < |runs| :: runs[i].integration in w.stamps && now[runs[i].integration] == runs[i].now
    ensures F.AfterSyncs(w.stamps, SyncedIn(w, runs), now, AfterRuns(w, runs).stamps)
    ensures forall x | x in SyncedIn(w, runs) :: exists i | 0 <= i < |runs| :: runs[i].integration == x
  {
    if runs != [] {
      var before := runs[..|runs| - 1];
      var last := runs[|runs| - 1];
      StampsAfter(w, before, now);
      OutcomeOf(AfterRuns(w, before), last);
      forall x | x in SyncedIn(w, runs) ensures exists i | 0 <= i < |runs| :: runs[i].integration == x {
        if x in SyncedIn(w, before) {
          var i :| 0 <= i < |before| && before[i].integration == x;
          assert runs[i].integration == x;
        } else {
          assert last.integration == x;
        }
      }
    }
  }

  /**
   The syncs of the integrations picked, in any order, make a cycle of the scheduler: those that end
   well are stamped later than every stamp there was, and all others keep their place.
   */
  lemma SyncsMakeCycle(w: World, runs: seq<Run>, batchSize: nat, picked: set<Id>, now: map<Id, Time>)
    requires F.IsPick(w.stamps, batchSize, picked)
    requires w.stamps.Keys <= now.Keys
    requires forall i | 0 <= i < |runs| :: runs[i].integration in picked && runs[i].now == now[runs[i].integration]
    requires forall x, y | x in now && y in w.stamps && w.stamps[y].Some? :: w.stamps[y].value < now[x]
    ensures F.IsCycle(w.stamps, batchSize, F.Cycle(picked, SyncedIn(w, runs)), AfterRuns(w, runs).stamps)
  {
    StampsAfter(w, runs, now);
    F.StampedIsCycle(w.stamps, batchSize, picked, SyncedIn(w, runs), now, AfterRuns(w, runs).stamps);
  }
}
