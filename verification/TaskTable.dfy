/** The `tasks` table of the collector: its rows, what each statement does to them, and whole histories. */
module TaskTable {
  import opened Prelude

  type Id = nat
  type Time = int

  const COMPLETED := "completed"
  const PENDING := "pending"

  datatype Task = Task(
    id: Id, user: Id, emailId: Id, title: string, description: string, deadline: Option<Time>,
    status: string, priority: string, createdAt: Time, updatedAt: Time, completedAt: Option<Time>)

  /** `UpdateTaskRequest`: a field that is None is left alone. */
  datatype Patch = Patch(
    title: Option<string>, description: Option<string>, deadline: Option<Time>,
    status: Option<string>, priority: Option<string>)

  function GetOr<T>(o: Option<T>, default: T): T {
    if o.Some? then o.value else default
  }

  predicate IsEmpty(p: Patch) {
    p == Patch(None, None, None, None, None)
  }

  /** The row after a patch; `dbNow` is the database's clock and `appNow` the service's. */
  function Patched(t: Task, p: Patch, dbNow: Time, appNow: Time): Task {
    t.(title := GetOr(p.title, t.title),
       description := GetOr(p.description, t.description),
       deadline := if p.deadline.Some? then p.deadline else t.deadline,
       status := GetOr(p.status, t.status),
       priority := GetOr(p.priority, t.priority),
       updatedAt := dbNow,
       completedAt := if p.status == Some(COMPLETED) then Some(appNow) else t.completedAt)
  }

  function Completed(t: Task, now: Time): Task {
    t.(status := COMPLETED, completedAt := Some(now), updatedAt := now)
  }

  predicate Owns(t: Task, id: Id, user: Id) {
    t.id == id && t.user == user
  }

  predicate HasRow(tasks: seq<Task>, id: Id, user: Id) {
    exists i | 0 <= i < |tasks| :: Owns(tasks[i], id, user)
  }

  predicate HasKey(tasks: seq<Task>, emailId: Id, user: Id) {
    exists i | 0 <= i < |tasks| :: tasks[i].emailId == emailId && tasks[i].user == user
  }

  predicate HasId(tasks: seq<Task>, id: Id) {
    exists i | 0 <= i < |tasks| :: tasks[i].id == id
  }

  /** An UPDATE or DELETE, restricted to one row of one user. */
  function UpdateRow(tasks: seq<Task>, id: Id, user: Id, f: Task -> Task): (r: seq<Task>)
    ensures |r| == |tasks|
    ensures forall i | 0 <= i < |tasks| :: r[i] == if Owns(tasks[i], id, user) then f(tasks[i]) else tasks[i]
  {
    seq(|tasks|, i requires 0 <= i < |tasks| => if Owns(tasks[i], id, user) then f(tasks[i]) else tasks[i])
  }

  function DeleteRow(tasks: seq<Task>, id: Id, user: Id): seq<Task> {
    if tasks == [] then []
    else (if Owns(tasks[0], id, user) then [] else [tasks[0]]) + DeleteRow(tasks[1..], id, user)
  }

  /** The statements of the collector, with the clock readings they make. */
  datatype Op =
    | Insert(task: Task)
    | Update(id: Id, user: Id, patch: Patch, dbNow: Time, appNow: Time)
    | Complete(id: Id, user: Id, now: Time)
    | Delete(id: Id, user: Id)

  function UserOf(op: Op): Id {
    match op
    case Insert(t) => t.user
    case _ => op.user
  }

  /** An insert fails on the primary key or on the unique index over email and user. */
  predicate CanInsert(tasks: seq<Task>, t: Task) {
    !HasId(tasks, t.id) && !HasKey(tasks, t.emailId, t.user)
  }

  function ApplyOp(tasks: seq<Task>, op: Op): seq<Task> {
    match op
    case Insert(t) => if CanInsert(tasks, t) then tasks + [t] else tasks
    case Update(id, user, p, dbNow, appNow) =>
      if IsEmpty(p) then tasks else UpdateRow(tasks, id, user, t => Patched(t, p, dbNow, appNow))
    case Complete(id, user, now) => UpdateRow(tasks, id, user, t => Completed(t, now))
    case Delete(id, user) => DeleteRow(tasks, id, user)
  }

  function Run(tasks: seq<Task>, ops: seq<Op>): seq<Task> {
    if ops == [] then tasks else ApplyOp(Run(tasks, ops[..|ops| - 1]), ops[|ops| - 1])
  }

  ghost predicate UniqueRows(tasks: seq<Task>) {
    && (forall i, j | 0 <= i < |tasks| && 0 <= j < |tasks| && tasks[i].id == tasks[j].id :: i == j)
    && (forall i, j | 0 <= i < |tasks| && 0 <= j < |tasks| && tasks[i].emailId == tasks[j].emailId
                      && tasks[i].user == tasks[j].user :: i == j)
  }

  lemma {:induction false} DeleteKeepsRows(tasks: seq<Task>, id: Id, user: Id, t: Task)
    ensures t in DeleteRow(tasks, id, user) <==> t in tasks && !Owns(t, id, user)
  {
    if tasks != [] {
      DeleteKeepsRows(tasks[1..], id, user, t);
    }
  }

  lemma {:induction false} DeletesNothing(tasks: seq<Task>, id: Id, user: Id)
    requires forall i | 0 <= i < |tasks| :: !(tasks[i].id == id && tasks[i].user == user)
    ensures DeleteRow(tasks, id, user) == tasks
  {
    if tasks != [] {
      DeletesNothing(tasks[1..], id, user);
    }
  }

  lemma {:induction false} DeletesRowAt(tasks: seq<Task>, id: Id, user: Id, k: nat)
    requires k < |tasks| && tasks[k].id == id && tasks[k].user == user
    requires forall i | 0 <= i < |tasks| && i != k :: tasks[i].id != id
    ensures DeleteRow(tasks, id, user) == tasks[..k] + tasks[k + 1..]
  {
    if k == 0 {
      DeletesNothing(tasks[1..], id, user);
    } else {
      DeletesRowAt(tasks[1..], id, user, k - 1);
      assert tasks[1..][..k - 1] == tasks[1..k] && tasks[1..][k..] == tasks[k + 1..];
      assert tasks[..k] == [tasks[0]] + tasks[1..k];
    }
  }

  /** A DELETE takes out the one row and closes the gap, or does nothing. */
  lemma DeletesThatRow(tasks: seq<Task>, id: Id, user: Id)
    requires UniqueRows(tasks)
    ensures (forall i | 0 <= i < |tasks| :: !(tasks[i].id == id && tasks[i].user == user)) ==>
      DeleteRow(tasks, id, user) == tasks
    ensures forall k | 0 <= k < |tasks| && tasks[k].id == id && tasks[k].user == user ::
      DeleteRow(tasks, id, user) == tasks[..k] + tasks[k + 1..]
  {
    if forall i | 0 <= i < |tasks| :: !(tasks[i].id == id && tasks[i].user == user) {
      DeletesNothing(tasks, id, user);
    }
    forall k | 0 <= k < |tasks| && tasks[k].id == id && tasks[k].user == user
      ensures DeleteRow(tasks, id, user) == tasks[..k] + tasks[k + 1..]
    {
      DeletesRowAt(tasks, id, user, k);
    }
  }

  lemma {:induction false} DeleteKeepsUnique(tasks: seq<Task>, id: Id, user: Id)
    requires UniqueRows(tasks)
    ensures UniqueRows(DeleteRow(tasks, id, user))
  {
    if tasks != [] {
      var rest := DeleteRow(tasks[1..], id, user);
      DeleteKeepsUnique(tasks[1..], id, user);
      forall k | 0 <= k < |rest| ensures rest[k] in tasks[1..] {
        DeleteKeepsRows(tasks[1..], id, user, rest[k]);
      }
    }
  }

  lemma OpKeepsUnique(tasks: seq<Task>, op: Op)
    requires UniqueRows(tasks)
    ensures UniqueRows(ApplyOp(tasks, op))
  {
    if op.Delete? {
      DeleteKeepsUnique(tasks, op.id, op.user);
    }
  }

  // ---------------------------------------------------------------- histories

  /** New tasks are pending, as `HandleEmailMessage` makes them. */
  predicate InsertsPending(ops: seq<Op>) {
    forall k | 0 <= k < |ops| && ops[k].Insert? :: ops[k].task.status == PENDING && ops[k].task.completedAt == None
  }

  /** The operation completes the row, or keeps it completed. */
  predicate Completes(op: Op, t: Task) {
    match op
    case Insert(_) => false
    case Update(id, user, p, _, _) => Owns(t, id, user) && p.status == Some(COMPLETED)
    case Complete(id, user, _) => Owns(t, id, user)
    case Delete(_, _) => false
  }

  function CompletedBy(tasks: seq<Task>, op: Op): set<Id> {
    set i | 0 <= i < |tasks| && Completes(op, tasks[i]) :: tasks[i].id
  }

  /** The ids of rows completed at some time since they were inserted. */
  function EverCompleted(ops: seq<Op>): set<Id> {
    if ops == [] then {}
    else
      var before := EverCompleted(ops[..|ops| - 1]);
      var tasks := Run([], ops[..|ops| - 1]);
      var op := ops[|ops| - 1];
      if op.Insert? then (if CanInsert(tasks, op.task) then before - {op.task.id} else before)
      else before + CompletedBy(tasks, op)
  }

  /** `ever` is the set of ids ever completed. */
  ghost predicate HistoryHolds(tasks: seq<Task>, ever: set<Id>) {
    forall t | t in tasks :: (t.status == COMPLETED ==> t.completedAt.Some?) && (t.completedAt.Some? <==> t.id in ever)
  }

  /** With unique ids, a row's id is among the completed ones exactly if the operation completes that row. */
  lemma SameRow(tasks: seq<Task>, op: Op, k: nat)
    requires UniqueRows(tasks) && k < |tasks|
    ensures Completes(op, tasks[k]) <==> tasks[k].id in CompletedBy(tasks, op)
  {
  }

  lemma InsertHistory(tasks: seq<Task>, ever: set<Id>, task: Task)
    requires HistoryHolds(tasks, ever) && CanInsert(tasks, task) && task.status == PENDING && task.completedAt == None
    ensures HistoryHolds(tasks + [task], ever - {task.id})
  {
    forall t | t in tasks ensures t.id != task.id {
      var k :| 0 <= k < |tasks| && tasks[k] == t;
    }
  }

  lemma UpdateHistory(tasks: seq<Task>, ever: set<Id>, op: Op)
    requires UniqueRows(tasks) && HistoryHolds(tasks, ever) && (op.Update? || op.Complete?)
    ensures HistoryHolds(ApplyOp(tasks, op), ever + CompletedBy(tasks, op))
  {
    var now := ApplyOp(tasks, op);
    forall k | 0 <= k < |now|
      ensures now[k].status == COMPLETED ==> now[k].completedAt.Some?
      ensures now[k].completedAt.Some? <==> now[k].id in ever + CompletedBy(tasks, op)
    {
      assert tasks[k] in tasks;
      SameRow(tasks, op, k);
    }
  }

  lemma DeleteHistory(tasks: seq<Task>, ever: set<Id>, op: Op)
    requires HistoryHolds(tasks, ever) && op.Delete?
    ensures HistoryHolds(ApplyOp(tasks, op), ever + CompletedBy(tasks, op))
  {
    forall t | t in ApplyOp(tasks, op) ensures t in tasks {
      DeleteKeepsRows(tasks, op.id, op.user, t);
    }
  }

  /**
   Over every history of inserts, updates, completions and deletes: ids and keys are unique, a
   completed task has a completion time, and a task has a completion time exactly if it was ever
   completed, whatever its status is now.
   */
  lemma {:induction false} Lifecycle(ops: seq<Op>)
    requires InsertsPending(ops)
    ensures UniqueRows(Run([], ops)) && HistoryHolds(Run([], ops), EverCompleted(ops))
  {
    if ops != [] {
      var tasks := Run([], ops[..|ops| - 1]);
      var ever := EverCompleted(ops[..|ops| - 1]);
      var op := ops[|ops| - 1];
      Lifecycle(ops[..|ops| - 1]);
      OpKeepsUnique(tasks, op);
      match op {
        case Insert(task) => if CanInsert(tasks, task) { InsertHistory(tasks, ever, task); }
        case Delete(_, _) => DeleteHistory(tasks, ever, op);
        case _ => UpdateHistory(tasks, ever, op);
      }
    }
  }

  /** The other direction fails: reopening a completed task keeps its completion time. */
  lemma ReopenedKeepsCompletionTime(t: Task, now: Time)
    requires t.status == PENDING && t.completedAt == None
    ensures var reopened := Run([], [Insert(t), Complete(t.id, t.user, now),
                                     Update(t.id, t.user, Patch(None, None, None, Some(PENDING), None), now, now)]);
      |reopened| == 1 && reopened[0].status == PENDING && reopened[0].completedAt == Some(now)
  {
    var ops := [Insert(t), Complete(t.id, t.user, now),
                Update(t.id, t.user, Patch(None, None, None, Some(PENDING), None), now, now)];
    assert ops[..2][..1][..0] == [];
    assert ops[..2][..1] == [Insert(t)];
    assert Run([], ops[..2][..1]) == [t];
    assert Run([], ops[..2]) == [Completed(t, now)];
  }

  /** The rows of everyone but `user`. */
  function Others(tasks: seq<Task>, user: Id): seq<Task> {
    if tasks == [] then []
    else (if tasks[0].user == user then [] else [tasks[0]]) + Others(tasks[1..], user)
  }

  lemma {:induction false} OthersAppend(a: seq<Task>, b: seq<Task>, user: Id)
    ensures Others(a + b, user) == Others(a, user) + Others(b, user)
  {
    if a == [] {
      assert a + b == b;
    } else {
      assert (a + b)[1..] == a[1..] + b;
      OthersAppend(a[1..], b, user);
    }
  }

  lemma {:induction false} UpdateKeepsOthers(tasks: seq<Task>, id: Id, user: Id, f: Task -> Task)
    requires forall t :: f(t).user == t.user
    ensures Others(UpdateRow(tasks, id, user, f), user) == Others(tasks, user)
  {
    if tasks != [] {
      assert UpdateRow(tasks, id, user, f)[1..] == UpdateRow(tasks[1..], id, user, f);
      UpdateKeepsOthers(tasks[1..], id, user, f);
    }
  }

  lemma {:induction false} DeleteKeepsOthers(tasks: seq<Task>, id: Id, user: Id)
    ensures Others(DeleteRow(tasks, id, user), user) == Others(tasks, user)
  {
    if tasks != [] {
      DeleteKeepsOthers(tasks[1..], id, user);
      if !Owns(tasks[0], id, user) {
        assert DeleteRow(tasks, id, user)[1..] == DeleteRow(tasks[1..], id, user);
      } else {
        assert DeleteRow(tasks, id, user) == DeleteRow(tasks[1..], id, user);
      }
    }
  }

  /** No operation of one user changes, adds, removes or reorders a row of another. */
  lemma {:induction false} UsersAreIsolated(tasks: seq<Task>, ops: seq<Op>, user: Id)
    requires forall k | 0 <= k < |ops| :: UserOf(ops[k]) == user
    ensures Others(Run(tasks, ops), user) == Others(tasks, user)
  {
    if ops != [] {
      var before := Run(tasks, ops[..|ops| - 1]);
      UsersAreIsolated(tasks, ops[..|ops| - 1], user);
      match ops[|ops| - 1] {
        case Insert(t) => OthersAppend(before, [t], user);
        case Update(id, u, p, dbNow, appNow) => UpdateKeepsOthers(before, id, u, t => Patched(t, p, dbNow, appNow));
        case Complete(id, u, now) => UpdateKeepsOthers(before, id, u, t => Completed(t, now));
        case Delete(id, u) => DeleteKeepsOthers(before, id, u);
      }
    }
  }
}
