/** The collector's database layer and its message handler, as they change the `tasks` table in place. */
module Collector {
  import opened Prelude
  import opened TaskTable
  import opened TaskQuery

  datatype DbError = TaskNotFound | ConstraintViolation | ConnectionError | BadMessage

  /** How a statement goes wrong: not executed, or executed with its row count lost on the way back. */
  datatype Fault = NoFault | StatementFails | CountLost

  /** How reading rows goes wrong: the query fails, the scan of one row fails, or the connection ends before one row. */
  datatype ReadFault = ReadFault(queryFails: bool, scanFailsAt: nat, endsAt: nat)

  /** The row of this id belongs to this user. */
  ghost predicate IsRow(tasks: seq<Task>, id: Id, user: Id) {
    exists i | 0 <= i < |tasks| :: tasks[i].id == id && tasks[i].user == user
  }

  class TaskDb {
    var tasks: seq<Task>

    /** The primary key and the unique index over email and user. */
    ghost predicate Valid()
      reads this
    {
      UniqueRows(tasks)
    }

    constructor ()
      ensures Valid() && tasks == []
    {
      tasks := [];
    }

    /** None is a query that fails. */
    method TaskExists(emailId: Id, user: Id, fails: bool) returns (found: Option<bool>)
      ensures found.None? <==> fails
      ensures found.Some? ==>
        (found.value <==> exists i | 0 <= i < |tasks| :: tasks[i].emailId == emailId && tasks[i].user == user)
    {
      if fails {
        return None;
      }
      found := Some(exists i | 0 <= i < |tasks| :: tasks[i].emailId == emailId && tasks[i].user == user);
    }

    method CreateTask(t: Task, fails: bool) returns (err: Option<DbError>)
      requires Valid()
      modifies this
      ensures Valid() && tasks == if fails then old(tasks) else ApplyOp(old(tasks), Insert(t))
      ensures err.None? <==> !fails && forall i | 0 <= i < |old(tasks)| ::
        old(tasks)[i].id != t.id && !(old(tasks)[i].emailId == t.emailId && old(tasks)[i].user == t.user)
      ensures tasks == old(tasks) + if err.None? then [t] else []
      ensures err == Some(ConnectionError) <==> fails
    {
      if fails {
        return Some(ConnectionError);
      }
      OpKeepsUnique(tasks, Insert(t));
      if exists i | 0 <= i < |tasks| ::
        tasks[i].id == t.id || (tasks[i].emailId == t.emailId && tasks[i].user == t.user) {
        return Some(ConstraintViolation);
      }
      tasks := tasks + [t];
      err := None;
    }

    /**
     The compiled query, run on the table, gives what the filter describes; None is an error. The
     loop over the rows does not ask why it ended, so a connection that ends early gives a shorter
     answer and no error.
     */
    method GetUserTasks(f: TaskFilter, fault: ReadFault) returns (result: Option<seq<Task>>)
      ensures var all := Selected(tasks, f);
        var arriving := Min(fault.endsAt, |all|);
        result == if fault.queryFails || fault.scanFailsAt < arriving then None else Some(all[..arriving])
    {
      var q, args := BuildSelect(f);
      SelectMeansFilter(tasks, f, q, args);
      if fault.queryFails {
        return None;
      }
      var rows := Answer(tasks, q, args);
      var read: seq<Task> := [];
      while |read| < |rows| && |read| < fault.endsAt
        invariant |read| <= |rows| && |read| <= fault.endsAt && |read| <= fault.scanFailsAt && read == rows[..|read|]
      {
        if |read| == fault.scanFailsAt {
          return None;
        }
        read := read + [rows[|read|]];
      }
      result := Some(read);
    }

    /** What a statement reports: not found if it changed no row. */
    function Report(fault: Fault, found: bool): Option<DbError> {
      if !fault.NoFault? then Some(ConnectionError) else if found then None else Some(TaskNotFound)
    }

    /** The compiled update does to the table what the patch says; not found is a non-empty patch without a row. */
    method UpdateTask(id: Id, user: Id, p: Patch, dbNow: Time, appNow: Time, fault: Fault)
      returns (err: Option<DbError>)
      requires Valid()
      modifies this
      ensures Valid()
      ensures tasks ==
        if fault.StatementFails? then old(tasks) else ApplyOp(old(tasks), Update(id, user, p, dbNow, appNow))
      ensures p == Patch(None, None, None, None, None) || fault.StatementFails? ==> tasks == old(tasks)
      ensures |tasks| == |old(tasks)|
      ensures p != Patch(None, None, None, None, None) && !fault.StatementFails? ==> forall k | 0 <= k < |tasks| ::
        var was := old(tasks)[k];
        if was.id == id && was.user == user then
          tasks[k] == Task(
            was.id, was.user, was.emailId,
            if p.title.Some? then p.title.value else was.title,
            if p.description.Some? then p.description.value else was.description,
            if p.deadline.Some? then p.deadline else was.deadline,
            if p.status.Some? then p.status.value else was.status,
            if p.priority.Some? then p.priority.value else was.priority,
            was.createdAt, dbNow, if p.status == Some("completed") then Some(appNow) else was.completedAt)
        else tasks[k] == was
      ensures err.None? <==> p == Patch(None, None, None, None, None) || (fault.NoFault? && IsRow(old(tasks), id, user))
      ensures err == Some(TaskNotFound) <==>
        p != Patch(None, None, None, None, None) && fault.NoFault? && !IsRow(old(tasks), id, user)
    {
      OpKeepsUnique(tasks, Update(id, user, p, dbNow, appNow));
      var u, args := BuildUpdate(id, user, p, appNow);
      if u.None? {
        return None;
      }
      if fault.StatementFails? {
        return Some(ConnectionError);
      }
      UpdateMeansPatch(tasks, u.value, args, id, user, p, dbNow, appNow);
      var found := exists i | 0 <= i < |tasks| :: Owns(tasks[i], id, user);
      tasks := Execute(tasks, u.value, args, dbNow);
      err := Report(fault, found);
    }

    method CompleteTask(id: Id, user: Id, now: Time, fault: Fault) returns (err: Option<DbError>)
      requires Valid()
      modifies this
      ensures Valid()
      ensures tasks == if fault.StatementFails? then old(tasks) else ApplyOp(old(tasks), Complete(id, user, now))
      ensures fault.StatementFails? ==> tasks == old(tasks)
      ensures |tasks| == |old(tasks)|
      ensures !fault.StatementFails? ==> forall k | 0 <= k < |tasks| ::
        var was := old(tasks)[k];
        tasks[k] == if was.id == id && was.user == user
          then was.(status := "completed", completedAt := Some(now), updatedAt := now) else was
      ensures err.None? <==> fault.NoFault? && IsRow(old(tasks), id, user)
      ensures err == Some(TaskNotFound) <==> fault.NoFault? && !IsRow(old(tasks), id, user)
    {
      if fault.StatementFails? {
        return Some(ConnectionError);
      }
      OpKeepsUnique(tasks, Complete(id, user, now));
      var found := exists i | 0 <= i < |tasks| :: Owns(tasks[i], id, user);
      tasks := UpdateRow(tasks, id, user, t => Completed(t, now));
      err := Report(fault, found);
    }

    method DeleteTask(id: Id, user: Id, fault: Fault) returns (err: Option<DbError>)
      requires Valid()
      modifies this
      ensures Valid()
      ensures tasks == if fault.StatementFails? then old(tasks) else ApplyOp(old(tasks), Delete(id, user))
      ensures fault.StatementFails? || !IsRow(old(tasks), id, user) ==> tasks == old(tasks)
      ensures !fault.StatementFails? ==> forall k | 0 <= k < |old(tasks)| ::
        old(tasks)[k].id == id && old(tasks)[k].user == user ==> tasks == old(tasks)[..k] + old(tasks)[k + 1..]
      ensures err.None? <==> fault.NoFault? && IsRow(old(tasks), id, user)
      ensures err == Some(TaskNotFound) <==> fault.NoFault? && !IsRow(old(tasks), id, user)
    {
      if fault.StatementFails? {
        return Some(ConnectionError);
      }
      OpKeepsUnique(tasks, Delete(id, user));
      DeletesThatRow(tasks, id, user);
      var found := exists i | 0 <= i < |tasks| :: Owns(tasks[i], id, user);
      tasks := DeleteRow(tasks, id, user);
      err := Report(fault, found);
    }
  }

  /** A parsed email as it arrives; None is a body that cannot be decoded. */
  datatype Parsed = Parsed(user: Id, emailId: Id, title: string, description: string, deadline: Time)

  function NewTask(p: Parsed, id: Id, priority: string, now: Time): Task {
    Task(id, p.user, p.emailId, p.title, p.description, Some(p.deadline), PENDING, priority, now, now, None)
  }

  class TaskService {
    const db: TaskDb

    constructor (db: TaskDb)
      ensures this.db == db
    {
      this.db := db;
    }

    /** `freshId` is the generated id, `priority` is what the deadline gives,
        and the two flags are connection errors. */
    method HandleEmailMessage(body: Option<Parsed>, freshId: Id, priority: string, now: Time,
                              checkFails: bool, insertFails: bool)
      returns (err: Option<DbError>)
      requires db.Valid()
      modifies db
      ensures db.Valid()
      ensures var before := old(db.tasks);
        var known := body.Some?
          && exists i | 0 <= i < |before| ::
               before[i].emailId == body.value.emailId && before[i].user == body.value.user;
        && (err.None? <==>
              body.Some? && !checkFails
              && (known || (!insertFails && forall i | 0 <= i < |before| :: before[i].id != freshId)))
        && db.tasks == before + if err.None? && !known
             then [Task(freshId, body.value.user, body.value.emailId, body.value.title, body.value.description,
                        Some(body.value.deadline), "pending", priority, now, now, None)]
             else []
    {
      if body.None? {
        return Some(BadMessage);
      }
      var data := body.value;
      var known := db.TaskExists(data.emailId, data.user, checkFails);
      if known.None? {
        return Some(ConnectionError);
      }
      if known.value {
        return None;
      }
      var task := NewTask(data, freshId, priority, now);
      err := db.CreateTask(task, insertFails);
    }
  }
}
