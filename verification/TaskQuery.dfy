/**
 The statements the collector builds from a filter or a patch: clauses with numbered placeholders
 next to a list of arguments, with the meaning a database gives to them. A statement is kept as
 the list of its clauses; `$k` is the argument with number k, counting from 1.
 */
module TaskQuery {
  import opened Prelude
  import opened TaskTable

  datatype Value = Text(s: string) | Instant(t: Time) | Number(n: int) | Key(id: Id)

  datatype Column = RowId | UserId | Title | Description | Deadline | Status | Priority | UpdatedAt | CompletedAt

  datatype Comparison = Equal | AtLeast | AtMost

  datatype Condition = Condition(column: Column, comparison: Comparison, arg: nat)

  /** SELECT ... WHERE the conjunction ORDER BY deadline ASC NULLS LAST, created_at DESC LIMIT $ OFFSET $ */
  datatype Select = Select(conditions: seq<Condition>, limit: Option<nat>, offset: Option<nat>)

  datatype SetPart = SetNow(column: Column) | SetArg(column: Column, arg: nat)

  /** UPDATE tasks SET the parts WHERE id = $ AND user_id = $ */
  datatype UpdateStatement = UpdateStatement(parts: seq<SetPart>, idArg: nat, userArg: nat)

  datatype TaskFilter = TaskFilter(
    user: Id, status: Option<string>, priority: Option<string>,
    fromDeadline: Option<Time>, toDeadline: Option<Time>, limit: int, offset: int)

  // ---------------------------------------------------------------- meaning of statements

  /** None is NULL. */
  function Read(t: Task, column: Column): Option<Value> {
    match column
    case RowId => Some(Key(t.id))
    case UserId => Some(Key(t.user))
    case Title => Some(Text(t.title))
    case Description => Some(Text(t.description))
    case Deadline => if t.deadline.Some? then Some(Instant(t.deadline.value)) else None
    case Status => Some(Text(t.status))
    case Priority => Some(Text(t.priority))
    case UpdatedAt => Some(Instant(t.updatedAt))
    case CompletedAt => if t.completedAt.Some? then Some(Instant(t.completedAt.value)) else None
  }

  /** A comparison with NULL is not true. */
  predicate Satisfies(v: Option<Value>, comparison: Comparison, arg: Value) {
    v.Some? &&
    match comparison
    case Equal => v.value == arg
    case AtLeast => v.value.Instant? && arg.Instant? && v.value.t >= arg.t
    case AtMost => v.value.Instant? && arg.Instant? && v.value.t <= arg.t
  }

  predicate Bound(args: seq<Value>, k: nat) {
    1 <= k <= |args|
  }

  predicate Where(conditions: seq<Condition>, args: seq<Value>, t: Task) {
    forall i | 0 <= i < |conditions| ::
      Bound(args, conditions[i].arg)
      && Satisfies(Read(t, conditions[i].column), conditions[i].comparison, args[conditions[i].arg - 1])
  }

  function FilterRows(tasks: seq<Task>, p: Task -> bool): seq<Task> {
    if tasks == [] then [] else (if p(tasks[0]) then [tasks[0]] else []) + FilterRows(tasks[1..], p)
  }

  /** deadline ASC NULLS LAST, created_at DESC */
  predicate InOrder(a: Task, b: Task) {
    if a.deadline == b.deadline then a.createdAt >= b.createdAt
    else a.deadline.Some? && (b.deadline.None? || a.deadline.value < b.deadline.value)
  }

  /** Rows that tie keep the order of the table. */
  function InsertRow(t: Task, rows: seq<Task>): seq<Task> {
    if rows == [] || InOrder(t, rows[0]) then [t] + rows else [rows[0]] + InsertRow(t, rows[1..])
  }

  function OrderRows(rows: seq<Task>): seq<Task> {
    if rows == [] then [] else InsertRow(rows[0], OrderRows(rows[1..]))
  }

  function Page(rows: seq<Task>, limit: Option<int>, offset: Option<int>): seq<Task> {
    var from := if offset.Some? then Min(Max(0, offset.value), |rows|) else 0;
    var rest := rows[from..];
    if limit.Some? && 0 <= limit.value < |rest| then rest[..limit.value] else rest
  }

  function NumberArg(args: seq<Value>, k: Option<nat>): Option<int> {
    if k.Some? && Bound(args, k.value) && args[k.value - 1].Number? then Some(args[k.value - 1].n) else None
  }

  function Answer(tasks: seq<Task>, q: Select, args: seq<Value>): seq<Task> {
    Page(OrderRows(FilterRows(tasks, t => Where(q.conditions, args, t))),
         NumberArg(args, q.limit), NumberArg(args, q.offset))
  }

  function Write(t: Task, column: Column, v: Value): Task {
    match column
    case Title => if v.Text? then t.(title := v.s) else t
    case Description => if v.Text? then t.(description := v.s) else t
    case Deadline => if v.Instant? then t.(deadline := Some(v.t)) else t
    case Status => if v.Text? then t.(status := v.s) else t
    case Priority => if v.Text? then t.(priority := v.s) else t
    case UpdatedAt => if v.Instant? then t.(updatedAt := v.t) else t
    case CompletedAt => if v.Instant? then t.(completedAt := Some(v.t)) else t
    case _ => t
  }

  function WriteIf(t: Task, column: Column, v: Option<Value>): Task {
    if v.Some? then Write(t, column, v.value) else t
  }

  function SetOne(t: Task, part: SetPart, args: seq<Value>, now: Time): Task {
    match part
    case SetNow(column) => Write(t, column, Instant(now))
    case SetArg(column, k) => if Bound(args, k) then Write(t, column, args[k - 1]) else t
  }

  function SetAll(t: Task, parts: seq<SetPart>, args: seq<Value>, now: Time): Task {
    if parts == [] then t else SetOne(SetAll(t, parts[..|parts| - 1], args, now), parts[|parts| - 1], args, now)
  }

  function Execute(tasks: seq<Task>, u: UpdateStatement, args: seq<Value>, now: Time): seq<Task> {
    if Bound(args, u.idArg) && Bound(args, u.userArg) && args[u.idArg - 1].Key? && args[u.userArg - 1].Key? then
      UpdateRow(tasks, args[u.idArg - 1].id, args[u.userArg - 1].id, t => SetAll(t, u.parts, args, now))
    else tasks
  }

  // ---------------------------------------------------------------- meaning of filters

  predicate Matches(f: TaskFilter, t: Task) {
    && t.user == f.user
    && (f.status.Some? ==> t.status == f.status.value)
    && (f.priority.Some? ==> t.priority == f.priority.value)
    && (f.fromDeadline.Some? ==> t.deadline.Some? && f.fromDeadline.value <= t.deadline.value)
    && (f.toDeadline.Some? ==> t.deadline.Some? && t.deadline.value <= f.toDeadline.value)
  }

  function Positive(n: int): Option<int> {
    if n > 0 then Some(n) else None
  }

  function Selected(tasks: seq<Task>, f: TaskFilter): seq<Task> {
    Page(OrderRows(FilterRows(tasks, t => Matches(f, t))), Positive(f.limit), Positive(f.offset))
  }

  // ---------------------------------------------------------------- building statements

  function Numbers(n: nat): (r: seq<nat>)
    ensures |r| == n
  {
    seq(n, i requires i >= 0 => i + 1)
  }

  function ConditionArgs(conditions: seq<Condition>): (r: seq<nat>)
    ensures |r| == |conditions|
  {
    seq(|conditions|, i requires 0 <= i < |conditions| => conditions[i].arg)
  }

  function OptionalArg(k: Option<nat>): seq<nat> {
    if k.Some? then [k.value] else []
  }

  /** The placeholders of a statement, in the order of its text. */
  function SelectArgs(q: Select): seq<nat> {
    ConditionArgs(q.conditions) + OptionalArg(q.limit) + OptionalArg(q.offset)
  }

  function SetArgs(parts: seq<SetPart>): seq<nat> {
    if parts == [] then []
    else SetArgs(parts[..|parts| - 1]) + if parts[|parts| - 1].SetArg? then [parts[|parts| - 1].arg] else []
  }

  function UpdateArgs(u: UpdateStatement): seq<nat> {
    SetArgs(u.parts) + [u.idArg, u.userArg]
  }

  /** A condition on a fresh argument adds itself to the conjunction. */
  lemma WhereAppend(conditions: seq<Condition>, args: seq<Value>, c: Condition, v: Value, t: Task)
    requires ConditionArgs(conditions) == Numbers(|args|) && c.arg == |args| + 1
    ensures Where(conditions + [c], args + [v], t) <==>
      (Where(conditions, args, t) && Satisfies(Read(t, c.column), c.comparison, v))
  {
    forall i | 0 <= i < |conditions| ensures conditions[i].arg == i + 1 && (args + [v])[i] == args[i] {
      assert ConditionArgs(conditions)[i] == Numbers(|args|)[i];
    }
    if Where(conditions + [c], args + [v], t) {
      forall i | 0 <= i < |conditions|
        ensures Satisfies(Read(t, conditions[i].column), conditions[i].comparison, args[conditions[i].arg - 1])
      {
        assert (conditions + [c])[i] == conditions[i];
      }
      assert (conditions + [c])[|conditions|] == c;
    }
  }

  /** One optional filter: a clause and an argument are appended when it is given. */
  method AddCondition(conditions: seq<Condition>, args: seq<Value>, argPos: nat,
                      column: Column, comparison: Comparison, v: Option<Value>)
    returns (conditions': seq<Condition>, args': seq<Value>, argPos': nat)
    requires ConditionArgs(conditions) == Numbers(|args|) && argPos == |args| + 1
    ensures ConditionArgs(conditions') == Numbers(|args'|) && argPos' == |args'| + 1
    ensures forall t :: Where(conditions', args', t) <==>
      (Where(conditions, args, t) && (v.Some? ==> Satisfies(Read(t, column), comparison, v.value)))
  {
    conditions', args', argPos' := conditions, args, argPos;
    if v.Some? {
      var c := Condition(column, comparison, argPos);
      forall t ensures Where(conditions + [c], args + [v.value], t) <==>
        (Where(conditions, args, t) && Satisfies(Read(t, column), comparison, v.value))
      {
        WhereAppend(conditions, args, c, v.value, t);
      }
      conditions', args', argPos' := conditions + [c], args + [v.value], argPos + 1;
      assert ConditionArgs(conditions') == ConditionArgs(conditions) + [argPos];
      assert Numbers(|args'|) == Numbers(|args|) + [argPos];
    }
  }

  function TextArg(s: Option<string>): Option<Value> {
    if s.Some? then Some(Text(s.value)) else None
  }

  function TimeArg(t: Option<Time>): Option<Value> {
    if t.Some? then Some(Instant(t.value)) else None
  }

  lemma FirstCondition(user: Id, t: Task)
    ensures Where([Condition(UserId, Equal, 1)], [Key(user)], t) <==> t.user == user
    ensures ConditionArgs([Condition(UserId, Equal, 1)]) == Numbers(1)
  {
    var conditions := [Condition(UserId, Equal, 1)];
    if t.user == user {
      assert forall i | 0 <= i < |conditions| :: conditions[i] == conditions[0];
    } else {
      assert !Satisfies(Read(t, conditions[0].column), conditions[0].comparison, Key(user));
    }
  }

  /** The WHERE clause selects exactly the rows the filter describes, and uses `$1`, `$2`, ... once each. */
  method BuildConditions(f: TaskFilter) returns (conditions: seq<Condition>, args: seq<Value>)
    ensures ConditionArgs(conditions) == Numbers(|args|)
    ensures forall t :: Where(conditions, args, t) <==> Matches(f, t)
  {
    conditions, args := [Condition(UserId, Equal, 1)], [Key(f.user)];
    var argPos := 2;
    forall t ensures Where(conditions, args, t) <==> t.user == f.user {
      FirstCondition(f.user, t);
    }
    FirstCondition(f.user, Task(0, 0, 0, "", "", None, "", "", 0, 0, None));
    conditions, args, argPos := AddCondition(conditions, args, argPos, Status, Equal, TextArg(f.status));
    conditions, args, argPos := AddCondition(conditions, args, argPos, Priority, Equal, TextArg(f.priority));
    conditions, args, argPos := AddCondition(conditions, args, argPos, Deadline, AtLeast, TimeArg(f.fromDeadline));
    conditions, args, argPos := AddCondition(conditions, args, argPos, Deadline, AtMost, TimeArg(f.toDeadline));
  }

  lemma WhereIgnoresLaterArgs(conditions: seq<Condition>, args: seq<Value>, more: seq<Value>, t: Task)
    requires ConditionArgs(conditions) == Numbers(|args|)
    ensures Where(conditions, args + more, t) <==> Where(conditions, args, t)
  {
    forall i | 0 <= i < |conditions| ensures conditions[i].arg == i + 1 && (args + more)[i] == args[i] {
      assert ConditionArgs(conditions)[i] == Numbers(|args|)[i];
    }
  }

  /** The whole SELECT: its placeholders are `$1` to `$n` in order, and on every table it means the filter. */
  method BuildSelect(f: TaskFilter) returns (q: Select, args: seq<Value>)
    ensures SelectArgs(q) == Numbers(|args|)
    ensures forall t :: Where(q.conditions, args, t) <==> Matches(f, t)
    ensures NumberArg(args, q.limit) == Positive(f.limit)
    ensures NumberArg(args, q.offset) == Positive(f.offset)
  {
    var conditions, whereArgs := BuildConditions(f);
    q := Select(conditions, None, None);
    args := whereArgs;
    var argPos := |args| + 1;
    if f.limit > 0 {
      q := q.(limit := Some(argPos));
      args := args + [Number(f.limit)];
      argPos := argPos + 1;
    }
    if f.offset > 0 {
      q := q.(offset := Some(argPos));
      args := args + [Number(f.offset)];
    }
    assert args == whereArgs + args[|whereArgs|..];
    forall t ensures Where(q.conditions, args, t) <==> Matches(f, t) {
      WhereIgnoresLaterArgs(conditions, whereArgs, args[|whereArgs|..], t);
    }
  }

  lemma {:induction false} FilterSame(tasks: seq<Task>, p: Task -> bool, q: Task -> bool)
    requires forall t :: p(t) == q(t)
    ensures FilterRows(tasks, p) == FilterRows(tasks, q)
  {
    if tasks != [] { FilterSame(tasks[1..], p, q); }
  }

  /** Statements that agree on every row and on the page select the same page of every table. */
  lemma SelectMeansFilter(tasks: seq<Task>, f: TaskFilter, q: Select, args: seq<Value>)
    requires forall t :: Where(q.conditions, args, t) <==> Matches(f, t)
    requires NumberArg(args, q.limit) == Positive(f.limit) && NumberArg(args, q.offset) == Positive(f.offset)
    ensures Answer(tasks, q, args) == Selected(tasks, f)
  {
    FilterSame(tasks, t => Where(q.conditions, args, t), t => Matches(f, t));
  }

  ghost predicate Ordered(rows: seq<Task>) {
    forall i, j | 0 <= i < j < |rows| :: InOrder(rows[i], rows[j])
  }

  lemma {:induction false} InsertRowPermutes(t: Task, rows: seq<Task>)
    ensures multiset(InsertRow(t, rows)) == multiset(rows) + multiset{t}
  {
    if rows != [] && !InOrder(t, rows[0]) {
      InsertRowPermutes(t, rows[1..]);
      assert rows == [rows[0]] + rows[1..];
    }
  }

  lemma InsertedOrRow(t: Task, rows: seq<Task>, k: nat)
    requires k < |InsertRow(t, rows)|
    ensures InsertRow(t, rows)[k] == t || InsertRow(t, rows)[k] in rows
  {
    InsertRowPermutes(t, rows);
    assert InsertRow(t, rows)[k] in multiset(InsertRow(t, rows));
  }

  lemma {:induction false} InsertRowOrdered(t: Task, rows: seq<Task>)
    requires Ordered(rows)
    ensures Ordered(InsertRow(t, rows))
  {
    if rows != [] && !InOrder(t, rows[0]) {
      InsertRowOrdered(t, rows[1..]);
      var tail := InsertRow(t, rows[1..]);
      forall k | 0 <= k < |tail| ensures InOrder(rows[0], tail[k]) {
        InsertedOrRow(t, rows[1..], k);
      }
    }
  }

  lemma {:induction false} FilterCounts(tasks: seq<Task>, p: Task -> bool, t: Task)
    ensures multiset(FilterRows(tasks, p))[t] == if p(t) then multiset(tasks)[t] else 0
  {
    if tasks != [] {
      FilterCounts(tasks[1..], p, t);
      assert tasks == [tasks[0]] + tasks[1..];
    }
  }

  lemma {:induction false} OrderRowsOrdered(rows: seq<Task>)
    ensures Ordered(OrderRows(rows)) && multiset(OrderRows(rows)) == multiset(rows)
  {
    if rows != [] {
      OrderRowsOrdered(rows[1..]);
      InsertRowOrdered(rows[0], OrderRows(rows[1..]));
      InsertRowPermutes(rows[0], OrderRows(rows[1..]));
      assert rows == [rows[0]] + rows[1..];
    }
  }

  /** Without limit and offset, the answer holds every matching row as often as the table,
      in order, and nothing else. */
  lemma SelectedIsComplete(tasks: seq<Task>, f: TaskFilter, t: Task)
    requires f.limit <= 0 && f.offset <= 0
    ensures multiset(Selected(tasks, f))[t] ==
      if t.user == f.user && (f.status.None? || f.status == Some(t.status))
         && (f.priority.None? || f.priority == Some(t.priority))
         && (f.fromDeadline.None? || (t.deadline.Some? && t.deadline.value >= f.fromDeadline.value))
         && (f.toDeadline.None? || (t.deadline.Some? && t.deadline.value <= f.toDeadline.value))
      then multiset(tasks)[t] else 0
    ensures var rows := Selected(tasks, f);
      forall i, j | 0 <= i < j < |rows| ::
        && (rows[i].deadline.None? ==> rows[j].deadline.None?)
        && (rows[i].deadline.Some? && rows[j].deadline.Some? ==> rows[i].deadline.value <= rows[j].deadline.value)
        && (rows[i].deadline == rows[j].deadline ==> rows[i].createdAt >= rows[j].createdAt)
  {
    OrderRowsOrdered(FilterRows(tasks, u => Matches(f, u)));
    FilterCounts(tasks, u => Matches(f, u), t);
  }

  /** Row i of a page is row offset + i of the answer without a page, up to the limit and the end. */
  lemma SelectedIsPage(tasks: seq<Task>, f: TaskFilter)
    ensures var all := Selected(tasks, f.(limit := 0, offset := 0));
      var page := Selected(tasks, f);
      var from := if f.offset > 0 then f.offset else 0;
      && |page| == (var left := if from < |all| then |all| - from else 0;
                    if 0 < f.limit < left then f.limit else left)
      && forall i | 0 <= i < |page| :: page[i] == all[from + i]
  {
    var unpaged := f.(limit := 0, offset := 0);
    var rows := OrderRows(FilterRows(tasks, u => Matches(f, u)));
    FilterSame(tasks, u => Matches(f, u), u => Matches(unpaged, u));
    assert Selected(tasks, unpaged) == Page(rows, None, None) == rows;
    assert Selected(tasks, f) == Page(rows, Positive(f.limit), Positive(f.offset));
  }

  lemma {:induction false} SetAllIgnoresLaterArgs(t: Task, parts: seq<SetPart>, args: seq<Value>,
                                                  more: seq<Value>, now: Time)
    requires SetArgs(parts) == Numbers(|args|)
    ensures SetAll(t, parts, args + more, now) == SetAll(t, parts, args, now)
    decreases |parts|
  {
    SetArgsBounded(parts, |args|);
    SetAllSameArgs(t, parts, args, args + more, now);
  }

  lemma SetArgsBounded(parts: seq<SetPart>, n: nat)
    requires SetArgs(parts) == Numbers(n)
    ensures forall k | k in SetArgs(parts) :: 1 <= k <= n
  {
  }

  lemma {:induction false} SetAllSameArgs(t: Task, parts: seq<SetPart>, args: seq<Value>, args': seq<Value>, now: Time)
    requires forall k | k in SetArgs(parts) :: Bound(args, k) && Bound(args', k) && args[k - 1] == args'[k - 1]
    ensures SetAll(t, parts, args', now) == SetAll(t, parts, args, now)
    decreases |parts|
  {
    if parts != [] {
      SetAllSameArgs(t, parts[..|parts| - 1], args, args', now);
      if parts[|parts| - 1].SetArg? { assert parts[|parts| - 1].arg in SetArgs(parts); }
    }
  }

  /** The parts do to every row what `effect` does, given the database's clock. */
  ghost predicate HasEffect(parts: seq<SetPart>, args: seq<Value>, effect: (Task, Time) -> Task) {
    forall t, now :: SetAll(t, parts, args, now) == effect(t, now)
  }

  ghost function Then(effect: (Task, Time) -> Task, column: Column, v: Option<Value>): (Task, Time) -> Task {
    (t, now) => WriteIf(effect(t, now), column, v)
  }

  /** One optional assignment: a part and an argument are appended when it is given. */
  method AddSet(parts: seq<SetPart>, args: seq<Value>, argPos: nat, column: Column, v: Option<Value>,
                ghost effect: (Task, Time) -> Task)
    returns (parts': seq<SetPart>, args': seq<Value>, argPos': nat)
    requires SetArgs(parts) == Numbers(|args|) && argPos == |args| + 1
    requires HasEffect(parts, args, effect)
    ensures SetArgs(parts') == Numbers(|args'|) && argPos' == |args'| + 1
    ensures |args'| == |args| + if v.Some? then 1 else 0
    ensures HasEffect(parts', args', Then(effect, column, v))
  {
    parts', args', argPos' := parts, args, argPos;
    if v.Some? {
      parts', args', argPos' := parts + [SetArg(column, argPos)], args + [v.value], argPos + 1;
      assert parts'[..|parts|] == parts;
      forall t, now ensures SetAll(t, parts', args', now) == Write(SetAll(t, parts, args, now), column, v.value) {
        SetAllIgnoresLaterArgs(t, parts, args, [v.value], now);
      }
      assert Numbers(|args'|) == Numbers(|args|) + [argPos];
    }
  }

  ghost function Touch(): (Task, Time) -> Task {
    (t: Task, now: Time) => t.(updatedAt := now)
  }

  lemma NothingSetYet(t: Task, now: Time)
    ensures SetArgs([SetNow(UpdatedAt)]) == Numbers(0)
    ensures SetAll(t, [SetNow(UpdatedAt)], [], now) == t.(updatedAt := now)
  {
    var parts := [SetNow(UpdatedAt)];
    assert parts[..0] == [];
    assert SetAll(t, parts, [], now) == SetOne(SetAll(t, parts[..0], [], now), parts[0], [], now);
    assert SetArgs(parts) == SetArgs(parts[..0]) + [];
  }

  /** The effect of the assignments, one after another. */
  function PatchSteps(t: Task, p: Patch, now: Time, appNow: Time): Task {
    var content := WriteIf(WriteIf(WriteIf(t.(updatedAt := now), Title, TextArg(p.title)),
                                   Description, TextArg(p.description)), Deadline, TimeArg(p.deadline));
    var status := WriteIf(content, Status, TextArg(p.status));
    WriteIf(if p.status == Some(COMPLETED) then WriteIf(status, CompletedAt, Some(Instant(appNow))) else status,
            Priority, TextArg(p.priority))
  }

  lemma PatchStepsArePatched(t: Task, p: Patch, now: Time, appNow: Time)
    ensures PatchSteps(t, p, now, appNow) == Patched(t, p, now, appNow)
  {
    var content := WriteIf(WriteIf(WriteIf(t.(updatedAt := now), Title, TextArg(p.title)),
                                   Description, TextArg(p.description)), Deadline, TimeArg(p.deadline));
    assert content == t.(updatedAt := now, title := GetOr(p.title, t.title),
                         description := GetOr(p.description, t.description),
                         deadline := if p.deadline.Some? then p.deadline else t.deadline);
  }

  /** The SET clause means the patch; no argument is collected exactly when the patch is empty. */
  method BuildSets(p: Patch, appNow: Time) returns (parts: seq<SetPart>, args: seq<Value>)
    ensures SetArgs(parts) == Numbers(|args|)
    ensures args == [] <==> IsEmpty(p)
    ensures forall t, now :: SetAll(t, parts, args, now) == Patched(t, p, now, appNow)
  {
    parts, args := [SetNow(UpdatedAt)], [];
    var argPos := 1;
    ghost var effect := Touch();
    NothingSetYet(Task(0, 0, 0, "", "", None, "", "", 0, 0, None), 0);
    forall t, now ensures SetAll(t, parts, args, now) == effect(t, now) {
      NothingSetYet(t, now);
    }
    parts, args, argPos := AddSet(parts, args, argPos, Title, TextArg(p.title), effect);
    effect := Then(effect, Title, TextArg(p.title));
    parts, args, argPos := AddSet(parts, args, argPos, Description, TextArg(p.description), effect);
    effect := Then(effect, Description, TextArg(p.description));
    parts, args, argPos := AddSet(parts, args, argPos, Deadline, TimeArg(p.deadline), effect);
    effect := Then(effect, Deadline, TimeArg(p.deadline));
    parts, args, argPos := AddSet(parts, args, argPos, Status, TextArg(p.status), effect);
    effect := Then(effect, Status, TextArg(p.status));
    if p.status == Some(COMPLETED) {
      parts, args, argPos := AddSet(parts, args, argPos, CompletedAt, Some(Instant(appNow)), effect);
      effect := Then(effect, CompletedAt, Some(Instant(appNow)));
    }
    parts, args, argPos := AddSet(parts, args, argPos, Priority, TextArg(p.priority), effect);
    effect := Then(effect, Priority, TextArg(p.priority));
    forall t, now ensures SetAll(t, parts, args, now) == Patched(t, p, now, appNow) {
      assert effect(t, now) == PatchSteps(t, p, now, appNow);
      PatchStepsArePatched(t, p, now, appNow);
    }
  }

  /** The whole UPDATE, None when there is nothing to update:
      `$1` to `$n` once each, in order, and the patch on every table. */
  method BuildUpdate(id: Id, user: Id, p: Patch, appNow: Time) returns (u: Option<UpdateStatement>, args: seq<Value>)
    ensures u.None? <==> IsEmpty(p)
    ensures u.Some? ==> UpdateArgs(u.value) == Numbers(|args|)
    ensures u.Some? ==> forall t, now :: SetAll(t, u.value.parts, args, now) == Patched(t, p, now, appNow)
    ensures u.Some? ==> Bound(args, u.value.idArg) && args[u.value.idArg - 1] == Key(id)
    ensures u.Some? ==> Bound(args, u.value.userArg) && args[u.value.userArg - 1] == Key(user)
  {
    var parts, setArgs := BuildSets(p, appNow);
    if |setArgs| == 0 {
      return None, setArgs;
    }
    args := setArgs + [Key(id), Key(user)];
    u := Some(UpdateStatement(parts, |setArgs| + 1, |setArgs| + 2));
    forall t, now ensures SetAll(t, parts, args, now) == Patched(t, p, now, appNow) {
      SetAllIgnoresLaterArgs(t, parts, setArgs, [Key(id), Key(user)], now);
    }
    assert Numbers(|args|) == Numbers(|setArgs|) + [|setArgs| + 1, |setArgs| + 2];
  }

  lemma UpdateMeansPatch(tasks: seq<Task>, u: UpdateStatement, args: seq<Value>, id: Id, user: Id, p: Patch,
                         dbNow: Time, appNow: Time)
    requires forall t, now :: SetAll(t, u.parts, args, now) == Patched(t, p, now, appNow)
    requires Bound(args, u.idArg) && Bound(args, u.userArg)
      && args[u.idArg - 1] == Key(id) && args[u.userArg - 1] == Key(user)
    ensures Execute(tasks, u, args, dbNow) == UpdateRow(tasks, id, user, t => Patched(t, p, dbNow, appNow))
  {
  }
}
