/**
 The auth service's migrations: each file runs in one transaction together with the insert into
 `schema_migrations`, so a crash or an error leaves both or neither. Any number of migration
 processes may run at once, start again, fail or crash between any two steps.
 */
module Migrations {
  import opened Prelude

  type File = string

  /** `recorded` is `schema_migrations`, `schema` the files whose SQL has been committed, in order. */
  datatype Database = Database(recorded: seq<File>, schema: seq<File>)

  /** A process is about to look at file `next`, or has begun its transaction. */
  datatype Process = AtFile(next: nat) | InTransaction(next: nat)

  datatype System = System(db: Database, processes: map<nat, Process>)

  datatype Step = Start(p: nat) | Skip(p: nat) | Begin(p: nat) | Commit(p: nat) | Die(p: nat)

  predicate Looking(files: seq<File>, s: System, p: nat) {
    p in s.processes && s.processes[p].AtFile? && s.processes[p].next < |files|
  }

  predicate Enabled(files: seq<File>, s: System, step: Step) {
    match step
    case Start(p) => p !in s.processes
    case Skip(p) => Looking(files, s, p) && files[s.processes[p].next] in s.db.recorded
    case Begin(p) => Looking(files, s, p) && files[s.processes[p].next] !in s.db.recorded
    case Commit(p) =>
      // the insert fails on the primary key if another process has recorded the file meanwhile
      p in s.processes && s.processes[p].InTransaction? && s.processes[p].next < |files|
      && files[s.processes[p].next] !in s.db.recorded
    case Die(p) => p in s.processes
  }

  function Record(db: Database, file: File): Database {
    Database(db.recorded + [file], db.schema + [file])
  }

  function Apply(files: seq<File>, s: System, step: Step): System
    requires Enabled(files, s, step)
  {
    match step
    case Start(p) => s.(processes := s.processes[p := AtFile(0)])
    case Skip(p) => s.(processes := s.processes[p := AtFile(s.processes[p].next + 1)])
    case Begin(p) => s.(processes := s.processes[p := InTransaction(s.processes[p].next)])
    case Commit(p) =>
      System(Record(s.db, files[s.processes[p].next]), s.processes[p := AtFile(s.processes[p].next + 1)])
    case Die(p) => s.(processes := s.processes - {p})
  }

  function Exec(files: seq<File>, s: System, steps: seq<Step>): Option<System>
    decreases |steps|
  {
    if steps == [] then Some(s)
    else if Enabled(files, s, steps[0]) then Exec(files, Apply(files, s, steps[0]), steps[1..])
    else None
  }

  ghost predicate DistinctFiles(files: seq<File>) {
    forall i, j | 0 <= i < |files| && 0 <= j < |files| && files[i] == files[j] :: i == j
  }

  /** Exactly the first files have been applied, once each and in order, and they are the ones recorded. */
  predicate IsPrefix(files: seq<File>, db: Database) {
    db.recorded <= files && db.schema == db.recorded
  }

  ghost predicate Inv(files: seq<File>, s: System) {
    IsPrefix(files, s.db) && forall p | p in s.processes :: s.processes[p].next <= |s.db.recorded|
  }

  lemma PrefixIsRecorded(files: seq<File>, recorded: seq<File>, k: nat)
    requires recorded <= files && k < |recorded|
    ensures files[k] in recorded
  {
    assert recorded[k] == files[k];
  }

  lemma StepKeepsInv(files: seq<File>, s: System, step: Step)
    requires DistinctFiles(files) && Inv(files, s) && Enabled(files, s, step)
    ensures Inv(files, Apply(files, s, step))
  {
    if step.Skip? {
      var next := s.processes[step.p].next;
      var k :| 0 <= k < |s.db.recorded| && s.db.recorded[k] == files[next];
      assert files[k] == files[next];
    }
    if step.Commit? {
      var next := s.processes[step.p].next;
      if next < |s.db.recorded| {
        PrefixIsRecorded(files, s.db.recorded, next);
      }
      assert s.db.recorded + [files[next]] == files[..next + 1];
    }
  }

  /** Over all interleavings of runs, failures and crashes, the database is at a prefix of the files. */
  lemma {:induction false} AlwaysAPrefix(files: seq<File>, s: System, steps: seq<Step>)
    requires DistinctFiles(files) && Inv(files, s) && Exec(files, s, steps).Some?
    ensures Inv(files, Exec(files, s, steps).value)
    ensures s.db.recorded <= Exec(files, s, steps).value.db.recorded
    decreases |steps|
  {
    if steps != [] {
      StepKeepsInv(files, s, steps[0]);
      AlwaysAPrefix(files, Apply(files, s, steps[0]), steps[1..]);
    }
  }

  /** A process that gets through all files leaves every one of them applied exactly once, in order. */
  lemma FinishedMeansMigrated(files: seq<File>, steps: seq<Step>, p: nat)
    requires DistinctFiles(files)
    requires Exec(files, System(Database([], []), map[]), steps).Some?
    requires var s := Exec(files, System(Database([], []), map[]), steps).value;
      p in s.processes && s.processes[p] == AtFile(|files|)
    ensures Exec(files, System(Database([], []), map[]), steps).value.db == Database(files, files)
  {
    AlwaysAPrefix(files, System(Database([], []), map[]), steps);
  }

  /** A process that dies leaves the database as it is, with its transaction undone, and can be started again. */
  lemma DeathLosesNothing(files: seq<File>, s: System, p: nat)
    requires p in s.processes
    ensures var s' := Apply(files, s, Die(p));
      && s'.db == s.db && Enabled(files, s', Start(p)) && !Enabled(files, s', Commit(p))
      && forall q | q in s.processes && q != p :: q in s'.processes && s'.processes[q] == s.processes[q]
  {
  }

  lemma {:induction false} FinishesFrom(files: seq<File>, s: System, p: nat) returns (steps: seq<Step>)
    requires DistinctFiles(files) && Inv(files, s) && p in s.processes && s.processes[p].AtFile?
    ensures Exec(files, s, steps).Some? && Exec(files, s, steps).value.db == Database(files, files)
    decreases |files| - s.processes[p].next
  {
    var k := s.processes[p].next;
    if k == |files| {
      steps := [];
      assert s.db.recorded == files;
    } else if files[k] in s.db.recorded {
      StepKeepsInv(files, s, Skip(p));
      var rest := FinishesFrom(files, Apply(files, s, Skip(p)), p);
      steps := [Skip(p)] + rest;
      assert steps[1..] == rest;
    } else {
      var begun := Apply(files, s, Begin(p));
      StepKeepsInv(files, s, Begin(p));
      StepKeepsInv(files, begun, Commit(p));
      var rest := FinishesFrom(files, Apply(files, begun, Commit(p)), p);
      steps := [Begin(p), Commit(p)] + rest;
      assert steps[1..] == [Commit(p)] + rest && steps[1..][1..] == rest;
    }
  }

  /** Whatever has failed or crashed before, one more run that nothing interrupts completes the migrations. */
  lemma OneMoreRunCompletes(files: seq<File>, before: seq<Step>, p: nat) returns (steps: seq<Step>)
    requires DistinctFiles(files)
    requires Exec(files, System(Database([], []), map[]), before).Some?
    requires p !in Exec(files, System(Database([], []), map[]), before).value.processes
    ensures var s := Exec(files, System(Database([], []), map[]), before).value;
      Exec(files, s, steps).Some? && Exec(files, s, steps).value.db == Database(files, files)
  {
    AlwaysAPrefix(files, System(Database([], []), map[]), before);
    var s := Exec(files, System(Database([], []), map[]), before).value;
    StepKeepsInv(files, s, Start(p));
    var rest := FinishesFrom(files, Apply(files, s, Start(p)), p);
    steps := [Start(p)] + rest;
    assert steps[1..] == rest;
  }

  /** Where one call of `runMigration` fails, if it does. */
  datatype Fault = NoFault | CheckFails | ReadFails | BeginFails | ExecFails | RecordFails | CommitFails

  class Migrator {
    var db: Database

    constructor ()
      ensures db == Database([], [])
    {
      db := Database([], []);
    }

    method RunMigration(file: File, fault: Fault) returns (ok: bool)
      modifies this
      ensures ok ==> file in db.recorded
      ensures db == if ok && file !in old(db.recorded) then Record(old(db), file) else old(db)
      ensures ok <==> fault.NoFault? || (file in old(db.recorded) && !fault.CheckFails?)
    {
      if fault.CheckFails? {
        return false;
      }
      if file in db.recorded {
        return true;
      }
      if fault.ReadFails? || fault.BeginFails? {
        return false;
      }
      var tx := db;
      if fault.ExecFails? {
        return false;
      }
      tx := tx.(schema := tx.schema + [file]);
      if fault.RecordFails? {
        return false;
      }
      tx := tx.(recorded := tx.recorded + [file]);
      if fault.CommitFails? {
        return false;
      }
      db := tx;
      ok := true;
    }

    /** The loop of `main` over the sorted files: it stops at the first failure. */
    method Migrate(files: seq<File>, faults: nat -> Fault) returns (ok: bool)
      requires DistinctFiles(files) && IsPrefix(files, db)
      modifies this
      ensures IsPrefix(files, db) && old(db.recorded) <= db.recorded
      ensures ok ==> db == Database(files, files)
      ensures (forall i: nat :: faults(i) == NoFault) ==> ok
    {
      for i := 0 to |files|
        invariant IsPrefix(files, db) && old(db.recorded) <= db.recorded && i <= |db.recorded|
      {
        if i < |db.recorded| {
          PrefixIsRecorded(files, db.recorded, i);
        }
        if files[i] !in db.recorded {
          assert db.recorded + [files[i]] == files[..i + 1];
        } else {
          var k :| 0 <= k < |db.recorded| && db.recorded[k] == files[i];
          assert files[k] == files[i];
        }
        var done := RunMigration(files[i], faults(i));
        if !done {
          return false;
        }
      }
      ok := true;
    }
  }
}
