/**
 Which integrations the scheduler syncs, cycle after cycle: `GetIntegrationsForSync` picks the
 first `batchSize` rows by `last_sync_at`, NULL first, and a successful sync stamps its row
 with a time later than every stamp already in the table. A failed sync leaves its row alone.
 */
module Fairness {
  import opened Prelude

  type Id = nat
  type Stamps = map<Id, Option<int>>

  /** The order `last_sync_at ASC NULLS FIRST`; rows with equal stamps may come in either order. */
  predicate NotAfter(a: Option<int>, b: Option<int>) {
    a.None? || (b.Some? && a.value <= b.value)
  }

  /** `picked` are the rows of some answer to the query. */
  ghost predicate IsPick(stamps: Stamps, batchSize: nat, picked: set<Id>) {
    && picked <= stamps.Keys
    && |picked| == Min(batchSize, |stamps|)
    && forall p, q | p in picked && q in stamps.Keys - picked :: NotAfter(stamps[p], stamps[q])
  }

  lemma SizeOfDifference(a: set<Id>, b: set<Id>)
    requires b <= a
    ensures |a - b| == |a| - |b|
  {
    assert a == (a - b) + b;
  }

  function RowSet(rows: seq<Id>): set<Id> {
    set r | r in rows
  }

  lemma RowsArePick(stamps: Stamps, limit: nat, rows: seq<Id>, rest: set<Id>)
    requires rest <= stamps.Keys && |rows| + |rest| == |stamps|
    requires |rows| == limit || (rest == {} && |rows| <= limit)
    requires forall r :: r in rows <==> r in stamps && r !in rest
    requires forall r, q | r in rows && q in rest :: NotAfter(stamps[r], stamps[q])
    ensures IsPick(stamps, limit, RowSet(rows)) && |rows| == Min(limit, |stamps|)
  {
    assert RowSet(rows) == stamps.Keys - rest;
    SizeOfDifference(stamps.Keys, rest);
    assert |stamps.Keys| == |stamps|;
  }

  /** `UPDATE ... SET last_sync_at = now WHERE id = ...`: no row with the id, no change. */
  function Stamped(stamps: Stamps, id: Id, now: int): Stamps {
    if id in stamps then stamps[id := Some(now)] else stamps
  }

  /** The integrations table, as far as the scheduler uses it. */
  class IntegrationTable {
    var stamps: Stamps

    constructor ()
      ensures stamps == map[]
    {
      stamps := map[];
    }

    method First(candidates: set<Id>) returns (first: Id)
      requires candidates != {} && candidates <= stamps.Keys
      ensures first in candidates && forall q | q in candidates :: NotAfter(stamps[first], stamps[q])
    {
      first :| first in candidates;
      var rest := candidates - {first};
      while rest != {}
        invariant first in candidates && rest <= candidates
        invariant forall q | q in candidates - rest :: NotAfter(stamps[first], stamps[q])
        decreases rest
      {
        var q :| q in rest;
        rest := rest - {q};
        if !NotAfter(stamps[first], stamps[q]) {
          first := q;
        }
      }
    }

    /** The rows of the query, in its order. */
    method GetIntegrationsForSync(limit: nat) returns (rows: seq<Id>)
      ensures IsPick(stamps, limit, RowSet(rows)) && |rows| == Min(limit, |stamps|)
      ensures forall i, j | 0 <= i < j < |rows| :: rows[i] != rows[j] && NotAfter(stamps[rows[i]], stamps[rows[j]])
    {
      rows := [];
      var rest := stamps.Keys;
      while |rows| < limit && rest != {}
        invariant rest <= stamps.Keys && |rows| + |rest| == |stamps| && |rows| <= limit
        invariant forall r :: r in rows <==> r in stamps && r !in rest
        invariant forall i, j | 0 <= i < j < |rows| :: rows[i] != rows[j] && NotAfter(stamps[rows[i]], stamps[rows[j]])
        invariant forall r, q | r in rows && q in rest :: NotAfter(stamps[r], stamps[q])
        decreases rest
      {
        var next := First(rest);
        assert next !in rows;
        rows := rows + [next];
        rest := rest - {next};
      }
      RowsArePick(stamps, limit, rows, rest);
    }

    method UpdateLastSync(id: Id, now: int)
      modifies this
      ensures stamps == Stamped(old(stamps), id, now)
      ensures stamps.Keys == old(stamps).Keys
      ensures forall x | x in stamps :: stamps[x] == if x == id then Some(now) else old(stamps)[x]
    {
      if id in stamps {
        stamps := stamps[id := Some(now)];
      }
    }

    /** One sync, after those in `done`. */
    method SyncRow(id: Id, works: set<Id>, now: map<Id, int>, ghost before: Stamps, ghost done: set<Id>)
      returns (ok: bool)
      requires before.Keys <= now.Keys && AfterSyncs(before, done, now, stamps) && id in before
      modifies this
      ensures ok == (id in works)
      ensures AfterSyncs(before, done + if ok then {id} else {}, now, stamps)
    {
      ok := id in works;
      if ok {
        AfterSyncsNext(before, done, id, now, stamps);
        UpdateLastSync(id, now[id]);
      }
    }

    /** The syncs of one cycle, each stamping its row if it succeeds. */
    method SyncRows(rows: seq<Id>, works: set<Id>, now: map<Id, int>) returns (success: nat)
      requires forall i, j | 0 <= i < j < |rows| :: rows[i] != rows[j]
      requires RowSet(rows) <= stamps.Keys <= now.Keys
      modifies this
      ensures AfterSyncs(old(stamps), Successes(rows, works), now, stamps)
      ensures success == |Successes(rows, works)|
    {
      ghost var before, done := stamps, {};
      success := 0;
      for i := 0 to |rows|
        invariant AfterSyncs(before, done, now, stamps)
        invariant done == Successes(rows[..i], works) && success == |done|
      {
        SuccessesNext(rows, works, i);
        var ok := SyncRow(rows[i], works, now, before, done);
        if ok {
          done := done + {rows[i]};
          success := success + 1;
        }
      }
      assert rows[..|rows|] == rows;
    }

    /** `syncAll`: `works` says which syncs succeed, and `now` when each of these stamps its row. */
    method SyncAll(batchSize: nat, works: set<Id>, now: map<Id, int>) returns (rows: seq<Id>, success: nat)
      requires stamps.Keys <= now.Keys
      requires forall x, y | x in now && y in stamps && stamps[y].Some? :: stamps[y].value < now[x]
      modifies this
      ensures forall i, j | 0 <= i < j < |rows| :: rows[i] != rows[j]
      ensures IsCycle(old(stamps), batchSize, Cycle(RowSet(rows), Successes(rows, works)), stamps)
      ensures success == |Successes(rows, works)|
    {
      rows := GetIntegrationsForSync(batchSize);
      success := SyncRows(rows, works, now);
      assert Successes(rows, works) <= RowSet(rows);
      StampedIsCycle(old(stamps), batchSize, RowSet(rows), Successes(rows, works), now, stamps);
    }
  }

  /** Exactly the rows in `done` are stamped. */
  ghost predicate AfterSyncs(before: Stamps, done: set<Id>, now: map<Id, int>, stamps: Stamps)
    requires before.Keys <= now.Keys
  {
    && stamps.Keys == before.Keys
    && forall x | x in stamps :: stamps[x] == if x in done then Some(now[x]) else before[x]
  }

  lemma AfterSyncsNext(before: Stamps, done: set<Id>, id: Id, now: map<Id, int>, stamps: Stamps)
    requires before.Keys <= now.Keys && AfterSyncs(before, done, now, stamps) && id in before
    ensures AfterSyncs(before, done + {id}, now, Stamped(stamps, id, now[id]))
  {
  }

  lemma SuccessesNext(rows: seq<Id>, works: set<Id>, i: nat)
    requires i < |rows| && forall j | 0 <= j < i :: rows[j] != rows[i]
    ensures rows[i] in RowSet(rows) && rows[i] !in Successes(rows[..i], works)
    ensures Successes(rows[..i + 1], works) == Successes(rows[..i], works) + if rows[i] in works then {rows[i]} else {}
  {
    assert rows[..i + 1] == rows[..i] + [rows[i]];
  }

  /** Stamps that are all later than those there were, on some of the rows picked, make a cycle. */
  lemma StampedIsCycle(before: Stamps, batchSize: nat, picked: set<Id>, done: set<Id>, now: map<Id, int>,
                       stamps: Stamps)
    requires before.Keys <= now.Keys
    requires forall x, y | x in now && y in before && before[y].Some? :: before[y].value < now[x]
    requires IsPick(before, batchSize, picked) && done <= picked
    requires AfterSyncs(before, done, now, stamps)
    ensures IsCycle(before, batchSize, Cycle(picked, done), stamps)
  {
  }

  function Successes(rows: seq<Id>, works: set<Id>): set<Id> {
    set r | r in rows && r in works
  }

  datatype Cycle = Cycle(picked: set<Id>, succeeded: set<Id>)

  /** One cycle of the scheduler, from the table `stamps` to the table `stamps'`. */
  ghost predicate IsCycle(stamps: Stamps, batchSize: nat, c: Cycle, stamps': Stamps) {
    && IsPick(stamps, batchSize, c.picked)
    && c.succeeded <= c.picked
    && stamps'.Keys == stamps.Keys
    && (forall x | x in stamps && x !in c.succeeded :: stamps'[x] == stamps[x])
    && (forall x | x in c.succeeded :: stamps'[x].Some?)
    && (forall x, y | x in c.succeeded && y in stamps && stamps[y].Some? :: stamps[y].value < stamps'[x].value)
  }

  /** `tables[k]` is the table before cycle `k`. */
  ghost predicate IsRun(tables: seq<Stamps>, batchSize: nat, cycles: seq<Cycle>) {
    && |tables| == |cycles| + 1
    && forall k | 0 <= k < |cycles| :: IsCycle(tables[k], batchSize, cycles[k], tables[k + 1])
  }

  /** Only integrations in `failing` ever fail. */
  ghost predicate OnlyFail(cycles: seq<Cycle>, failing: set<Id>) {
    forall k | 0 <= k < |cycles| :: cycles[k].picked - failing <= cycles[k].succeeded
  }

  function CeilDiv(a: nat, b: nat): nat
    requires b > 0
  {
    (a + b - 1) / b
  }

  /** The other integrations that may be picked before `x`. */
  ghost function Ahead(stamps: Stamps, x: Id): set<Id>
    requires x in stamps
  {
    set y | y in stamps && y != x && NotAfter(stamps[y], stamps[x])
  }

  /** A cycle that passes `x` over takes its whole batch from those ahead of `x`, and the successes leave. */
  lemma PassedOver(stamps: Stamps, batchSize: nat, c: Cycle, stamps': Stamps, x: Id, failing: set<Id>)
    requires IsCycle(stamps, batchSize, c, stamps') && x in stamps && x !in c.picked
    requires c.picked - failing <= c.succeeded && |failing| < batchSize
    ensures |Ahead(stamps', x)| + (batchSize - |failing|) <= |Ahead(stamps, x)|
  {
    assert c.picked <= Ahead(stamps, x);
    assert forall y | y in c.succeeded :: !NotAfter(stamps'[y], stamps[x]);
    assert Ahead(stamps', x) <= Ahead(stamps, x) - (c.picked - failing);
    SizeOfSubset(c.picked + {x}, stamps.Keys);
    SizeOfSubset(c.picked, stamps.Keys);
    SizeOfSubset(c.picked, (c.picked - failing) + failing);
    SizeOfSubset(Ahead(stamps', x), Ahead(stamps, x) - (c.picked - failing));
  }

  lemma {:induction false} SizeOfSubset<T>(a: set<T>, b: set<T>)
    requires a <= b
    ensures |a| <= |b|
    decreases a
  {
    if a != {} {
      var x :| x in a;
      SizeOfSubset(a - {x}, b - {x});
    }
  }

  lemma {:induction false} PassedOverFor(tables: seq<Stamps>, batchSize: nat, cycles: seq<Cycle>,
                                         x: Id, failing: set<Id>, k: nat)
    requires IsRun(tables, batchSize, cycles) && OnlyFail(cycles, failing) && |failing| < batchSize
    requires x in tables[0] && k <= |cycles| && forall i | 0 <= i < k :: x !in cycles[i].picked
    ensures tables[k].Keys == tables[0].Keys
    ensures k * (batchSize - |failing|) + |Ahead(tables[k], x)| < |tables[0]|
  {
    if k == 0 {
      assert Ahead(tables[0], x) + {x} <= tables[0].Keys;
      SizeOfSubset(Ahead(tables[0], x) + {x}, tables[0].Keys);
    } else {
      PassedOverFor(tables, batchSize, cycles, x, failing, k - 1);
      assert IsCycle(tables[k - 1], batchSize, cycles[k - 1], tables[k]);
      PassedOver(tables[k - 1], batchSize, cycles[k - 1], tables[k], x, failing);
      OneMore(k - 1, batchSize - |failing|);
    }
  }

  lemma CeilDivCovers(a: nat, b: nat)
    requires b > 0
    ensures CeilDiv(a, b) * b >= a
  {
    var q := (a + b - 1) / b;
    assert a + b - 1 == q * b + (a + b - 1) % b;
  }

  /**
   No starvation: if at most |failing| < batchSize of N integrations ever fail, each integration
   is picked within ceil(N / (batchSize - |failing|)) consecutive cycles, starting anywhere.
   */
  lemma PickedWithinBound(tables: seq<Stamps>, batchSize: nat, cycles: seq<Cycle>, x: Id, failing: set<Id>)
    requires IsRun(tables, batchSize, cycles) && OnlyFail(cycles, failing) && |failing| < batchSize
    requires x in tables[0]
    requires |cycles| >= CeilDiv(|tables[0]|, batchSize - |failing|)
    ensures exists k :: 0 <= k < CeilDiv(|tables[0]|, batchSize - |failing|) && x in cycles[k].picked
  {
    var bound := CeilDiv(|tables[0]|, batchSize - |failing|);
    if forall k | 0 <= k < bound :: x !in cycles[k].picked {
      PassedOverFor(tables, batchSize, cycles, x, failing, bound);
      CeilDivCovers(|tables[0]|, batchSize - |failing|);
      assert false;
    }
  }

  /** With every sync successful the bound is ceil(N / batchSize). */
  lemma PickedWhenNothingFails(tables: seq<Stamps>, batchSize: nat, cycles: seq<Cycle>, x: Id)
    requires IsRun(tables, batchSize, cycles) && batchSize > 0
    requires forall k | 0 <= k < |cycles| :: cycles[k].succeeded == cycles[k].picked
    requires x in tables[0] && |cycles| >= CeilDiv(|tables[0]|, batchSize)
    ensures exists k :: 0 <= k < CeilDiv(|tables[0]|, batchSize) && x in cycles[k].picked
  {
    PickedWithinBound(tables, batchSize, cycles, x, {});
  }

  /** Rows never stamped come first: when they fill the batch, nothing else is picked. */
  lemma NeverSyncedFillTheBatch(stamps: Stamps, batchSize: nat, picked: set<Id>, unstamped: set<Id>)
    requires IsPick(stamps, batchSize, picked) && |unstamped| == batchSize
    requires forall x :: x in unstamped <==> x in stamps && stamps[x].None?
    ensures picked == unstamped
  {
    SizeOfSubset(unstamped, stamps.Keys);
    if !(unstamped <= picked) {
      var f :| f in unstamped && f !in picked;
      forall p | p in picked ensures p in unstamped - {f} { assert NotAfter(stamps[p], stamps[f]); }
      SizeOfSubset(picked, unstamped - {f});
    } else if picked != unstamped {
      var p :| p in picked && p !in unstamped;
      SizeOfSubset(unstamped, picked - {p});
    }
  }

  /** batchSize integrations that were never synced and never succeed keep every other integration out for ever. */
  lemma {:induction false} NeverSyncedFailuresStarve(tables: seq<Stamps>, batchSize: nat, cycles: seq<Cycle>,
                                                     failing: set<Id>, k: nat)
    requires IsRun(tables, batchSize, cycles) && k < |cycles| && |failing| == batchSize
    requires forall x :: x in failing <==> x in tables[0] && tables[0][x].None?
    requires forall i | 0 <= i < |cycles| :: cycles[i].succeeded !! failing
    ensures cycles[k].picked == failing
    ensures tables[k + 1] == tables[0]
  {
    if k > 0 {
      NeverSyncedFailuresStarve(tables, batchSize, cycles, failing, k - 1);
    }
    assert IsCycle(tables[k], batchSize, cycles[k], tables[k + 1]);
    NeverSyncedFillTheBatch(tables[k], batchSize, cycles[k].picked, failing);
    assert cycles[k].succeeded == {};
  }

  /** `x` was synced later than every integration in `failing`. */
  ghost predicate BehindAll(stamps: Stamps, x: Id, failing: set<Id>)
    requires x in stamps && failing <= stamps.Keys
  {
    forall f | f in failing :: !NotAfter(stamps[x], stamps[f])
  }

  /** A batch has no room for `x` while as many others as it holds are before `x`. */
  lemma NoRoomBehind(stamps: Stamps, batchSize: nat, picked: set<Id>, x: Id, failing: set<Id>)
    requires IsPick(stamps, batchSize, picked) && x in stamps && failing <= stamps.Keys
    requires BehindAll(stamps, x, failing) && |failing| >= batchSize && x !in failing
    ensures x !in picked
  {
    if x in picked {
      forall f | f in failing ensures f in picked - {x} {
        assert !NotAfter(stamps[x], stamps[f]);
      }
      SizeOfSubset(failing, picked - {x});
    }
  }

  lemma {:induction false} BehindForEver(tables: seq<Stamps>, batchSize: nat, cycles: seq<Cycle>,
                                         x: Id, failing: set<Id>,
                                         i: nat, k: nat)
    requires IsRun(tables, batchSize, cycles) && i < k <= |cycles| && x in cycles[i].succeeded && x !in failing
    requires failing <= tables[0].Keys && forall c | 0 <= c < |cycles| :: cycles[c].succeeded !! failing
    ensures tables[k].Keys == tables[0].Keys && x in tables[k]
    ensures BehindAll(tables[k], x, failing)
  {
    assert IsCycle(tables[k - 1], batchSize, cycles[k - 1], tables[k]);
    KeysKept(tables, batchSize, cycles, k - 1);
    if k - 1 > i {
      BehindForEver(tables, batchSize, cycles, x, failing, i, k - 1);
    }
    forall f | f in failing ensures !NotAfter(tables[k][x], tables[k][f]) {
      assert f !in cycles[k - 1].succeeded;
      assert tables[k][f] == tables[k - 1][f];
    }
  }

  lemma {:induction false} KeysKept(tables: seq<Stamps>, batchSize: nat, cycles: seq<Cycle>, k: nat)
    requires IsRun(tables, batchSize, cycles) && k <= |cycles|
    ensures tables[k].Keys == tables[0].Keys
  {
    if k > 0 {
      KeysKept(tables, batchSize, cycles, k - 1);
      assert IsCycle(tables[k - 1], batchSize, cycles[k - 1], tables[k]);
    }
  }

  /**
   Once batchSize or more integrations fail for good, whatever their stamps, every other one is
   synced at most once more, ever: after a success it is never picked again.
   */
  lemma NeverPickedAgain(tables: seq<Stamps>, batchSize: nat, cycles: seq<Cycle>,
                         x: Id, failing: set<Id>, i: nat, k: nat)
    requires IsRun(tables, batchSize, cycles) && i < k < |cycles| && x in cycles[i].succeeded && x !in failing
    requires failing <= tables[0].Keys && |failing| >= batchSize
    requires forall c | 0 <= c < |cycles| :: cycles[c].succeeded !! failing
    ensures x !in cycles[k].picked
  {
    BehindForEver(tables, batchSize, cycles, x, failing, i, k);
    assert IsCycle(tables[k], batchSize, cycles[k], tables[k + 1]);
    NoRoomBehind(tables[k], batchSize, cycles[k].picked, x, failing);
  }

  /** There is a number of cycles within which every integration is picked, from any table on,
      if only `failing` ever fail. */
  ghost predicate NoStarvation(ids: set<Id>, batchSize: nat, failing: set<Id>) {
    exists bound: nat :: PickedWithin(ids, batchSize, failing, bound)
  }

  ghost predicate PickedWithin(ids: set<Id>, batchSize: nat, failing: set<Id>, bound: nat) {
    forall tables: seq<Stamps>, cycles: seq<Cycle>, x |
      IsRun(tables, batchSize, cycles) && tables[0].Keys == ids && OnlyFail(cycles, failing)
      && |cycles| >= bound && x in ids ::
        exists k :: 0 <= k < bound && x in cycles[k].picked
  }

  /** Nobody starves if and only if fewer integrations fail than a batch holds, or a batch holds them all. */
  lemma NoStarvationExactlyWhen(ids: set<Id>, batchSize: nat, failing: set<Id>)
    requires failing <= ids
    ensures NoStarvation(ids, batchSize, failing) <==> |failing| < batchSize || |ids| <= batchSize
  {
    if |failing| < batchSize {
      FewFailuresStarveNobody(ids, batchSize, failing);
    } else if |ids| <= batchSize {
      OneBatchHoldsAll(ids, batchSize, failing);
    } else {
      forall bound: nat ensures !PickedWithin(ids, batchSize, failing, bound) {
        var tables, cycles, x := Starving(ids, batchSize, failing, bound);
      }
    }
  }

  lemma FewFailuresStarveNobody(ids: set<Id>, batchSize: nat, failing: set<Id>)
    requires |failing| < batchSize
    ensures NoStarvation(ids, batchSize, failing)
  {
    var bound := CeilDiv(|ids|, batchSize - |failing|);
    forall tables: seq<Stamps>, cycles: seq<Cycle>, x |
      IsRun(tables, batchSize, cycles) && tables[0].Keys == ids && OnlyFail(cycles, failing)
      && |cycles| >= bound && x in ids
      ensures exists k :: 0 <= k < bound && x in cycles[k].picked
    {
      assert |tables[0].Keys| == |tables[0]|;
      PickedWithinBound(tables, batchSize, cycles, x, failing);
    }
    assert PickedWithin(ids, batchSize, failing, bound);
  }

  lemma OneBatchHoldsAll(ids: set<Id>, batchSize: nat, failing: set<Id>)
    requires |ids| <= batchSize
    ensures NoStarvation(ids, batchSize, failing)
  {
    forall tables: seq<Stamps>, cycles: seq<Cycle>, x |
      IsRun(tables, batchSize, cycles) && tables[0].Keys == ids && OnlyFail(cycles, failing)
      && |cycles| >= 1 && x in ids
      ensures exists k :: 0 <= k < 1 && x in cycles[k].picked
    {
      assert IsCycle(tables[0], batchSize, cycles[0], tables[1]);
      assert |tables[0].Keys| == |tables[0]|;
      if x !in cycles[0].picked {
        SizeOfSubset(cycles[0].picked, ids - {x});
      }
    }
    assert PickedWithin(ids, batchSize, failing, 1);
  }

  lemma SubsetOfSize(a: set<Id>, n: nat) returns (b: set<Id>)
    requires n <= |a|
    ensures b <= a && |b| == n
  {
    b := {};
    while |b| < n
      invariant b <= a && |b| <= n
    {
      SizeOfDifference(a, b);
      var x :| x in a - b;
      b := b + {x};
    }
  }

  /** A run as long as you like in which the same failing integrations fill every batch. */
  lemma Starving(ids: set<Id>, batchSize: nat, failing: set<Id>, n: nat)
    returns (tables: seq<Stamps>, cycles: seq<Cycle>, x: Id)
    requires failing <= ids && batchSize <= |failing| && batchSize < |ids|
    ensures IsRun(tables, batchSize, cycles) && tables[0].Keys == ids && OnlyFail(cycles, failing) && |cycles| == n
    ensures x in ids && forall k | 0 <= k < n :: x !in cycles[k].picked
  {
    var first := SubsetOfSize(failing, batchSize);
    SizeOfDifference(ids, first);
    x :| x in ids - first;
    var table: Stamps := map y | y in ids :: if y in first then None else Some(0);
    assert table.Keys == ids && |table.Keys| == |table|;
    tables := seq(n + 1, _ => table);
    cycles := seq(n, _ => Cycle(first, {}));
    assert IsPick(table, batchSize, first);
  }
}
