/** The goroutines of a worker pool, and sums over sequences of them. */
module Workers {
  /** A worker waits on the job channel, runs a job, waits to send what came of it, or has returned. */
  datatype Worker = Idle | Running(job: nat) | Reporting(job: nat, ok: bool) | Exited

  function Total<T>(xs: seq<T>, f: T -> nat): nat {
    if xs == [] then 0 else f(xs[0]) + Total(xs[1..], f)
  }

  lemma {:induction false} TotalUpdate<T>(xs: seq<T>, k: nat, x: T, f: T -> nat)
    requires k < |xs|
    ensures Total(xs[k := x], f) + f(xs[k]) == Total(xs, f) + f(x)
  {
    if k > 0 {
      assert xs[k := x][1..] == xs[1..][k - 1 := x];
      TotalUpdate(xs[1..], k - 1, x, f);
    }
  }

  lemma {:induction false} TotalAppend<T>(xs: seq<T>, x: T, f: T -> nat)
    ensures Total(xs + [x], f) == Total(xs, f) + f(x)
  {
    if xs == [] {
      assert [x][1..] == [];
      assert xs + [x] == [x];
    } else {
      assert (xs + [x])[1..] == xs[1..] + [x];
      TotalAppend(xs[1..], x, f);
    }
  }

  lemma {:induction false} TotalMember<T>(xs: seq<T>, k: nat, f: T -> nat)
    requires k < |xs|
    ensures f(xs[k]) <= Total(xs, f)
  {
    if k > 0 { TotalMember(xs[1..], k - 1, f); }
  }

  lemma {:induction false} TotalConstant<T>(xs: seq<T>, c: nat, f: T -> nat)
    requires forall k | 0 <= k < |xs| :: f(xs[k]) == c
    ensures Total(xs, f) == c * |xs|
  {
    if xs != [] { TotalConstant(xs[1..], c, f); }
  }

  /** Counts the occurrences of a job among job numbers. */
  function Is(j: nat): nat -> nat {
    (x: nat) => if x == j then 1 else 0
  }

  predicate Holds(w: Worker) {
    w.Running? || w.Reporting?
  }

  /** Counts the workers that hold job `j`. */
  function HoldsJob(j: nat): Worker -> nat {
    (w: Worker) => if Holds(w) && w.job == j then 1 else 0
  }

  /** Counts the workers that hold some job. */
  function Busy(): Worker -> nat {
    (w: Worker) => if Holds(w) then 1 else 0
  }

  /** The steps a worker still has to take before its next job, or before it returns. */
  function Weight(): Worker -> nat {
    (w: Worker) => match w
      case Idle => 1
      case Running(_) => 4
      case Reporting(_, _) => 3
      case Exited => 0
  }

  function Jobs(n: nat): (r: seq<nat>)
    ensures |r| == n && forall i | 0 <= i < n :: r[i] == i
  {
    seq(n, i requires i >= 0 => i)
  }

  lemma {:induction false} JobsOnce(n: nat, j: nat)
    ensures Total(Jobs(n), Is(j)) == if j < n then 1 else 0
  {
    if n > 0 {
      assert Jobs(n) == Jobs(n - 1) + [n - 1];
      JobsOnce(n - 1, j);
      TotalAppend<nat>(Jobs(n - 1), n - 1, Is(j));
    }
  }
}
