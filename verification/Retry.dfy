/** `Retry`: attempts of a fallible call, with a capped geometric delay between them. */
module Retry {
  import opened Prelude

  type Error = string

  datatype RetryConfig = RetryConfig(maxAttempts: int, initialDelay: int, maxDelay: int, multiplier: real)

  /**
   What the code cannot choose: the result of the i-th call of `fn`, what `ctx.Err()` says before
   it, and what `ctx.Err()` says if the context is done during the wait after it.
   */
  datatype Env = Env(call: nat -> Option<Error>, ctxBefore: nat -> Option<Error>, ctxDuringWait: nat -> Option<Error>)

  /** Go's conversion of a float to an integer: towards zero. */
  function Truncate(r: real): (n: int)
    ensures r >= 0.0 ==> 0 <= n && n as real <= r < (n + 1) as real
    ensures r <= 0.0 ==> n <= 0 && (n - 1) as real < r <= n as real
  {
    if r >= 0.0 then r.Floor else -((-r).Floor)
  }

  function Grown(cfg: RetryConfig, delay: int): int {
    Truncate(delay as real * cfg.multiplier)
  }

  /** The delay after one failed attempt, given the delay before it. */
  function NextDelay(cfg: RetryConfig, delay: int): int {
    Min(Grown(cfg, delay), cfg.maxDelay)
  }

  /** The delay after attempt `k`, counting attempts from 0. */
  function Delay(cfg: RetryConfig, k: nat): int {
    if k == 0 then cfg.initialDelay else NextDelay(cfg, Delay(cfg, k - 1))
  }

  /** The first `n` delays. */
  function Delays(cfg: RetryConfig, n: nat): (ds: seq<int>)
    ensures |ds| == n && forall k | 0 <= k < n :: ds[k] == Delay(cfg, k)
  {
    if n == 0 then [] else Delays(cfg, n - 1) + [Delay(cfg, n - 1)]
  }

  /** The number of calls of `fn` from attempt `i` on. */
  function Calls(cfg: RetryConfig, env: Env, i: nat): (n: nat)
    decreases cfg.maxAttempts - i
  {
    if i >= cfg.maxAttempts || env.ctxBefore(i).Some? then 0
    else if env.call(i).None? || i == cfg.maxAttempts - 1 || env.ctxDuringWait(i).Some? then 1
    else 1 + Calls(cfg, env, i + 1)
  }

  /** The number of waits from attempt `i` on, one cut short by the context included. */
  function Waits(cfg: RetryConfig, env: Env, i: nat): nat
    decreases cfg.maxAttempts - i
  {
    if i >= cfg.maxAttempts - 1 || env.ctxBefore(i).Some? || env.call(i).None? then 0
    else if env.ctxDuringWait(i).Some? then 1
    else 1 + Waits(cfg, env, i + 1)
  }

  /** What `Retry` returns from attempt `i` on, when the last error so far is `lastErr`. */
  function Verdict(cfg: RetryConfig, env: Env, i: nat, lastErr: Option<Error>): Option<Error>
    decreases cfg.maxAttempts - i
  {
    if i >= cfg.maxAttempts then lastErr
    else if env.ctxBefore(i).Some? then env.ctxBefore(i)
    else if env.call(i).None? then None
    else if i == cfg.maxAttempts - 1 then env.call(i)
    else if env.ctxDuringWait(i).Some? then env.ctxDuringWait(i)
    else Verdict(cfg, env, i + 1, env.call(i))
  }

  method GrowDelay(cfg: RetryConfig, delay: int, ghost k: nat) returns (next: int)
    requires delay == Delay(cfg, k)
    ensures next == Delay(cfg, k + 1)
  {
    next := Grown(cfg, delay);
    if next > cfg.maxDelay {
      next := cfg.maxDelay;
    }
  }

  /** `calls` counts the calls of `fn`, `waits` lists the delays that were waited out or cut short. */
  method Retry(cfg: RetryConfig, env: Env) returns (err: Option<Error>, calls: nat, waits: seq<int>)
    ensures err == Verdict(cfg, env, 0, None)
    ensures calls == Calls(cfg, env, 0)
    ensures waits == Delays(cfg, Waits(cfg, env, 0))
  {
    var lastErr: Option<Error> := None;
    var delay := cfg.initialDelay;
    var attempt := 0;
    calls, waits := 0, [];
    while attempt < cfg.maxAttempts
      invariant 0 <= attempt <= Max(0, cfg.maxAttempts)
      invariant calls == attempt && |waits| == Min(attempt, Max(0, cfg.maxAttempts - 1))
      invariant attempt < cfg.maxAttempts ==> delay == Delay(cfg, attempt)
      invariant waits == Delays(cfg, |waits|) && Waits(cfg, env, 0) == |waits| + Waits(cfg, env, attempt)
      invariant Verdict(cfg, env, 0, None) == Verdict(cfg, env, attempt, lastErr)
      invariant Calls(cfg, env, 0) == attempt + Calls(cfg, env, attempt)
    {
      if env.ctxBefore(attempt).Some? {
        return env.ctxBefore(attempt), calls, waits;
      }
      var e := env.call(attempt);
      calls := calls + 1;
      if e.None? {
        return None, calls, waits;
      }
      lastErr := e;
      if attempt < cfg.maxAttempts - 1 {
        assert Delays(cfg, attempt + 1) == Delays(cfg, attempt) + [Delay(cfg, attempt)];
        waits := waits + [delay];
        if env.ctxDuringWait(attempt).Some? {
          return env.ctxDuringWait(attempt), calls, waits;
        }
        delay := GrowDelay(cfg, delay, attempt);
      }
      attempt := attempt + 1;
    }
    err := lastErr;
  }

  ghost predicate NeverCancelled(env: Env) {
    forall i: nat :: env.ctxBefore(i).None? && env.ctxDuringWait(i).None?
  }

  /** `first` is the first successful attempt, or all `n` attempts fail and `first == n`. */
  ghost predicate FirstSuccess(env: Env, n: nat, first: nat) {
    first <= n && (forall i: nat | i < first :: env.call(i).Some?) && (first < n ==> env.call(first).None?)
  }

  lemma {:induction false} UninterruptedFrom(cfg: RetryConfig, env: Env, i: nat, lastErr: Option<Error>, first: nat)
    requires NeverCancelled(env) && cfg.maxAttempts >= 1 && FirstSuccess(env, cfg.maxAttempts, first)
    requires i <= first && i < cfg.maxAttempts
    ensures Calls(cfg, env, i) == Min(first + 1, cfg.maxAttempts) - i == Waits(cfg, env, i) + 1
    ensures Verdict(cfg, env, i, lastErr) == if first < cfg.maxAttempts then None else env.call(cfg.maxAttempts - 1)
    decreases first - i
  {
    if i < first && i + 1 < cfg.maxAttempts {
      UninterruptedFrom(cfg, env, i + 1, env.call(i), first);
    }
  }

  /** Without cancellation: calls stop at the first success, and only running out of attempts is an error. */
  lemma Uninterrupted(cfg: RetryConfig, env: Env, first: nat)
    requires NeverCancelled(env) && cfg.maxAttempts >= 1 && FirstSuccess(env, cfg.maxAttempts, first)
    ensures Calls(cfg, env, 0) == Min(first + 1, cfg.maxAttempts) == Waits(cfg, env, 0) + 1
    ensures Verdict(cfg, env, 0, None) == if first < cfg.maxAttempts then None else env.call(cfg.maxAttempts - 1)
  {
    UninterruptedFrom(cfg, env, 0, None, first);
  }

  /** Cancelled or not: a nil result means no attempt was allowed or the last call succeeded. */
  /** The first `k` attempts fail and the context is not done before or during the waits between them. */
  ghost predicate FailsUntil(env: Env, k: nat) {
    && (forall i: nat | i < k :: env.call(i).Some? && env.ctxBefore(i).None?)
    && forall i: nat | i + 1 < k :: env.ctxDuringWait(i).None?
  }

  /**
   A cancellation ends the loop with the error of the context: seen before attempt `k`, there were
   `k` calls and `k` waits; seen during the wait after attempt `k - 1`, the last wait is that one.
   */
  lemma Cancelled(cfg: RetryConfig, env: Env, k: nat)
    requires k < cfg.maxAttempts && FailsUntil(env, k)
    ensures (k > 0 ==> env.ctxDuringWait(k - 1).None?) && env.ctxBefore(k).Some? ==>
      Verdict(cfg, env, 0, None) == env.ctxBefore(k) && Calls(cfg, env, 0) == Waits(cfg, env, 0) == k
    ensures k > 0 && env.ctxDuringWait(k - 1).Some? ==>
      Verdict(cfg, env, 0, None) == env.ctxDuringWait(k - 1) && Calls(cfg, env, 0) == Waits(cfg, env, 0) == k
  {
    if k > 0 {
      CancelledFrom(cfg, env, k, k - 1);
    }
  }

  lemma {:induction false} CancelledFrom(cfg: RetryConfig, env: Env, k: nat, back: nat)
    requires 0 < k < cfg.maxAttempts && FailsUntil(env, k) && back < k
    ensures var last := k - 1;
      var i := last - back;
      var before := if i == 0 then None else env.call(i - 1);
      && (env.ctxDuringWait(last).None? && env.ctxBefore(k).Some? ==>
            Verdict(cfg, env, i, before) == env.ctxBefore(k)
            && Calls(cfg, env, i) == k - i && Waits(cfg, env, i) == k - i)
      && (env.ctxDuringWait(last).Some? ==>
            Verdict(cfg, env, i, before) == env.ctxDuringWait(last)
            && Calls(cfg, env, i) == k - i && Waits(cfg, env, i) == k - i)
  {
    if back > 0 {
      CancelledFrom(cfg, env, k, back - 1);
    }
  }

  lemma {:induction false} NilMeansSuccess(cfg: RetryConfig, env: Env, i: nat, lastErr: Option<Error>)
    requires i < cfg.maxAttempts
    ensures Calls(cfg, env, i) <= cfg.maxAttempts - i
    ensures Verdict(cfg, env, i, lastErr).None? ==>
      Calls(cfg, env, i) >= 1 && env.call(i + Calls(cfg, env, i) - 1).None?
    ensures Verdict(cfg, env, i, lastErr).Some? ==> forall k | i <= k < i + Calls(cfg, env, i) :: env.call(k).Some?
    decreases cfg.maxAttempts - i
  {
    if i + 1 < cfg.maxAttempts {
      NilMeansSuccess(cfg, env, i + 1, env.call(i));
    }
  }

  /** With `maxAttempts <= 0` nothing is called and nil is returned. */
  lemma NoAttempts(cfg: RetryConfig, env: Env)
    ensures cfg.maxAttempts <= 0 <==> (forall e: Env :: Calls(cfg, e, 0) == 0)
    ensures cfg.maxAttempts <= 0 ==> Verdict(cfg, env, 0, None) == None
  {
    if cfg.maxAttempts > 0 {
      var e := Env(_ => None, _ => None, _ => None);
      assert Calls(cfg, e, 0) == 1;
    }
  }

  function Power(m: nat, k: nat): nat {
    if k == 0 then 1 else m * Power(m, k - 1)
  }

  lemma NextDelayInteger(cfg: RetryConfig, m: int, delay: int)
    requires cfg.multiplier == m as real
    ensures NextDelay(cfg, delay) == Min(delay * m, cfg.maxDelay)
  {
    assert delay as real * cfg.multiplier == (delay * m) as real;
  }

  lemma CappedProduct(a: nat, m: nat, cap: nat)
    requires m >= 1
    ensures Min(Min(a, cap) * m, cap) == Min(a * m, cap)
  {
    if a > cap {
      assert a * m >= a && cap * m >= cap;
    }
  }

  /** One more delay, if the delays so far are capped at the maximum. */
  lemma NextOfCapped(cfg: RetryConfig, m: nat, x: nat)
    requires m >= 1 && cfg.multiplier == m as real && 0 <= cfg.maxDelay
    ensures NextDelay(cfg, Min(x, cfg.maxDelay)) == Min(x * m, cfg.maxDelay)
  {
    NextDelayInteger(cfg, m, Min(x, cfg.maxDelay));
    CappedProduct(x, m, cfg.maxDelay);
  }

  function Times(a: nat, b: nat): nat {
    a * b
  }

  lemma PowerStep(a: nat, m: nat, k: nat)
    ensures Times(a, Power(m, k)) * m == Times(a, Power(m, k + 1))
  {
    var p := Power(m, k);
    assert (a * p) * m == a * (m * p);
  }

  /** For an integer multiplier the delays are the capped geometric series. */
  lemma {:induction false} DelayClosedForm(cfg: RetryConfig, m: nat, k: nat)
    requires m >= 1 && cfg.multiplier == m as real && 0 <= cfg.initialDelay <= cfg.maxDelay
    ensures Delay(cfg, k) == Min(Times(cfg.initialDelay, Power(m, k)), cfg.maxDelay)
  {
    if k > 0 {
      DelayClosedForm(cfg, m, k - 1);
      NextOfCapped(cfg, m, Times(cfg.initialDelay, Power(m, k - 1)));
      PowerStep(cfg.initialDelay, m, k - 1);
    }
  }

  lemma DelayBounded(cfg: RetryConfig, k: nat)
    requires cfg.initialDelay <= cfg.maxDelay
    ensures Delay(cfg, k) <= cfg.maxDelay
  {
    if k > 0 {
      assert Delay(cfg, k) == NextDelay(cfg, Delay(cfg, k - 1));
    }
  }

  function Sum(xs: seq<int>): int {
    if xs == [] then 0 else Sum(xs[..|xs| - 1]) + xs[|xs| - 1]
  }

  lemma {:induction false} SumBound(xs: seq<int>, bound: int)
    requires forall k | 0 <= k < |xs| :: xs[k] <= bound
    ensures Sum(xs) <= |xs| * bound
  {
    if xs != [] {
      SumBound(xs[..|xs| - 1], bound);
      assert |xs| * bound == (|xs| - 1) * bound + bound;
    }
  }

  lemma {:induction false} WaitsBounded(cfg: RetryConfig, env: Env, i: nat)
    ensures Waits(cfg, env, i) <= Max(0, cfg.maxAttempts - 1 - i)
    decreases cfg.maxAttempts - i
  {
    if i < cfg.maxAttempts - 1 {
      WaitsBounded(cfg, env, i + 1);
    }
  }

  /** Whatever the multiplier, the waits of one `Retry` take at most `(maxAttempts - 1) * maxDelay`. */
  lemma TotalWait(cfg: RetryConfig, env: Env)
    requires 0 <= cfg.initialDelay <= cfg.maxDelay
    ensures Sum(Delays(cfg, Waits(cfg, env, 0))) <= Max(0, cfg.maxAttempts - 1) * cfg.maxDelay
  {
    var waits := Delays(cfg, Waits(cfg, env, 0));
    forall k | 0 <= k < |waits| ensures waits[k] <= cfg.maxDelay {
      DelayBounded(cfg, k);
    }
    SumBound(waits, cfg.maxDelay);
    WaitsBounded(cfg, env, 0);
    ScaleUp(|waits|, Max(0, cfg.maxAttempts - 1), cfg.maxDelay);
  }
}
