/** Definitions shared by the models of several services. */
module Prelude {
  /** A Go pointer or SQL column that may be nil or NULL. */
  datatype Option<+T> = None | Some(value: T)

  function Min(a: int, b: int): int {
    if a <= b then a else b
  }

  function Max(a: int, b: int): int {
    if a <= b then b else a
  }

  lemma OneMore(k: int, d: int)
    ensures (k + 1) * d == k * d + d
  {
  }

  lemma ScaleUp(a: int, b: int, c: nat)
    requires a <= b
    ensures a * c <= b * c
  {
  }

  lemma {:induction false} UpperBound(ids: set<nat>) returns (bound: nat)
    ensures forall x | x in ids :: x < bound
    decreases ids
  {
    if ids == {} {
      bound := 0;
    } else {
      var x :| x in ids;
      var rest := UpperBound(ids - {x});
      bound := Max(rest, x + 1);
      forall y | y in ids ensures y < bound {
        if y != x { assert y in ids - {x}; }
      }
    }
  }
}
