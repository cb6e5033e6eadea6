/** A loop that may fail at any step, and induction over it. */
module Folds {
  import opened Prelude

  /** The state after the first `i` steps, if none failed. */
  function Fold<S>(step: (nat, S) -> Option<S>, start: S, i: nat): Option<S> {
    if i == 0 then Some(start)
    else
      var before := Fold(step, start, i - 1);
      if before.None? then None else step(i - 1, before.value)
  }

  lemma {:induction false} FailureStays<S>(step: (nat, S) -> Option<S>, start: S, i: nat, n: nat)
    requires i <= n && Fold(step, start, i).None?
    ensures Fold(step, start, n).None?
    decreases n
  {
    if i < n {
      FailureStays(step, start, i, n - 1);
    }
  }

  /** What the start has and every successful step keeps, the result has. */
  lemma {:induction false} FoldKeeps<S(!new)>(step: (nat, S) -> Option<S>, start: S, i: nat, holds: (nat, S) -> bool)
    requires holds(0, start) && Fold(step, start, i).Some?
    requires forall k: nat, s: S :: k < i && holds(k, s) && step(k, s).Some? ==> holds(k + 1, step(k, s).value)
    ensures holds(i, Fold(step, start, i).value)
  {
    if i > 0 {
      FoldKeeps(step, start, i - 1, holds);
      assert holds(i - 1, Fold(step, start, i - 1).value);
    }
  }

  /**
   * When a step succeeds, in the states that the run can reach, exactly under a
   * condition on the position, the run succeeds exactly when all do.
   */
  lemma {:induction false} FoldSucceeds<S(!new)>(step: (nat, S) -> Option<S>, start: S, i: nat, holds: (nat, S) -> bool,
                                                 allowed: nat -> bool)
    requires holds(0, start)
    requires forall k: nat, s: S :: k < i && holds(k, s) ==> (step(k, s).Some? <==> allowed(k))
    requires forall k: nat, s: S :: k < i && holds(k, s) && step(k, s).Some? ==> holds(k + 1, step(k, s).value)
    ensures Fold(step, start, i).Some? <==> forall k: nat :: k < i ==> allowed(k)
    ensures Fold(step, start, i).Some? ==> holds(i, Fold(step, start, i).value)
  {
    if i > 0 {
      FoldSucceeds(step, start, i - 1, holds, allowed);
      if Fold(step, start, i - 1).Some? {
        assert holds(i - 1, Fold(step, start, i - 1).value);
      }
    }
  }

  /**
   * Positions that are allowed when they have something and their own part is
   * good, where a whole is good exactly when all of its parts are.
   */
  lemma {:induction false} PartsMakeTheWhole(n: nat, allowed: nat -> bool, has: nat -> bool, part: nat -> bool,
                                             whole: nat -> bool)
    requires whole(0)
    requires forall k: nat :: k < n ==> (allowed(k) <==> has(k) && part(k))
    requires forall k: nat, next: nat :: k < n && next == k + 1 ==> (whole(next) <==> whole(k) && part(k))
    ensures (forall k: nat :: k < n ==> allowed(k)) <==> (forall k: nat :: k < n ==> has(k)) && whole(n)
  {
    if n > 0 {
      PartsMakeTheWhole(n - 1, allowed, has, part, whole);
      assert whole(n) <==> whole(n - 1) && part(n - 1);
    }
  }
}
