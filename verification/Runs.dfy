/** Reasoning about runs state by state. */
module Runs {

  /** If a state is good and each step from a good state is good exactly when it is allowed, then all
      states up to `n` are good if and only if all steps up to `n` are allowed. */
  lemma {:induction false} GoodExactlyWhileAllowed(good: nat -> bool, allowed: nat -> bool, n: nat)
    requires good(0)
    requires forall i: nat | i < n && good(i) :: good(i + 1) <==> allowed(i)
    ensures (forall i: nat | i <= n :: good(i)) <==> (forall i: nat | i < n :: allowed(i))
  {
    if n > 0 {
      GoodExactlyWhileAllowed(good, allowed, n - 1);
      var m: nat := n - 1;
      assert good(m) ==> (good(m + 1) <==> allowed(m));
    }
  }
}
