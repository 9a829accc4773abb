/** Reconnection delays that double up to a maximum, shared by the clients and the upload session. */
module Backoff {
  import opened Bits
  import opened MachineInt

  function Min(a: nat, b: nat): nat { if a < b then a else b }

  /** The delay after it has been doubled k times. */
  function Delay(minSec: nat, maxSec: nat, k: nat): nat {
    if k == 0 then minSec else Min(Delay(minSec, maxSec, k - 1) * 2, maxSec)
  }

  lemma DoublingStep(p: int, min: nat, max: nat)
    requires p >= 1
    ensures Min(Min(min * p, max) * 2, max) == Min(min * (2 * p), max)
  {
    assert min * (2 * p) == 2 * (min * p);
  }

  lemma {:induction false} DelayClosedForm(min: nat, max: nat, k: nat)
    requires min <= max
    ensures Delay(min, max, k) == Min(min * Pow2(k), max)
  {
    if k > 0 {
      DelayClosedForm(min, max, k - 1);
      DoublingStep(Pow2(k - 1), min, max);
    }
  }

  lemma {:induction false} Pow2Exceeds(k: nat)
    ensures Pow2(k) > k
  {
    if k > 0 { Pow2Exceeds(k - 1); }
  }

  lemma ProductIsNoLess(a: int, b: int)
    requires a >= 1 && b >= 0
    ensures a * b >= b
  {
  }

  lemma MaximumIsReached(min: nat, max: nat)
    requires 1 <= min <= max
    ensures Delay(min, max, max) == max
  {
    hide Delay, Pow2;
    DelayClosedForm(min, max, max);
    Pow2Exceeds(max);
    ProductIsNoLess(min, Pow2(max));
  }

  /** Once the maximum is reached the delay stays there, and it never goes down before. */
  lemma {:induction false} DelayIsMonotone(min: nat, max: nat, k: nat, later: nat)
    requires 1 <= min <= max && k <= later
    ensures min <= Delay(min, max, k) <= Delay(min, max, later) <= max
    decreases later
  {
    if k < later {
      DelayIsMonotone(min, max, k, later - 1);
    } else if k > 0 {
      DelayIsMonotone(min, max, k - 1, k - 1);
    }
  }

  /** Doubling the delay never overflows an int, over any number of failures, exactly when the
      configured maximum can be doubled. */
  lemma DoublingFitsIntoInt(min: nat, max: nat)
    requires 1 <= min <= max
    ensures (forall k: nat :: Delay(min, max, k) * 2 <= INT_MAX) <==> max * 2 <= INT_MAX
  {
    hide Delay;
    forall k: nat ensures Delay(min, max, k) <= max {
      DelayIsMonotone(min, max, k, k);
    }
    MaximumIsReached(min, max);
  }

  /** The int arithmetic delay*1000 + jitter and delay*2 never overflows, in any number of waits,
      exactly when the configured maximum itself can be converted to milliseconds. */
  lemma WaitsFitIntoInt(min: nat, max: nat, jitter: nat)
    requires 1 <= min <= max && jitter < 1000
    ensures (forall k: nat :: Delay(min, max, k) * 1000 + jitter <= INT_MAX && Delay(min, max, k) * 2 <= INT_MAX)
       <==> max * 1000 + jitter <= INT_MAX
  {
    hide Delay;
    forall k: nat ensures Delay(min, max, k) <= max {
      DelayIsMonotone(min, max, k, k);
    }
    MaximumIsReached(min, max);
  }
}
