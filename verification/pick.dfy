/** The uniform index choice `Math.floor(Math.random() * length)`. */
module Pick {

  /** `Math.floor(r * len)` for a draw r in [0, 1): always an index of a list of length len. */
  function PickIndex(len: nat, r: real): (i: nat)
    requires 0 < len && 0.0 <= r < 1.0
    ensures i < len
  {
    var n := len as real;
    ScaledDrawInRange(r, n);
    (r * n).Floor
  }

  lemma ScaledDrawInRange(r: real, n: real)
    requires 0.0 <= r < 1.0 && n >= 1.0
    ensures 0.0 <= r * n < n
  {
  }

  /** Every index can come out: the draw k/len picks index k. */
  lemma PickReachesEvery(len: nat, k: nat)
    requires k < len
    ensures 0.0 <= (k as real) / (len as real) < 1.0
    ensures PickIndex(len, (k as real) / (len as real)) == k
  {
  }
}
