/** Bit operations on unsigned integers of a given width, as the kernel uses them on bytes and 64-bit words. */
module Bits {

  function Pow2(n: nat): (p: nat)
    ensures p > 0
  {
    if n == 0 then 1 else 2 * Pow2(n - 1)
  }

  /** Bit `j` of `x`. */
  predicate Bit(x: nat, j: nat)
    decreases j
  {
    if j == 0 then x % 2 == 1 else Bit(x / 2, j - 1)
  }

  /** `x | (1 << j)` */
  function WithBit(x: nat, j: nat): (r: nat)
    decreases j
  {
    if j == 0 then x / 2 * 2 + 1 else 2 * WithBit(x / 2, j - 1) + x % 2
  }

  /** `x & !(1 << j)` */
  function WithoutBit(x: nat, j: nat): (r: nat)
    decreases j
  {
    if j == 0 then x / 2 * 2 else 2 * WithoutBit(x / 2, j - 1) + x % 2
  }

  lemma {:induction false} WithBitAt(x: nat, j: nat, k: nat)
    ensures Bit(WithBit(x, j), k) == (j == k || Bit(x, k))
    decreases j
  {
    if j > 0 && k > 0 { WithBitAt(x / 2, j - 1, k - 1); }
  }

  lemma {:induction false} WithoutBitAt(x: nat, j: nat, k: nat)
    ensures Bit(WithoutBit(x, j), k) == (j != k && Bit(x, k))
    decreases j
  {
    if j > 0 && k > 0 { WithoutBitAt(x / 2, j - 1, k - 1); }
  }

  /** Setting or clearing a bit below `w` keeps a `w`-bit word a `w`-bit word. */
  lemma {:induction false} StaysInWidth(x: nat, j: nat, w: nat)
    requires x < Pow2(w) && j < w
    ensures WithBit(x, j) < Pow2(w) && WithoutBit(x, j) < Pow2(w)
    decreases j
  {
    assert Pow2(w) == 2 * Pow2(w - 1);
    if j > 0 {
      assert x / 2 < Pow2(w - 1);
      StaysInWidth(x / 2, j - 1, w - 1);
    }
  }

  lemma {:induction false} OnesBit(w: nat, j: nat)
    requires j < w
    ensures Bit(Pow2(w) - 1, j)
    decreases j
  {
    assert (Pow2(w) - 1) / 2 == Pow2(w - 1) - 1;
    if j > 0 { OnesBit(w - 1, j - 1); }
  }

  /** A word with every bit set is all ones. */
  lemma {:induction false} AllOnes(x: nat, w: nat)
    requires x < Pow2(w)
    requires forall j :: 0 <= j < w ==> Bit(x, j)
    ensures x == Pow2(w) - 1
    decreases w
  {
    if w > 0 {
      assert Bit(x, 0);
      forall j | 0 <= j < w - 1 ensures Bit(x / 2, j) { assert Bit(x, j + 1); }
      AllOnes(x / 2, w - 1);
    }
  }

  lemma {:induction false} ZeroBit(j: nat)
    ensures !Bit(0, j)
  {
    if j > 0 { ZeroBit(j - 1); }
  }

  /** `trailing_zeros` of a non-zero word. */
  function TrailingZeros(x: nat): (n: nat)
    requires x > 0
  {
    if x % 2 == 1 then 0 else 1 + TrailingZeros(x / 2)
  }

  /** `trailing_zeros` is the position of the lowest set bit. */
  lemma {:induction false} TrailingZerosLowest(x: nat)
    requires x > 0
    ensures Bit(x, TrailingZeros(x))
    ensures forall j :: 0 <= j < TrailingZeros(x) ==> !Bit(x, j)
  {
    if x % 2 == 0 {
      TrailingZerosLowest(x / 2);
      forall j | 0 <= j < TrailingZeros(x) ensures !Bit(x, j) {
        if j > 0 { assert !Bit(x / 2, j - 1); }
      }
    }
  }

  lemma {:induction false} TrailingZerosBound(x: nat, w: nat)
    requires 0 < x < Pow2(w)
    ensures TrailingZeros(x) < w
  {
    if x % 2 == 0 { TrailingZerosBound(x / 2, w - 1); }
  }
}
