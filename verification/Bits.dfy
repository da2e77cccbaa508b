/** Bit operations on natural numbers, as shifts, masks and powers of two. */
module Bits {

  /** `1 << n`; `bittab[n]` for n below 8. */
  function Pow2(n: nat): (r: nat)
    ensures r > 0
  {
    if n == 0 then 1 else 2 * Pow2(n - 1)
  }

  /** `b & bittab[k]` is not zero. */
  predicate HasBit(b: nat, k: nat) {
    if k == 0 then b % 2 == 1 else HasBit(b / 2, k - 1)
  }

  /** `b | bittab[k]`. */
  function SetBit(b: nat, k: nat): nat {
    if k == 0 then b - b % 2 + 1 else 2 * SetBit(b / 2, k - 1) + b % 2
  }

  /** Setting a bit stays within the width. */
  lemma {:induction false} SetBitWidth(b: nat, k: nat, n: nat)
    requires k < n && b < Pow2(n)
    ensures SetBit(b, k) < Pow2(n)
  {
    if k > 0 {
      SetBitWidth(b / 2, k - 1, n - 1);
    }
  }

  /** Setting a bit sets that bit and leaves the others. */
  lemma {:induction false} SetBitAt(b: nat, k: nat, j: nat)
    ensures HasBit(SetBit(b, k), j) <==> j == k || HasBit(b, j)
  {
    var r := SetBit(b, k);
    assert r / 2 == if k == 0 then b / 2 else SetBit(b / 2, k - 1);
    assert r % 2 == if k == 0 then 1 else b % 2;
    if j > 0 && k > 0 {
      SetBitAt(b / 2, k - 1, j - 1);
    }
  }

  lemma {:induction false} SetBitSpec(b: nat, k: nat, n: nat)
    requires k < n && b < Pow2(n)
    ensures SetBit(b, k) < Pow2(n)
    ensures forall j: nat :: HasBit(SetBit(b, k), j) <==> j == k || HasBit(b, j)
  {
    SetBitWidth(b, k, n);
    forall j: nat ensures HasBit(SetBit(b, k), j) <==> j == k || HasBit(b, j) {
      SetBitAt(b, k, j);
    }
  }

  /** Complementing a number of `n` bits flips each of them (`b ^ 0377` for n == 8). */
  lemma {:induction false} FlipBits(b: nat, k: nat, n: nat)
    requires k < n && b < Pow2(n)
    ensures HasBit(Pow2(n) - 1 - b, k) <==> !HasBit(b, k)
  {
    var f := Pow2(n) - 1 - b;
    assert f % 2 == 1 - b % 2 && f / 2 == Pow2(n - 1) - 1 - b / 2;
    if k > 0 {
      FlipBits(b / 2, k - 1, n - 1);
    }
  }

  /** A number of `n` bits is determined by them. */
  lemma {:induction false} NumberFromBits(a: nat, b: nat, n: nat)
    requires a < Pow2(n) && b < Pow2(n)
    requires forall k: nat :: k < n ==> (HasBit(a, k) <==> HasBit(b, k))
    ensures a == b
  {
    if n > 0 {
      assert HasBit(a, 0) <==> HasBit(b, 0);
      forall k: nat | k < n - 1 ensures HasBit(a / 2, k) <==> HasBit(b / 2, k) {
        assert HasBit(a, k + 1) <==> HasBit(b, k + 1);
      }
      NumberFromBits(a / 2, b / 2, n - 1);
    }
  }

  lemma {:induction false} ZeroBit(k: nat)
    ensures !HasBit(0, k)
  {
    if k > 0 {
      ZeroBit(k - 1);
    }
  }

  lemma {:induction false} ZeroBits()
    ensures forall k: nat :: !HasBit(0, k)
  {
    forall k: nat ensures !HasBit(0, k) {
      ZeroBit(k);
    }
  }
}
