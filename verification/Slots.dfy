/** Where a size may stand in the forest of 32 bitwise tries.

    Slots are numbered like the nodes of a binary heap: bin `i` has its root at slot `32 + i`, and the
    children of slot `k` are `2 * k` and `2 * k + 1`.  A size may stand at a slot when its leading bits
    are those that lead there. */
module Slots {
  import opened Bitmap
  import opened Sizes

  predicate IsSlot(k: nat) {
    k >= 32
  }

  function BinOf(k: nat): (i: nat)
    requires IsSlot(k)
    ensures i < NBINS
  {
    if k < 64 then k - 32 else BinOf(k / 2)
  }

  /** How many low bits of a size are still free at slot `k`. */
  function FreeBits(k: nat): int
    requires IsSlot(k)
  {
    if k < 64 then 64 - LeftShift(k - 32) else FreeBits(k / 2) - 1
  }

  /** The leading bits that lead to slot `k`. */
  function Prefix(k: nat): nat
    requires IsSlot(k)
  {
    if k == 63 then 0 else if k < 64 then 2 + k % 2 else 2 * Prefix(k / 2) + k % 2
  }

  predicate InSlot(s: nat, k: nat)
    requires IsSlot(k)
  {
    TreeIndex(s) == BinOf(k) && FreeBits(k) >= 0 && Shr(s, FreeBits(k)) == Prefix(k)
  }

  /** Slot `j` is slot `k` or lies under it. */
  predicate Under(j: nat, k: nat)
    requires IsSlot(k)
  {
    j == k || (j > k && Under(j / 2, k))
  }

  /** A size that can be in a tree bin. */
  predicate IsTreeSize(s: nat) {
    MIN_LARGE <= s < WORD_RANGE && s % ALIGNMENT == 0
  }

  lemma Pow64()
    ensures Pow2(64) == WORD_RANGE
  {
    assert Pow2(16) == 0x1_0000 by { BigPow2(); }
    assert Pow2(24) == 0x100_0000;
    assert Pow2(32) == 0x1_0000_0000;
    assert Pow2(40) == 0x100_0000_0000;
    assert Pow2(48) == 0x1_0000_0000_0000;
    assert Pow2(56) == 0x100_0000_0000_0000;
  }

  /** The root slot of its bin fits every size. */
  lemma RootFits(s: nat)
    requires IsTreeSize(s)
    ensures TreeIndex(s) < NBINS && InSlot(s, 32 + TreeIndex(s))
  {
    LastBin(s);
    var i := TreeIndex(s);
    if i < NBINS - 1 {
      TreeIndexIs(s, i);
    } else {
      Pow64();
      ShrToZero(s, 64);
    }
  }

  /** The child on the side of the highest free bit fits, and only that one. */
  lemma ChildFits(s: nat, k: nat, j: nat)
    requires IsSlot(k) && InSlot(s, k) && FreeBits(k) > 0 && j <= 1
    ensures InSlot(s, 2 * k + j) <==> (Bit(s, FreeBits(k) - 1) <==> j == 1)
  {
    ShrOne(s, FreeBits(k) - 1);
    assert (2 * k + j) / 2 == k;
  }

  lemma ChildInParent(s: nat, k: nat)
    requires k >= 64 && InSlot(s, k)
    ensures InSlot(s, k / 2)
  {
    ShrOne(s, FreeBits(k));
  }

  lemma {:induction false} UnderFits(s: nat, j: nat, k: nat)
    requires IsSlot(k) && IsSlot(j) && Under(j, k) && InSlot(s, j)
    ensures InSlot(s, k)
  {
    if j != k {
      if j < 64 {
        RootIsTop(j, k);
      }
      ChildInParent(s, j);
      UnderFits(s, j / 2, k);
    }
  }

  lemma RootIsTop(j: nat, k: nat)
    requires IsSlot(k) && k < j < 64
    ensures !Under(j, k)
  {
  }

  /** Two aligned sizes that fit one slot and differ leave a free bit that tells them apart. */
  lemma FreeBitLeft(s: nat, t: nat, k: nat)
    requires IsSlot(k) && InSlot(s, k) && InSlot(t, k) && s != t
    requires s % ALIGNMENT == 0 && t % ALIGNMENT == 0
    ensures FreeBits(k) > 4
  {
    var f := FreeBits(k);
    if f <= 4 {
      ShrAdd(s, f, 4 - f);
      ShrAdd(t, f, 4 - f);
      Shr4(s);
      Shr4(t);
    }
  }

  lemma Shr4(s: nat)
    ensures Shr(s, 4) == s / 16
  {
    ShrOne(s, 3);
    ShrOne(s, 2);
    ShrOne(s, 1);
    ShrOne(s, 0);
  }

  /** Sizes under the left child are below those under the right one. */
  lemma LeftBelowRight(s: nat, t: nat, k: nat)
    requires IsSlot(k) && InSlot(s, 2 * k) && InSlot(t, 2 * k + 1)
    ensures s < t
  {
    if t <= s {
      ShrMono(t, s, FreeBits(2 * k));
    }
  }

  // ----- the word the descent shifts

  /** At slot `k` the descent has shifted the size so far that its highest free bit is the sign bit. */
  function ShiftedAt(s: nat, k: nat): (r: nat)
    requires IsSlot(k) && s < WORD_RANGE && 0 <= FreeBits(k) <= 64
    ensures r < WORD_RANGE
  {
    Pow64();
    Shl(64, s, 64 - FreeBits(k))
  }

  /** `s << leftshift_for_tree_index(i)`, where the descent starts. */
  function ShiftedSize(s: nat, i: nat): (r: nat)
    requires s < WORD_RANGE && i < NBINS
    ensures r < WORD_RANGE
  {
    Pow64();
    Shl(64, s, LeftShift(i))
  }

  /** `K <<= 1`. */
  function ShiftOnce(x: nat): (r: nat)
    requires x < WORD_RANGE
    ensures r < WORD_RANGE
  {
    Pow64();
    Shl1(64, x)
  }

  /** `(K >> (SIZE_T_BITSIZE - 1)) & 1`. */
  function SignBit(x: nat): (j: nat)
    ensures j <= 1
  {
    Shr(x, 63) % 2
  }

  lemma SignBitIsFreeBit(s: nat, k: nat)
    requires IsSlot(k) && s < WORD_RANGE && 0 < FreeBits(k) <= 64
    ensures SignBit(ShiftedAt(s, k)) == 1 <==> Bit(s, FreeBits(k) - 1)
  {
    Pow64();
    ShrOne(ShiftedAt(s, k), 63);
    ShlBit(64, s, 64 - FreeBits(k), 63);
  }

  lemma {:induction false} FreeBitsBound(k: nat)
    requires IsSlot(k)
    ensures FreeBits(k) <= 64
  {
    if k >= 64 {
      FreeBitsBound(k / 2);
    }
  }

  lemma {:induction false} UnderTrans(i: nat, j: nat, k: nat)
    requires IsSlot(k) && IsSlot(j) && Under(i, j) && Under(j, k)
    ensures Under(i, k)
  {
    if i != j {
      UnderTrans(i / 2, j, k);
    }
  }

  /** What lies under a slot is the slot itself or lies under one of its children. */
  lemma {:induction false} UnderSplit(j: nat, k: nat)
    requires IsSlot(k) && Under(j, k)
    ensures j == k || Under(j, 2 * k) || Under(j, 2 * k + 1)
  {
    if j != k {
      UnderSplit(j / 2, k);
    }
  }

  lemma {:induction false} UnderRoot(k: nat)
    requires IsSlot(k)
    ensures Under(k, 32 + BinOf(k))
  {
    if k >= 64 {
      UnderRoot(k / 2);
    }
  }
}
