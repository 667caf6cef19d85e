/** Unsigned machine words as naturals below a power of two, and the bit tricks that search the bin maps. */
module Bitmap {

  function Pow2(n: nat): (r: nat)
    ensures r > 0
  {
    if n == 0 then 1 else 2 * Pow2(n - 1)
  }

  predicate Bit(x: nat, i: nat)
    decreases i
  {
    if i == 0 then x % 2 == 1 else Bit(x / 2, i - 1)
  }

  function And(x: nat, y: nat): nat {
    if x == 0 || y == 0 then 0
    else (if x % 2 == 1 && y % 2 == 1 then 1 else 0) + 2 * And(x / 2, y / 2)
  }

  function Or(x: nat, y: nat): nat {
    if x == 0 then y else if y == 0 then x
    else (if x % 2 == 1 || y % 2 == 1 then 1 else 0) + 2 * Or(x / 2, y / 2)
  }

  /** Complement, negation and shifts of an `n`-bit word; what leaves the word is dropped. */
  function Not(n: nat, x: nat): nat
    requires x < Pow2(n)
  {
    Pow2(n) - 1 - x
  }

  function Neg(n: nat, x: nat): nat
    requires x < Pow2(n)
  {
    if x == 0 then 0 else Pow2(n) - x
  }

  function Shl1(n: nat, x: nat): (r: nat)
    requires x < Pow2(n)
    ensures r < Pow2(n)
  {
    if 2 * x < Pow2(n) then 2 * x else 2 * x - Pow2(n)
  }

  function Shl(n: nat, x: nat, k: nat): (r: nat)
    requires x < Pow2(n)
    ensures r < Pow2(n)
    decreases k
  {
    if k == 0 then x else Shl1(n, Shl(n, x, k - 1))
  }

  function Shr(x: nat, k: nat): (r: nat)
    ensures r <= x
    decreases k, x
  {
    if k == 0 then x else Shr(x / 2, k - 1)
  }

  /** The intrinsic `_BitScanForward`: the index of the lowest set bit. */
  function BitScanForward(x: nat): nat
    requires x > 0
  {
    if x % 2 == 1 then 0 else 1 + BitScanForward(x / 2)
  }

  /** The intrinsic `_BitScanReverse`: the index of the highest set bit. */
  function BitScanReverse(x: nat): (k: nat)
    requires x > 0
    ensures Pow2(k) <= x < 2 * Pow2(k)
  {
    if x == 1 then 0 else 1 + BitScanReverse(x / 2)
  }

  // ----- the tricks on the bin maps; `idx2bit(i)` is `Pow2(i)`

  function Mark(m: nat, i: nat): nat {
    Or(m, Pow2(i))
  }

  function Clear(n: nat, m: nat, i: nat): nat
    requires i < n
  {
    Pow2Mono(i, n);
    And(m, Not(n, Pow2(i)))
  }

  /** `least_bit`: `x & -x`. */
  function LeastBit(n: nat, x: nat): nat
    requires x < Pow2(n)
  {
    And(x, Neg(n, x))
  }

  /** `left_bits`: `(x << 1) | -(x << 1)`. */
  function LeftBits(n: nat, x: nat): nat
    requires x < Pow2(n)
  {
    var y := Shl1(n, x);
    Or(y, Neg(n, y))
  }

  // ----- how each operation acts on single bits

  lemma {:induction false} Pow2Mono(i: nat, j: nat)
    requires i <= j
    ensures Pow2(i) <= Pow2(j)
    ensures i < j ==> 2 * Pow2(i) <= Pow2(j)
  {
    if i < j { Pow2Mono(i, j - 1); }
  }

  lemma {:induction false} ZeroBit(i: nat)
    ensures !Bit(0, i)
  {
    if i > 0 { ZeroBit(i - 1); }
  }

  lemma {:induction false} AndBit(x: nat, y: nat, i: nat)
    ensures Bit(And(x, y), i) <==> Bit(x, i) && Bit(y, i)
  {
    if x == 0 || y == 0 {
      ZeroBit(i);
    } else if i > 0 {
      AndBit(x / 2, y / 2, i - 1);
    }
  }

  lemma {:induction false} OrBit(x: nat, y: nat, i: nat)
    ensures Bit(Or(x, y), i) <==> Bit(x, i) || Bit(y, i)
  {
    if x == 0 || y == 0 {
      ZeroBit(i);
    } else if i > 0 {
      OrBit(x / 2, y / 2, i - 1);
    }
  }

  lemma {:induction false} Pow2Bit(i: nat, j: nat)
    ensures Bit(Pow2(i), j) <==> i == j
  {
    if i > 0 && j > 0 {
      Pow2Bit(i - 1, j - 1);
    } else if j > 0 {
      ZeroBit(j - 1);
    }
  }

  lemma {:induction false} NotBit(n: nat, x: nat, i: nat)
    requires x < Pow2(n) && i < n
    ensures Bit(Not(n, x), i) <==> !Bit(x, i)
  {
    if i > 0 {
      assert Not(n, x) / 2 == Not(n - 1, x / 2);
      NotBit(n - 1, x / 2, i - 1);
    }
  }

  lemma {:induction false} ShrBit(x: nat, k: nat, i: nat)
    ensures Bit(Shr(x, k), i) <==> Bit(x, k + i)
    decreases k
  {
    if k > 0 {
      ShrBit(x / 2, k - 1, i);
    }
  }

  lemma {:induction false} DropTopBit(n: nat, x: nat, i: nat)
    requires Pow2(n) <= x < 2 * Pow2(n)
    ensures Bit(x - Pow2(n), i) <==> i < n && Bit(x, i)
  {
    if n == 0 {
      ZeroBit(i);
      if i > 0 { ZeroBit(i - 1); }
    } else if i > 0 {
      assert (x - Pow2(n)) / 2 == x / 2 - Pow2(n - 1);
      DropTopBit(n - 1, x / 2, i - 1);
    }
  }

  lemma Shl1Bit(n: nat, x: nat, i: nat)
    requires x < Pow2(n)
    ensures Bit(Shl1(n, x), i) <==> 1 <= i < n && Bit(x, i - 1)
  {
    if n == 0 {
      ZeroBit(i);
    } else if 2 * x < Pow2(n) {
      assert (2 * x) / 2 == x;
      if i >= 1 && Bit(x, i - 1) { HighBit(n - 1, x, i - 1); }
    } else {
      assert Shl1(n, x) / 2 == x - Pow2(n - 1);
      if i >= 1 { DropTopBit(n - 1, x, i - 1); }
    }
  }

  lemma {:induction false} ShlBit(n: nat, x: nat, k: nat, i: nat)
    requires x < Pow2(n)
    ensures Bit(Shl(n, x, k), i) <==> k <= i < n && Bit(x, i - k)
    decreases k
  {
    if k == 0 {
      if Bit(x, i) { HighBit(n, x, i); }
    } else {
      Shl1Bit(n, Shl(n, x, k - 1), i);
      if i > 0 { ShlBit(n, x, k - 1, i - 1); }
    }
  }

  lemma {:induction false} HighBit(n: nat, x: nat, i: nat)
    requires x < Pow2(n) && Bit(x, i)
    ensures i < n
  {
    if n == 0 {
      ZeroBit(i);
    } else if i > 0 {
      HighBit(n - 1, x / 2, i - 1);
    }
  }

  /** The bits of the run `2^n - 2^k`. */
  lemma {:induction false} RunBit(n: nat, k: nat, j: nat)
    requires k <= n
    ensures Pow2(k) <= Pow2(n)
    ensures Bit(Pow2(n) - Pow2(k), j) <==> k <= j < n
  {
    if n == 0 {
      ZeroBit(j);
    } else if k == 0 {
      if j > 0 {
        RunBit(n - 1, 0, j - 1);
        assert (Pow2(n) - 1) / 2 == Pow2(n - 1) - 1;
      }
    } else {
      RunBit(n - 1, k - 1, if j > 0 then j - 1 else 0);
      assert Pow2(n) - Pow2(k) == 2 * (Pow2(n - 1) - Pow2(k - 1));
    }
  }

  lemma {:induction false} SomeBit(x: nat) returns (i: nat)
    requires x > 0
    ensures Bit(x, i)
    ensures forall j: nat :: j < i ==> !Bit(x, j)
  {
    if x % 2 == 1 {
      i := 0;
    } else {
      var k := SomeBit(x / 2);
      i := k + 1;
      forall j: nat | j < i ensures !Bit(x, j) {
        if j > 0 { assert !Bit(x / 2, j - 1); }
      }
    }
  }

  lemma {:induction false} AndBound(x: nat, y: nat)
    ensures And(x, y) <= x && And(x, y) <= y
  {
    if x > 0 && y > 0 { AndBound(x / 2, y / 2); }
  }

  lemma {:induction false} OrBound(n: nat, x: nat, y: nat)
    requires x < Pow2(n) && y < Pow2(n)
    ensures Or(x, y) < Pow2(n)
  {
    if x > 0 && y > 0 { OrBound(n - 1, x / 2, y / 2); }
  }

  // ----- marking, clearing and searching a map

  lemma MarkKeeps(n: nat, m: nat, i: nat)
    requires m < Pow2(n) && i < n
    ensures Mark(m, i) < Pow2(n)
    ensures forall j: nat :: Bit(Mark(m, i), j) <==> i == j || Bit(m, j)
  {
    Pow2Mono(i, n);
    OrBound(n, m, Pow2(i));
    forall j: nat ensures Bit(Mark(m, i), j) <==> i == j || Bit(m, j) {
      OrBit(m, Pow2(i), j);
      Pow2Bit(i, j);
    }
  }

  lemma ClearKeeps(n: nat, m: nat, i: nat)
    requires m < Pow2(n) && i < n
    ensures Clear(n, m, i) < Pow2(n)
    ensures forall j: nat :: Bit(Clear(n, m, i), j) <==> i != j && Bit(m, j)
  {
    Pow2Mono(i, n);
    AndBound(m, Not(n, Pow2(i)));
    forall j: nat ensures Bit(Clear(n, m, i), j) <==> i != j && Bit(m, j) {
      AndBit(m, Not(n, Pow2(i)), j);
      if Bit(m, j) { HighBit(n, m, j); }
      if j < n { NotBit(n, Pow2(i), j); }
      Pow2Bit(i, j);
    }
  }

  lemma {:induction false} AndNotIsZero(n: nat, x: nat)
    requires x < Pow2(n)
    ensures And(x, Not(n, x)) == 0
  {
    if x > 0 && Not(n, x) > 0 {
      assert Not(n, x) / 2 == Not(n - 1, x / 2);
      AndNotIsZero(n - 1, x / 2);
    }
  }

  lemma {:induction false} AndNegIsLowest(n: nat, x: nat, k: nat)
    requires 0 < x < Pow2(n) && Bit(x, k) && forall j: nat :: j < k ==> !Bit(x, j)
    ensures And(x, Pow2(n) - x) == Pow2(k)
  {
    if k == 0 {
      assert (Pow2(n) - x) / 2 == Not(n - 1, x / 2);
      AndNotIsZero(n - 1, x / 2);
    } else {
      assert !Bit(x, 0);
      assert Bit(x / 2, k - 1);
      forall j: nat | j < k - 1 ensures !Bit(x / 2, j) {
        assert !Bit(x, j + 1);
      }
      assert (Pow2(n) - x) / 2 == Pow2(n - 1) - x / 2;
      AndNegIsLowest(n - 1, x / 2, k - 1);
    }
  }

  lemma LeastBitIsOneBit(n: nat, m: nat) returns (k: nat)
    requires 0 < m < Pow2(n)
    ensures LeastBit(n, m) == Pow2(k) && Bit(m, k) && k < n
    ensures forall j: nat :: j < k ==> !Bit(m, j)
  {
    k := SomeBit(m);
    HighBit(n, m, k);
    AndNegIsLowest(n, m, k);
  }

  lemma LeastBitIsPositive(n: nat, m: nat)
    requires 0 < m < Pow2(n)
    ensures LeastBit(n, m) > 0
  {
    var k := LeastBitIsOneBit(n, m);
  }

  lemma {:induction false} ScanOfPow2(i: nat)
    ensures BitScanForward(Pow2(i)) == i
  {
    if i > 0 { ScanOfPow2(i - 1); }
  }

  /** What `compute_bit2idx(least_bit(m))` finds. */
  function LowestMarked(n: nat, m: nat): nat
    requires 0 < m < Pow2(n)
  {
    LeastBitIsPositive(n, m);
    BitScanForward(LeastBit(n, m))
  }

  /** It is the lowest marked bin. */
  lemma LowestMarkedIsLowest(n: nat, m: nat)
    requires 0 < m < Pow2(n)
    ensures LowestMarked(n, m) < n && Bit(m, LowestMarked(n, m))
    ensures forall j: nat :: j < LowestMarked(n, m) ==> !Bit(m, j)
  {
    var k := LeastBitIsOneBit(n, m);
    ScanOfPow2(k);
  }

  lemma LeftBitsBit(n: nat, i: nat, j: nat)
    requires i < n
    ensures Pow2(i) < Pow2(n)
    ensures Bit(LeftBits(n, Pow2(i)), j) <==> i < j < n
  {
    Pow2Mono(i, n);
    var y := Shl1(n, Pow2(i));
    if i + 1 == n {
      assert y == 0;
      ZeroBit(j);
    } else {
      Pow2Mono(i + 1, n);
      assert y == Pow2(i + 1);
      OrBit(y, Pow2(n) - y, j);
      Pow2Bit(i + 1, j);
      RunBit(n, i + 1, j);
    }
  }

  /** The answer of a search for the next marked bin above `i`; `left` is the map of those bins. */
  ghost predicate IsNextMarked(n: nat, m: nat, i: nat, left: nat)
  {
    && left < Pow2(n)
    && (left == 0 ==> forall j: nat :: i < j < n ==> !Bit(m, j))
    && (left > 0 ==> i < LowestMarked(n, left) < n && Bit(m, LowestMarked(n, left)) &&
                     forall j: nat :: i < j < LowestMarked(n, left) ==> !Bit(m, j))
  }

  lemma LowestAbove(n: nat, m: nat, i: nat, left: nat)
    requires left < Pow2(n) && forall j: nat :: Bit(left, j) <==> i < j < n && Bit(m, j)
    ensures IsNextMarked(n, m, i, left)
  {
    if left > 0 {
      LowestMarkedIsLowest(n, left);
    } else {
      forall j: nat | i < j < n ensures !Bit(m, j) {
        ZeroBit(j);
        assert !Bit(left, j);
      }
    }
  }

  /** `left_bits(idx2bit(i)) & m` holds just the marked bins above `i`; its lowest is the next one. */
  lemma NextMarked(n: nat, m: nat, i: nat, left: nat)
    requires m < Pow2(n) && i < n && Pow2(i) < Pow2(n)
    requires left == And(LeftBits(n, Pow2(i)), m)
    ensures IsNextMarked(n, m, i, left)
  {
    AndBound(LeftBits(n, Pow2(i)), m);
    forall j: nat ensures Bit(left, j) <==> i < j < n && Bit(m, j) {
      AndBit(LeftBits(n, Pow2(i)), m, j);
      LeftBitsBit(n, i, j);
    }
    LowestAbove(n, m, i, left);
  }

  // ----- the shifted map of a small request

  lemma AndOne(x: nat)
    ensures And(x, 1) == if Bit(x, 0) then 1 else 0
  {
    assert And(x / 2, 0) == 0;
  }

  lemma AndThree(x: nat)
    ensures And(x, 3) != 0 <==> Bit(x, 0) || Bit(x, 1)
  {
    if x > 0 {
      assert And(x, 3) == (if x % 2 == 1 then 1 else 0) + 2 * And(x / 2, 1);
      AndOne(x / 2);
    }
  }

  /** The two low bits of the shifted map: this bin or the next one, and which the code then takes. */
  lemma TwoLowBits(n: nat, m: nat, i: nat)
    requires m < Pow2(n) && i + 1 < n
    ensures Shr(m, i) < Pow2(n)
    ensures And(Shr(m, i), 3) != 0 <==> Bit(m, i) || Bit(m, i + 1)
    ensures And(Not(n, Shr(m, i)), 1) == if Bit(m, i) then 0 else 1
  {
    var x := Shr(m, i);
    ShrBit(m, i, 0);
    ShrBit(m, i, 1);
    AndThree(x);
    NotBit(n, x, 0);
    AndOne(Not(n, x));
  }

  lemma ShiftedLeftBit(n: nat, m: nat, i: nat, j: nat)
    requires m < Pow2(n) && i < n && Pow2(i) < Pow2(n)
    ensures Bit(And(Shl(n, Shr(m, i), i), LeftBits(n, Pow2(i))), j) <==> i < j < n && Bit(m, j)
  {
    AndBit(Shl(n, Shr(m, i), i), LeftBits(n, Pow2(i)), j);
    LeftBitsBit(n, i, j);
    ShlBit(n, Shr(m, i), i, j);
    if i <= j {
      ShrBit(m, i, j - i);
    }
  }

  lemma ShiftedOut(m: nat, i: nat, j: nat)
    requires i <= j && Bit(m, j)
    ensures Shr(m, i) > 0
  {
    ShrBit(m, i, j - i);
    ZeroBit(j - i);
  }

  /** `(smallbits << i) & left_bits(idx2bit(i))`: again the marked bins above `i`. */
  lemma NextMarkedShifted(n: nat, m: nat, i: nat, left: nat)
    requires m < Pow2(n) && i < n && Pow2(i) < Pow2(n)
    requires left == And(Shl(n, Shr(m, i), i), LeftBits(n, Pow2(i)))
    ensures IsNextMarked(n, m, i, left)
  {
    AndBound(Shl(n, Shr(m, i), i), LeftBits(n, Pow2(i)));
    forall j: nat ensures Bit(left, j) <==> i < j < n && Bit(m, j) {
      ShiftedLeftBit(n, m, i, j);
    }
    LowestAbove(n, m, i, left);
  }

  /** The shifted map is zero exactly when no bin from `i` up is marked. */
  lemma ShiftedIsZero(n: nat, m: nat, i: nat)
    requires m < Pow2(n)
    ensures Shr(m, i) == 0 <==> forall j: nat :: i <= j < n ==> !Bit(m, j)
  {
    if Shr(m, i) == 0 {
      forall j: nat | i <= j < n ensures !Bit(m, j) {
        if Bit(m, j) { ShiftedOut(m, i, j); }
      }
    } else {
      var k := SomeBit(Shr(m, i));
      ShrBit(m, i, k);
      HighBit(n, m, i + k);
    }
  }

  /** With bin `i` empty, what is left after the shift is what lies above `i`. */
  lemma NextAfterShift(n: nat, m: nat, i: nat)
    requires m < Pow2(n) && i < n && !Bit(m, i)
    ensures Pow2(i) < Pow2(n) && Shr(m, i) < Pow2(n)
    ensures var left := And(Shl(n, Shr(m, i), i), LeftBits(n, Pow2(i)));
            && (Shr(m, i) == 0 <==> left == 0) && IsNextMarked(n, m, i, left)
  {
    Pow2Mono(i, n);
    ShrBound(m, i);
    var left := And(Shl(n, Shr(m, i), i), LeftBits(n, Pow2(i)));
    hide Bit, Shr, Shl, And, LeftBits, LowestMarked, Pow2;
    NextMarkedShifted(n, m, i, left);
    ShiftedIsZero(n, m, i);
    if left == 0 {
      assert forall j: nat :: i <= j < n ==> !Bit(m, j);
    } else {
      ShiftedOut(m, i, LowestMarked(n, left));
    }
  }

  lemma {:induction false} ShrBound(m: nat, i: nat)
    ensures Shr(m, i) <= m
    decreases i
  {
    if i > 0 {
      ShrBound(m / 2, i - 1);
    }
  }
}
