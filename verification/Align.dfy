/** The arithmetic of `memalign` and `calloc`. */
module Align {
  import opened Bitmap
  import opened Sizes
  import opened Slots
  import opened Layout

  // ----- powers of two

  lemma {:induction false} AndSelf(x: nat)
    ensures And(x, x) == x
  {
    if x > 0 {
      AndSelf(x / 2);
    }
  }

  /** `x & (x - 1)` is zero exactly for powers of two. */
  lemma {:induction false} PowerTest(x: nat) returns (k: nat)
    requires x > 0
    ensures And(x, x - 1) == 0 ==> x == Pow2(k)
    ensures x == Pow2(k) ==> And(x, x - 1) == 0
    ensures And(x, x - 1) != 0 ==> forall j: nat :: x != Pow2(j)
  {
    k := 0;
    if x % 2 == 1 {
      AndSelf(x / 2);
      forall j: nat ensures x > 1 ==> x != Pow2(j) {
      }
    } else {
      var h := PowerTest(x / 2);
      k := h + 1;
      assert (x - 1) / 2 == x / 2 - 1;
      forall j: nat | x == Pow2(j) ensures x / 2 == Pow2(j - 1) && j > 0 {
      }
    }
  }

  /** `a <<= 1` on a 64-bit word. */
  function Doubled(a: nat): nat {
    2 * a % WORD_RANGE
  }

  function DoubledTimes(a: nat, k: nat): nat
    decreases k
  {
    if k == 0 then a else DoubledTimes(Doubled(a), k - 1)
  }

  lemma {:induction false} DoubledIs(j: nat, k: nat)
    requires j <= 63
    ensures DoubledTimes(Pow2(j), k) == if j + k <= 63 then Pow2(j + k) else 0
    decreases k
  {
    hide Pow2;
    if k > 0 {
      DoubledOnce(j);
      if j < 63 {
        DoubledIs(j + 1, k - 1);
      } else {
        DoubledZero(k - 1);
      }
    }
  }

  lemma DoubledOnce(j: nat)
    requires j <= 63
    ensures Pow2(j) < WORD_RANGE && Doubled(Pow2(j)) == if j < 63 then Pow2(j + 1) else 0
  {
    Pow64();
    Pow2Mono(j + 1, 64);
  }

  lemma {:induction false} DoubledZero(k: nat)
    ensures DoubledTimes(0, k) == 0
    decreases k
  {
    if k > 0 {
      DoubledZero(k - 1);
    }
  }

  /** The loop that rounds an alignment up to a power of two ends exactly for alignments up to 2^63. */
  lemma RoundingEnds(alignment: nat)
    requires alignment < WORD_RANGE
    ensures (exists k: nat :: DoubledTimes(32, k) >= alignment) <==> alignment <= Pow2(63)
  {
    Pow64();
    assert Pow2(5) == 32;
    DoubledIs(5, 58);
    forall k: nat | DoubledTimes(32, k) >= alignment ensures alignment <= Pow2(63) {
      DoubledIs(5, k);
      if 5 + k <= 63 {
        Pow2Mono(5 + k, 63);
      }
    }
  }

  /** The least power of two, from 32 on, that is not below the alignment. */
  predicate RoundedTo(alignment: nat, k: nat) {
    5 <= k <= 63 && 32 <= Pow2(k) && alignment <= Pow2(k) && (Pow2(k) == 32 || Pow2(k) < 2 * alignment)
  }

  /** The alignment that `internal_memalign` works with: at least 32 and a power of two.  Above 2^63 the source
      would not get out of the loop (see `RoundingEnds`). */
  method RoundAlignment(alignment: nat) returns (a: nat, ghost k: nat)
    requires alignment <= Pow2(63)
    ensures a == Pow2(k) && RoundedTo(alignment, k)
  {
    hide Pow2, And;
    SmallPowers();
    var al := if alignment < MIN_CHUNK then MIN_CHUNK else alignment;
    k := PowerTest(al);
    if And(al, al - 1) != 0 {
      k := 5;
      a := 32;
      while a < al
        invariant a == Pow2(k) && 5 <= k <= 63 && (k == 5 || a < 2 * al)
        decreases 63 - k
      {
        PowerStep(k, al);
        DoubledOnce(k);
        a := Doubled(a);
        k := k + 1;
      }
      Pow2Mono(5, k);
    } else {
      a := al;
      PowerRange(k);
    }
  }

  lemma SmallPowers()
    ensures Pow2(5) == 32 <= Pow2(63) && Pow2(64) == WORD_RANGE
  {
    Pow64();
    Pow2Mono(5, 63);
  }

  lemma PowerStep(k: nat, al: nat)
    requires k <= 63 && Pow2(k) < al <= Pow2(63)
    ensures k < 63 && Pow2(k + 1) == 2 * Pow2(k)
  {
  }

  lemma PowerRange(k: nat)
    requires 32 <= Pow2(k) <= Pow2(63)
    ensures 5 <= k <= 63
  {
    if k < 5 {
      Pow2Mono(k, 4);
    } else if k > 63 {
      Pow2Mono(64, k);
    }
  }

  // ----- an aligned place inside a chunk

  /** `(x + a - 1) & -a`. */
  function RoundUp(x: nat, a: nat): nat
    requires a > 0
  {
    (x + a - 1) / a * a
  }

  lemma RoundUpIs(x: nat, a: nat)
    requires a > 0
    ensures x <= RoundUp(x, a) < x + a && RoundUp(x, a) % a == 0
  {
    MulMod((x + a - 1) / a, a);
    RoundDown(x + a - 1, a);
  }

  /** Where the aligned chunk goes in a chunk at `p`, at least 32 bytes in. */
  function AlignedPlace(p: nat, a: nat): int
    requires a > 0
  {
    var br := RoundUp(p + 16, a) - 16;
    if br - p >= MIN_CHUNK then br else br + a
  }

  lemma AlignedPlaceIs(p: nat, a: nat, k: nat)
    requires a == Pow2(k) && 5 <= k && IsAligned(p) && (p + 16) % a != 0
    ensures var q := AlignedPlace(p, a); (q + 16) % a == 0 && IsAligned(q) && p + MIN_CHUNK <= q <= p + a + 16
  {
    PowerOfSixteen(k);
    var r := RoundUp(p + 16, a);
    RoundUpIs(p + 16, a);
    MultipleAligned(r, a);
    AddMultiple(r, a);
    hide RoundUp, Pow2;
    assert r != p + 16;
    PlaceFrom(p, a, r);
  }

  /** Where the aligned chunk begins: where `p` does if that will do. */
  function PlaceFor(p: nat, a: nat): int
    requires a > 0
  {
    if (p + 16) % a == 0 then p else AlignedPlace(p, a)
  }

  /** What the aligned chunk keeps of `rest` bytes: the back is cut off if it is more than a smallest chunk. */
  function KeptOf(rest: int, nb: nat): int {
    if rest > nb + MIN_CHUNK then nb else rest
  }

  lemma LeadIs(p: nat, a: nat, k: nat)
    requires a == Pow2(k) && 5 <= k && IsAligned(p) && (p + 16) % a != 0
    ensures AlignedPlace(p, a) != p + a && (AlignedPlace(p, a) == p + a + 16 <==> (p + 32) % a == 0)
  {
    hide AlignedPlace, Pow2, IsAligned;
    var q := AlignedPlace(p, a);
    PowerOfSixteen(k);
    AlignedPlaceIs(p, a, k);
    if q == p + a { LessMultiple(q + 16, a); }
    if q == p + a + 16 { LessMultiple(q + 16, a); }
    if (p + 32) % a == 0 { FarthestIn(p, a); }
  }

  lemma LessMultiple(r: nat, a: nat)
    requires 0 < a <= r && r % a == 0
    ensures (r - a) % a == 0
  {
    var m := r / a;
    assert r - a == (m - 1) * a;
    MulMod(m - 1, a);
  }

  lemma FarthestIn(p: nat, a: nat)
    requires a >= 32 && IsAligned(a) && IsAligned(p) && (p + 32) % a == 0
    ensures AlignedPlace(p, a) == p + a + 16
  {
    RoundUpIs(p + 16, a);
    SameMultiple(RoundUp(p + 16, a), p + 32, a);
    hide RoundUp;
  }

  /** When an aligned chunk is a whole smallest chunk too big: exactly if the chunk that `malloc` gave has 16 bytes more
      than it had to and the aligned place is the one farthest in.  What is left behind is then 32 bytes over, and not
      cut off, although it could be a chunk. */
  lemma ExcessIff(p: nat, a: nat, k: nat, nb: nat, size: nat)
    requires a == Pow2(k) && 5 <= k && IsAligned(p) && IsAligned(nb) && IsAligned(size)
    requires nb + a + MIN_CHUNK <= size < nb + a + 2 * MIN_CHUNK
    ensures var kept := KeptOf(size - (PlaceFor(p, a) - p), nb);
            && nb <= kept <= nb + MIN_CHUNK
            && (kept == nb + MIN_CHUNK <==> size == nb + a + MIN_CHUNK + 16 && (p + 32) % a == 0)
  {
    hide AlignedPlace, Pow2, IsAligned;
    PowerOfSixteen(k);
    OneOfTwo(nb + a + MIN_CHUNK, size, nb, a);
    if (p + 16) % a == 0 {
      NotBoth(p, a);
    } else {
      AlignedPlaceIs(p, a, k);
      LeadIs(p, a, k);
      LeadInSteps(p, AlignedPlace(p, a), a);
    }
  }

  lemma OneOfTwo(least: nat, size: nat, nb: nat, a: nat)
    requires least == nb + a + MIN_CHUNK && IsAligned(nb) && IsAligned(a) && IsAligned(size)
    requires least <= size < least + MIN_CHUNK
    ensures size == least || size == least + 16
  {
  }

  lemma LeadInSteps(p: nat, q: int, a: nat)
    requires IsAligned(p) && IsAligned(q) && IsAligned(a) && q <= p + a + 16 && q != p + a
    ensures q == p + a + 16 || q <= p + a - 16
  {
  }

  lemma NotBoth(p: nat, a: nat)
    requires a >= 32 && (p + 16) % a == 0
    ensures (p + 32) % a != 0
  {
    if (p + 32) % a == 0 { SameMultiple(p + 16, p + 32, a); }
  }

  /** The size of the chunk that `internal_memalign` asks for. */
  function WithRoom(bytes: nat, a: nat): nat
    requires bytes < WORD_RANGE
  {
    Request2Size(bytes) + a + MIN_CHUNK
  }

  lemma RequestOfSize(nb: nat, a: nat)
    requires nb % 16 == 0 && a % 16 == 0 && nb >= MIN_CHUNK && nb + a + MIN_CHUNK < WORD_RANGE - 96
    ensures Request2Size(nb + a + MIN_CHUNK - CHUNK_OVERHEAD) == nb + a + MIN_CHUNK
  {
  }

  lemma SameMultiple(x: nat, y: nat, a: nat)
    requires a > 0 && x % a == 0 && y % a == 0 && x < y + a && y < x + a
    ensures x == y
  {
    var m, n := x / a, y / a;
    assert x == m * a && y == n * a;
    if m < n {
      Spread(m, n, a);
    } else if n < m {
      Spread(n, m, a);
    }
  }

  lemma Spread(m: nat, n: nat, a: nat)
    requires m < n
    ensures n * a - m * a >= a
  {
    assert n * a - m * a == (n - m) * a;
    var e: nat := n - m - 1;
    assert (e + 1) * a == a + e * a;
  }

  lemma PlaceFrom(p: nat, a: nat, r: nat)
    requires IsAligned(p) && IsAligned(a) && IsAligned(r) && p + 16 < r < p + 16 + a
    ensures var q := if r - 16 - p >= MIN_CHUNK then r - 16 else r - 16 + a;
            IsAligned(q) && p + MIN_CHUNK <= q <= p + a + 16
  {
  }

  lemma PowerOfSixteen(k: nat)
    requires k >= 5
    ensures IsAligned(Pow2(k)) && Pow2(k) >= 32
  {
    Pow2Mono(5, k);
    var h := k - 4;
    assert Pow2(k) == 2 * Pow2(k - 1) && Pow2(k - 1) == 2 * Pow2(k - 2) && Pow2(k - 2) == 2 * Pow2(k - 3)
           && Pow2(k - 3) == 2 * Pow2(h);
    assert Pow2(k) == 16 * Pow2(h);
  }

  lemma MultipleAligned(r: nat, a: nat)
    requires a > 0 && r % a == 0 && IsAligned(a)
    ensures IsAligned(r)
  {
    var m := r / a;
    var n := a / 16;
    assert r == m * (16 * n);
    assert r == 16 * (m * n);
  }

  lemma AddMultiple(r: nat, a: nat)
    requires a > 0 && r % a == 0
    ensures (r + a) % a == 0
  {
    var m := r / a;
    assert r + a == (m + 1) * a;
    MulMod(m + 1, a);
  }

  lemma MulMod(m: nat, a: nat)
    requires a > 0
    ensures m * a % a == 0
  {
    var x := m * a;
    var q, r := x / a, x % a;
    OnlyMultiple(m, q, r, a);
  }

  lemma OnlyMultiple(m: int, q: int, r: int, a: int)
    requires a > 0 && m * a == q * a + r && 0 <= r < a
    ensures r == 0
  {
    assert (m - q) * a == r;
    MulOrder(m - q, a);
  }

  lemma AlignedBack(p: int)
    requires IsAligned(p + 16)
    ensures IsAligned(p)
  {
  }

  lemma AlignedDiff(q: int, p: int)
    requires IsAligned(p) && IsAligned(q)
    ensures IsAligned(q - p)
  {
  }

  lemma HalfRange()
    ensures 2 * Pow2(63) == WORD_RANGE
  {
    Pow64();
  }

  lemma PowerBound(k: nat)
    requires k <= 63
    ensures Pow2(k) <= Pow2(63)
  {
    Pow2Mono(k, 63);
  }

  lemma SizeBound(bytes: nat)
    requires bytes < MAX_REQUEST
    ensures Request2Size(bytes) <= bytes + 32
  {
  }

  // ----- calloc

  /** The size `dlcalloc` asks for: the product, or the largest word if the product does not fit one.  The division
      is spared when both factors are below 2^16. */
  function CallocRequest(n: nat, size: nat): nat
    requires n < WORD_RANGE && size < WORD_RANGE
  {
    if n == 0 then 0
    else
      var req := n * size % WORD_RANGE;
      if (n >= 0x1_0000 || size >= 0x1_0000) && req / n != size then WORD_RANGE - 1 else req
  }

  /** The bytes that `n` elements of `size` bytes take. */
  function Total(n: nat, size: nat): nat {
    n * size
  }

  lemma CallocRequestIs(n: nat, size: nat)
    requires n < WORD_RANGE && size < WORD_RANGE
    ensures CallocRequest(n, size) == if Total(n, size) < WORD_RANGE then Total(n, size) else WORD_RANGE - 1
  {
    if n != 0 {
      var x := n * size;
      if x < WORD_RANGE {
        QuotientBack(n, size);
      } else {
        SmallProduct(n, size);
        WrappedQuotient(n, size, x, x % WORD_RANGE);
      }
    }
  }

  lemma QuotientBack(n: nat, size: nat)
    requires n > 0
    ensures n * size / n == size
  {
    var x := n * size;
    assert x == (x / n) * n + x % n;
    OnlyMultiple(size, x / n, x % n, n);
    assert (size - x / n) * n == 0;
    MulOrder(size - x / n, n);
  }

  lemma SmallProduct(n: nat, size: nat)
    requires n * size >= WORD_RANGE
    ensures n >= 0x1_0000 || size >= 0x1_0000
  {
    if n < 0x1_0000 {
      ProductBound(n, 0x1_0000, size);
    }
  }

  lemma ProductBound(n: nat, m: nat, size: nat)
    requires n <= m
    ensures n * size <= m * size
  {
  }

  lemma WrappedQuotient(n: nat, size: nat, x: nat, req: nat)
    requires 0 < n < WORD_RANGE && x == n * size && x >= WORD_RANGE && req == x % WORD_RANGE
    ensures req / n != size
  {
    assert req <= x - WORD_RANGE;
    var q := req / n;
    RoundDown(req, n);
    assert q * n < size * n;
  }

  lemma RequestInRange(n: nat, size: nat)
    requires n < WORD_RANGE && size < WORD_RANGE
    ensures CallocRequest(n, size) < WORD_RANGE
  {
    CallocRequestIs(n, size);
  }
}
