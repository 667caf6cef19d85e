/** Chunk sizes, request padding and bin indices, for 64-bit words and 16-byte alignment. */
module Sizes {
  import opened Bitmap

  const WORD_RANGE: nat := 0x1_0000_0000_0000_0000
  const ALIGNMENT: nat := 16
  const CHUNK_OVERHEAD: nat := 8
  const MIN_CHUNK: nat := 32
  const MAX_REQUEST: nat := WORD_RANGE - 128
  const MIN_REQUEST: nat := 23
  const MAX_SMALL_REQUEST: nat := 232
  const MIN_LARGE: nat := 256
  const NBINS: nat := 32
  const LAST_BIN_START: nat := 0xC0_0000

  /** Unsigned subtraction and addition, with wrap-around. */
  function Minus(a: nat, b: nat): (r: nat)
    requires a < WORD_RANGE && b < WORD_RANGE
    ensures r < WORD_RANGE
  {
    if b <= a then a - b else WORD_RANGE + a - b
  }

  function Plus(a: nat, b: nat): (r: nat)
    requires a < WORD_RANGE && b < WORD_RANGE
    ensures r < WORD_RANGE
  {
    if a + b < WORD_RANGE then a + b else a + b - WORD_RANGE
  }

  /** `pad_request`: masking with `~15` clears the low four bits. */
  function PadRequest(req: nat): nat
    requires req < WORD_RANGE
  {
    Plus(req, CHUNK_OVERHEAD + ALIGNMENT - 1) / ALIGNMENT * ALIGNMENT
  }

  function Request2Size(req: nat): nat
    requires req < WORD_RANGE
  {
    if req < MIN_REQUEST then MIN_CHUNK else PadRequest(req)
  }

  /** What padding promises: an aligned chunk that holds the request, less than 16 bytes too big
      once the request is above the minimum; and small requests are those of small chunks. */
  lemma PaddingFits(req: nat)
    requires req < MAX_REQUEST
    ensures var nb := Request2Size(req);
            nb % ALIGNMENT == 0 && MIN_CHUNK <= nb < WORD_RANGE - 96 && req + CHUNK_OVERHEAD <= nb &&
            (req >= MIN_REQUEST ==> nb < req + CHUNK_OVERHEAD + ALIGNMENT)
    ensures req <= MAX_SMALL_REQUEST <==> Request2Size(req) < MIN_LARGE
  {
  }

  function Min(a: int, b: int): int { if a < b then a else b }
  function Max(a: int, b: int): int { if a < b then b else a }

  /** The multiple of `unit` right below `y`. */
  lemma RoundDown(y: nat, unit: nat)
    requires unit > 0
    ensures y - unit < y / unit * unit <= y && (y < unit ==> y / unit * unit == 0)
  {
  }

  lemma RemainderIs(q: nat, r: nat, w: nat)
    requires r < w
    ensures (q * w + r) % w == r
  {
    var x := q * w + r;
    OneRemainder(q, r, x / w, x % w, w);
  }

  lemma OneRemainder(q: int, r: int, a: int, b: int, w: int)
    requires q * w + r == a * w + b && 0 <= r < w && 0 <= b < w
    ensures b == r
  {
    assert (q - a) * w == b - r;
    MulOrder(q - a, w);
  }

  lemma MulOrder(x: int, a: int)
    requires a > 0
    ensures (x >= 1 ==> x * a >= a) && (x <= -1 ==> x * a <= -a)
  {
  }

  /** `granularity_align`; the addition wraps around. */
  function AlignUp(x: nat, unit: nat): nat
    requires x < WORD_RANGE && 0 < unit < WORD_RANGE
  {
    Plus(x, unit - 1) / unit * unit
  }

  // ----- small bins

  predicate IsSmall(s: nat) {
    s / 8 < NBINS
  }

  function SmallIndex(s: nat): nat {
    s / 8
  }

  // ----- shifts as quotients

  lemma {:induction false} ShrBelow(s: nat, c: nat, n: nat, p: nat)
    requires p == Pow2(n)
    ensures Shr(s, n) < c <==> s < c * p
    decreases n
  {
    if n > 0 {
      var q := Pow2(n - 1);
      ShrBelow(s / 2, c, n - 1, q);
      TwiceTheProduct(c, q);
      HalfBelow(s, c * q);
    }
  }

  lemma TwiceTheProduct(c: nat, q: nat)
    ensures c * (2 * q) == 2 * (c * q)
  {
  }

  lemma HalfBelow(s: nat, x: nat)
    ensures s / 2 < x <==> s < 2 * x
  {
  }

  lemma {:induction false} ShrAdd(s: nat, a: nat, b: nat)
    ensures Shr(s, a + b) == Shr(Shr(s, a), b)
    decreases a
  {
    if a > 0 {
      ShrAdd(s / 2, a - 1, b);
    }
  }

  lemma ShrOne(s: nat, n: nat)
    ensures Shr(s, n + 1) == Shr(s, n) / 2
    ensures Bit(s, n) <==> Shr(s, n) % 2 == 1
  {
    ShrAdd(s, n, 1);
    ShrBit(s, n, 0);
  }

  lemma {:induction false} ShrMono(s: nat, t: nat, n: nat)
    requires s <= t
    ensures Shr(s, n) <= Shr(t, n)
    decreases n
  {
    if n > 0 {
      ShrMono(s / 2, t / 2, n - 1);
    }
  }

  lemma {:induction false} ShrToZero(s: nat, n: nat)
    ensures Shr(s, n) == 0 <==> s < Pow2(n)
    decreases n
  {
    if n > 0 {
      ShrToZero(s / 2, n - 1);
    }
  }

  lemma {:induction false} ScanIsShift(x: nat, k: nat)
    requires x > 0
    ensures BitScanReverse(x) == k <==> Shr(x, k) == 1
  {
    if x == 1 {
      if k > 0 {
        ShrToZero(0, k - 1);
      }
    } else if k > 0 {
      ScanIsShift(x / 2, k - 1);
    }
  }

  // ----- tree bins

  /** `compute_tree_index`, in the form that scans for the highest set bit. */
  function TreeIndex(s: nat): nat {
    var x := Shr(s, 8);
    if x == 0 then 0
    else if x > 0xFFFF then NBINS - 1
    else var k := BitScanReverse(x); 2 * k + Shr(s, k + 7) % 2
  }

  /** `leftshift_for_tree_index`: puts the highest bit that still varies inside bin `i` in the sign bit. */
  function LeftShift(i: nat): nat
    requires i < NBINS
  {
    if i == NBINS - 1 then 0 else 63 - (i / 2 + 6)
  }

  lemma BigPow2()
    ensures Pow2(8) == 0x100 && Pow2(16) == 0x1_0000 && Pow2(22) == 0x40_0000
  {
    assert Pow2(4) == 16;
    assert Pow2(8) == 256;
    assert Pow2(12) == 0x1000;
    assert Pow2(16) == 0x1_0000;
    assert Pow2(20) == 0x10_0000;
  }

  /** The thresholds of `compute_tree_index`, as sizes. */
  lemma Thresholds(s: nat)
    ensures Shr(s, 8) == 0 <==> s < MIN_LARGE
    ensures Shr(s, 8) > 0xFFFF <==> s >= 0x100_0000
    ensures Shr(s, 22) >= 3 <==> s >= LAST_BIN_START
    ensures Shr(s, 22) >= 4 <==> s >= 0x100_0000
  {
    BigPow2();
    ShrBelow(s, 1, 8, 0x100);
    ShrBelow(s, 0x1_0000, 8, 0x100);
    ShrBelow(s, 3, 22, 0x40_0000);
    ShrBelow(s, 4, 22, 0x40_0000);
  }

  lemma ScanBound(x: nat)
    requires 0 < x <= 0xFFFF
    ensures BitScanReverse(x) < 16
  {
    var k := BitScanReverse(x);
    if k >= 16 {
      Pow2Mono(16, k);
      BigPow2();
    }
  }

  lemma IndexBelowLast(s: nat)
    requires MIN_LARGE <= s < 0x100_0000
    ensures var i := TreeIndex(s); i < NBINS && Shr(s, i / 2 + 7) == 2 + i % 2
  {
    hide Shr, BitScanReverse, Pow2;
    Thresholds(s);
    var k := BitScanReverse(Shr(s, 8));
    ScanIsShift(Shr(s, 8), k);
    ScanBound(Shr(s, 8));
    ShrAdd(s, 8, k);
    ShrOne(s, k + 7);
  }

  lemma ShrPrefixUnique(s: nat, a: nat, b: nat)
    requires a < b && 2 <= Shr(s, a) <= 3
    ensures Shr(s, b) <= 1
  {
    ShrOne(s, a);
    ShrAdd(s, a + 1, b - a - 1);
  }

  lemma SamePrefixSameIndex(s: nat, i: nat, j: nat)
    requires Shr(s, i / 2 + 7) == 2 + i % 2 && Shr(s, j / 2 + 7) == 2 + j % 2
    ensures i == j
  {
    if i / 2 < j / 2 {
      ShrPrefixUnique(s, i / 2 + 7, j / 2 + 7);
    } else if j / 2 < i / 2 {
      ShrPrefixUnique(s, j / 2 + 7, i / 2 + 7);
    }
  }

  /** The last bin holds everything from its start up. */
  lemma LastBin(s: nat)
    requires MIN_LARGE <= s
    ensures TreeIndex(s) < NBINS
    ensures TreeIndex(s) == NBINS - 1 <==> s >= LAST_BIN_START
  {
    Thresholds(s);
    if s < 0x100_0000 {
      IndexBelowLast(s);
      var j := TreeIndex(s);
      if s >= LAST_BIN_START && j != NBINS - 1 {
        SamePrefixSameIndex(s, j, NBINS - 1);
      }
    }
  }

  /** Bin `i` below the last holds exactly the sizes whose leading bits are `2 + i % 2`, followed by
      `i / 2 + 7` free ones. */
  lemma TreeIndexIs(s: nat, i: nat)
    requires MIN_LARGE <= s && i < NBINS - 1
    ensures TreeIndex(s) == i <==> Shr(s, i / 2 + 7) == 2 + i % 2
  {
    hide TreeIndex, Shr, Pow2;
    LastBin(s);
    if s < 0x100_0000 {
      IndexBelowLast(s);
      if Shr(s, i / 2 + 7) == 2 + i % 2 {
        SamePrefixSameIndex(s, i, TreeIndex(s));
      }
    } else if Shr(s, i / 2 + 7) == 2 + i % 2 {
      Thresholds(s);
      if i / 2 < 15 {
        ShrPrefixUnique(s, i / 2 + 7, 22);
      }
    }
  }

  /** Bins are ordered by size. */
  lemma TreeIndexMono(s: nat, t: nat)
    requires MIN_LARGE <= s <= t
    ensures TreeIndex(s) <= TreeIndex(t)
  {
    hide TreeIndex, Shr, Pow2;
    var i, j := TreeIndex(s), TreeIndex(t);
    LastBin(s);
    LastBin(t);
    if j < i < NBINS - 1 {
      TreeIndexIs(t, j);
      TreeIndexIs(s, i);
      ShrMono(s, t, i / 2 + 7);
      if j / 2 < i / 2 {
        ShrPrefixUnique(t, j / 2 + 7, i / 2 + 7);
      }
    }
  }
}
