/** A caller's view of the heap: a store of byte blocks, each independent of the others. */
module Session {
  import opened Bitmap
  import opened Sizes
  import opened Memory
  import opened Layout
  import opened Heap
  import opened Steps
  import opened Resize
  import opened Blocks
  import opened Malloc
  import opened Align

  /** What a caller can ask for; a request about an address that holds no block is ignored. */
  datatype Op =
    | Allocate(bytes: nat)
    | AllocateAligned(alignment: nat, bytes: nat)
    | AllocateCleared(n: nat, size: nat)
    | Reallocate(m: int, bytes: nat)
    | Release(m: int)
    | ReleaseAll(ms: seq<int>)
    | Trim(pad: nat)
    | Put(m: int, i: nat, value: int)

  /** Sizes are 64-bit words; the alignment is one that rounding up ends for. */
  predicate IsRequest(op: Op) {
    match op
    case Allocate(n) => n < WORD_RANGE
    case AllocateAligned(alignment, n) => alignment <= Pow2(63) && n < WORD_RANGE
    case AllocateCleared(n, size) => n < WORD_RANGE && size < WORD_RANGE
    case Reallocate(m, n) => n < WORD_RANGE
    case _ => true
  }

  /** The memory a request may take, beyond which it is too big to be put to a system that hands out `unit` bytes. */
  function Asks(op: Op): nat {
    match op
    case Allocate(n) => n
    case AllocateAligned(alignment, n) => n + 2 * alignment + 64
    case AllocateCleared(n, size) => Total(n, size)
    case Reallocate(m, n) => n
    case _ => 0
  }

  predicate TooBig(op: Op, unit: nat) {
    Asks(op) + unit + 256 >= WORD_RANGE
  }

  /** A request may fail during which the count of refusals by the system went from `before` to `after`: the system
      refused memory for it, it may go beyond the footprint limit, or it is too big. */
  predicate MayFail(op: Op, before: nat, after: nat, unit: nat, limit: nat) {
    after > before || limit != 0 || TooBig(op, unit)
  }

  /** The store: the contents of each block, by address. */
  type Store = map<int, seq<int>>

  /** A block of `n` bytes has come up at `m`, or none if `m` is 0; the others are as they were. */
  ghost predicate Added(b: Store, b': Store, m: int, n: nat) {
    if m == 0 then b' == b else m !in b && m in b' && |b'[m]| == n && b' == b[m := b'[m]]
  }

  /** The block at `m` is now at `m'` and has `n` bytes, with its old contents as far as they go. */
  ghost predicate Moved(b: Store, b': Store, m: int, m': int, n: nat) {
    if m' == 0 then b' == b
    else
      && m in b && (m' == m || m' !in b) && m' in b' && |b'[m']| == n && b' == (b - {m})[m' := b'[m']]
      && forall i | 0 <= i < n && i < |b[m]| :: b'[m'][i] == b[m][i]
  }

  /** A list of blocks and nulls, no block twice. */
  predicate ListsBlocks(blocks: set<int>, ms: seq<int>) {
    NoneTwice(ms) && forall i | 0 <= i < |ms| :: ms[i] == 0 || ms[i] in blocks
  }

  /** What the store does on each request, given the address that comes back and whether memory was refused. */
  ghost predicate Step(b: Store, op: Op, m': int, refused: bool, b': Store) {
    match op
    case Allocate(n) => Added(b, b', m', n) && (m' == 0 ==> refused)
    case AllocateAligned(alignment, n) =>
      && Added(b, b', m', n) && (m' == 0 ==> refused)
      && (m' != 0 ==> exists k: nat :: alignment <= Pow2(k) && m' % Pow2(k) == 0)
    case AllocateCleared(n, size) =>
      && Added(b, b', m', Total(n, size)) && (m' == 0 ==> refused)
      && (m' != 0 ==> forall i | 0 <= i < |b'[m']| :: b'[m'][i] == 0)
    case Reallocate(m, n) =>
      if m == 0 then Added(b, b', m', n) && (m' == 0 ==> refused)
      else if m in b then Moved(b, b', m, m', n) && (m' == 0 ==> refused)
      else b' == b
    case Release(m) => b' == b - {m}
    case ReleaseAll(ms) => b' == if ListsBlocks(b.Keys, ms) then b - (set m | m in ms) else b
    case Trim(_) => b' == b
    case Put(m, i, value) => b' == if m in b && i < |b[m]| then b[m := b[m][i := value]] else b
  }

  /** A whole run of the store. */
  ghost predicate Run(b: Store, ops: seq<Op>, results: seq<int>, refused: seq<bool>, b': Store)
    decreases |ops|
  {
    |results| == |ops| == |refused| &&
    if ops == [] then b' == b
    else exists b1 :: Step(b, ops[0], results[0], refused[0], b1) && Run(b1, ops[1..], results[1..], refused[1..], b')
  }

  lemma OneStep(b: Store, op: Op, r: int, f: bool, b': Store)
    requires Step(b, op, r, f, b')
    ensures Run(b, [op], [r], [f], b')
  {
    hide Step;
    assert [op][0] == op && [r][0] == r && [f][0] == f;
    assert [op][1..] == [] && [r][1..] == [] && [f][1..] == [];
    assert Run(b', [], [], [], b');
    assert Step(b, [op][0], [r][0], [f][0], b') && Run(b', [op][1..], [r][1..], [f][1..], b');
  }

  lemma {:induction false} RunExtended(b: Store, ops: seq<Op>, results: seq<int>, refused: seq<bool>, b1: Store,
                                       op: Op, r: int, f: bool, b': Store)
    requires Run(b, ops, results, refused, b1) && Step(b1, op, r, f, b')
    ensures Run(b, ops + [op], results + [r], refused + [f], b')
    decreases |ops|
  {
    hide Step;
    if ops == [] {
      assert ops + [op] == [op] && results + [r] == [r] && refused + [f] == [f];
      OneStep(b, op, r, f, b');
    } else {
      var b0 :| Step(b, ops[0], results[0], refused[0], b0) && Run(b0, ops[1..], results[1..], refused[1..], b1);
      RunExtended(b0, ops[1..], results[1..], refused[1..], b1, op, r, f, b');
      assert (ops + [op])[1..] == ops[1..] + [op] && (results + [r])[1..] == results[1..] + [r]
             && (refused + [f])[1..] == refused[1..] + [f];
    }
  }

  /** The `n` bytes from `m` on. */
  ghost function Numbers(d: Bytes, m: int, n: nat): (s: seq<int>)
    ensures |s| == n && forall i | 0 <= i < n :: s[i] == d.At(m + i).Number()
  {
    seq(n, i => d.At(m + i).Number())
  }

  ghost function Contents(d: Bytes, sizes: map<int, nat>): Store {
    map m | m in sizes :: Numbers(d, m, sizes[m])
  }

  /** All blocks of `S` have kept their bytes. */
  lemma ContentsKept(g: Ghost, g': Ghost, S: set<int>, d: Bytes, d': Bytes, m: int, n: nat)
    requires Keeps(g, g', S, d, d') && m - 16 in S && m + n <= BlockEnd(g, m - 16)
    ensures Numbers(d', m, n) == Numbers(d, m, n) && m + n <= BlockEnd(g', m - 16)
  {
    assert SameBlock(g, g', m - 16, d, d');
    forall i | 0 <= i < n ensures Numbers(d', m, n)[i] == Numbers(d, m, n)[i] {
      assert d'.At(m + i) == d.At(m + i);
    }
  }

  ghost predicate Fits(g: Ghost, sizes: map<int, nat>) {
    forall m | m in sizes :: m + sizes[m] <= BlockEnd(g, m - 16)
  }

  /** The blocks recorded are those in the chunks `H`. */
  ghost predicate Agree(sizes: map<int, nat>, H: set<int>) {
    forall m {:trigger m in sizes} :: m in sizes <==> m - 16 in H
  }

  /** They are among those in the chunks `S`. */
  ghost predicate Covered(sizes: map<int, nat>, S: set<int>) {
    forall m | m in sizes :: m - 16 in S
  }

  lemma AgreeCovers(sizes: map<int, nat>, H: set<int>, S: set<int>)
    requires Agree(sizes, H) && H <= S
    ensures Covered(sizes, S)
  {
  }

  lemma AgreeMore(sizes: map<int, nat>, H: set<int>, m: int, n: nat)
    requires Agree(sizes, H)
    ensures Agree(sizes[m := n], H + {m - 16})
  {
    var t := sizes[m := n];
    forall x ensures x in t <==> x - 16 in H + {m - 16} {
      assert x in sizes <==> x - 16 in H;
    }
  }

  lemma AgreeLess(sizes: map<int, nat>, H: set<int>, m: int)
    requires Agree(sizes, H)
    ensures Agree(sizes - {m}, H - {m - 16}) && Covered(sizes - {m}, H - {m - 16})
  {
    var t := sizes - {m};
    forall x ensures x in t <==> x - 16 in H - {m - 16} {
      assert x in sizes <==> x - 16 in H;
    }
  }

  lemma AgreeAt(sizes: map<int, nat>, H: set<int>, m: int)
    requires Agree(sizes, H)
    ensures m in sizes <==> m - 16 in H
  {
  }

  /** A block has come up and all others are kept. */
  lemma StoreAdded(g: Ghost, g': Ghost, sizes: map<int, nat>, d: Bytes, d': Bytes, m: int, n: nat, S: set<int>)
    requires Keeps(g, g', S, d, d') && Covered(sizes, S) && Fits(g, sizes) && m != 0 && m !in sizes
             && m + n <= BlockEnd(g', m - 16)
    ensures Added(Contents(d, sizes), Contents(d', sizes[m := n]), m, n) && Fits(g', sizes[m := n])
  {
    hide Keeps, Numbers, BlockEnd;
    forall x | x in sizes
      ensures Numbers(d', x, sizes[x]) == Numbers(d, x, sizes[x]) && x + sizes[x] <= BlockEnd(g', x - 16)
    {
      ContentsKept(g, g', S, d, d', x, sizes[x]);
    }
    assert Contents(d', sizes[m := n]) == Contents(d, sizes)[m := Numbers(d', m, n)];
  }

  /** The block at `m` has gone and all others are kept. */
  lemma StoreRemoved(g: Ghost, g': Ghost, sizes: map<int, nat>, d: Bytes, d': Bytes, m: int, S: set<int>)
    requires Keeps(g, g', S, d, d') && Covered(sizes - {m}, S) && Fits(g, sizes)
    ensures Contents(d', sizes - {m}) == Contents(d, sizes) - {m} && Fits(g', sizes - {m})
  {
    hide Keeps, Numbers, BlockEnd;
    forall x | x in sizes && x != m
      ensures Numbers(d', x, sizes[x]) == Numbers(d, x, sizes[x]) && x + sizes[x] <= BlockEnd(g', x - 16)
    {
      assert x in sizes - {m};
      ContentsKept(g, g', S, d, d', x, sizes[x]);
    }
  }

  lemma StoreMoved(g: Ghost, g': Ghost, sizes: map<int, nat>, d: Bytes, d': Bytes, m: int, m': int, n: nat, S: set<int>)
    requires Keeps(g, g', S, d, d') && Covered(sizes - {m}, S) && Fits(g, sizes) && m in sizes
             && m' != 0 && (m' == m || m' !in sizes)
    requires m' + n <= BlockEnd(g', m' - 16) && Copied(m - 16, m' - 16, Min(n, BlockEnd(g, m - 16) - m), d, d')
    ensures Moved(Contents(d, sizes), Contents(d', (sizes - {m})[m' := n]), m, m', n)
            && Fits(g', (sizes - {m})[m' := n])
  {
    hide Keeps, BlockEnd;
    StoreRemoved(g, g', sizes, d, d', m, S);
    var b, b' := Contents(d, sizes), Contents(d', (sizes - {m})[m' := n]);
    assert b' == Contents(d', sizes - {m})[m' := Numbers(d', m', n)];
    forall i | 0 <= i < n && i < sizes[m] ensures b'[m'][i] == b[m][i] {
      assert d'.At(m' + i).Number() == d.At(m' + i - (m' - 16) + (m - 16)).Number();
    }
  }

  lemma StorePut(g: Ghost, sizes: map<int, nat>, d: Bytes, d': Bytes, m: int, i: nat, v: int, S: set<int>)
    requires Keeps(g, g, S, d, d') && Covered(sizes - {m}, S) && Fits(g, sizes) && m in sizes
             && i < sizes[m] && d' == d.Set(m + i, User(v))
    ensures Contents(d', sizes) == Contents(d, sizes)[m := Contents(d, sizes)[m][i := v]]
  {
    hide Keeps, BlockEnd;
    forall x | x in sizes && x != m ensures Numbers(d', x, sizes[x]) == Numbers(d, x, sizes[x]) {
      assert x in sizes - {m};
      ContentsKept(g, g, S, d, d', x, sizes[x]);
    }
    assert Numbers(d', m, sizes[m]) == Numbers(d, m, sizes[m])[i := v];
  }

  /** A list of blocks has gone and all others are kept. */
  lemma StoreFewer(g: Ghost, g': Ghost, sizes: map<int, nat>, d: Bytes, d': Bytes, gone: set<int>, S: set<int>)
    requires Keeps(g, g', S, d, d') && Covered(sizes - gone, S) && Fits(g, sizes)
    ensures Contents(d', sizes - gone) == Contents(d, sizes) - gone && Fits(g', sizes - gone)
  {
    hide Keeps, Numbers, BlockEnd;
    forall x | x in sizes && x !in gone
      ensures Numbers(d', x, sizes[x]) == Numbers(d, x, sizes[x]) && x + sizes[x] <= BlockEnd(g', x - 16)
    {
      assert x in sizes - gone;
      ContentsKept(g, g', S, d, d', x, sizes[x]);
    }
  }

  lemma ListedChunks(sizes: map<int, nat>, ms: seq<int>, H: set<int>, sizes': map<int, nat>, H': set<int>)
    requires ListsBlocks(sizes.Keys, ms) && Agree(sizes, H) && 0 !in sizes
    requires sizes' == sizes - (set m | m in ms) && H' == H - ChunksOf(ms)
    ensures ChunksOf(ms) <= H && NoneTwice(ms) && Agree(sizes', H') && Covered(sizes', H')
  {
    forall m | m in sizes ensures m in ms <==> m - 16 in ChunksOf(ms) {
      if m in ms {
        var i :| 0 <= i < |ms| && ms[i] == m;
      }
    }
  }

  lemma ClearedBlock(d: Bytes, sizes: map<int, nat>, m: int)
    requires m in sizes && AllZero(d, m, m + sizes[m])
    ensures m in Contents(d, sizes) && forall i | 0 <= i < |Contents(d, sizes)[m]| :: Contents(d, sizes)[m][i] == 0
  {
    forall i | 0 <= i < sizes[m] ensures Numbers(d, m, sizes[m])[i] == 0 {
      assert d.At(m + i) == User(0);
    }
  }

  class Session {
    const heap: MallocState
    var sizes: map<int, nat>

    /** The blocks recorded are exactly those held, and each has room for its bytes. */
    ghost predicate Valid()
      reads this, heap, heap.mem, heap.bins, heap.sys
    {
      && heap.Valid() && Agree(sizes, heap.Held())
      && Fits(heap.g, sizes)
    }

    ghost function Blocks(): Store
      reads this, heap, heap.mem
    {
      Contents(heap.mem.data, sizes)
    }

    /** The request may have failed, where the system had refused memory `refusals` times before it. */
    ghost predicate Refused(op: Op, refusals: nat)
      reads heap, heap.sys
    {
      MayFail(op, refusals, heap.sys.refusals, heap.granularity, heap.footprintLimit)
    }

    lemma WhyRefused(op: Op, bytes: nat, refusals: nat, fp: nat)
      requires heap.NoMemory(bytes, refusals, fp) && bytes <= Asks(op) + 32 && heap.granularity > 0
      ensures Refused(op, refusals)
    {
      if bytes < MAX_REQUEST {
        SizeBound(bytes);
      }
    }

    constructor (h: MallocState)
      requires h.Valid() && h.Held() == {}
      ensures Valid() && heap == h && Blocks() == map[]
    {
      heap, sizes := h, map[];
    }

    method Allocate(bytes: nat) returns (m: int)
      requires Valid() && bytes < WORD_RANGE
      modifies this, heap, heap.mem, heap.bins, heap.sys
      ensures Valid() && Added(old(Blocks()), Blocks(), m, bytes)
              && (m == 0 ==> Refused(Op.Allocate(bytes), old(heap.sys.refusals)))
      ensures SameLimits(old(heap.granularity), old(heap.footprintLimit), old(heap.sys.refusals))
    {
      hide Agree, Covered, MallocState.Valid, Keeps, Fits, BlockEnd, Contents, ServedFrom, NothingServes,
           MallocState.NoMemory, AllZero,
           Snug, TooBig;
      ghost var S := heap.g.live + heap.g.maps.Keys;
      AgreeCovers(sizes, heap.Held(), S);
      m := heap.Malloc(bytes);
      heap.UnitPositive();
      if m != 0 {
        NewHere(old(heap.Held()), m, bytes);
        StoreAdded(old(heap.g), heap.g, sizes, old(heap.mem.data), heap.mem.data, m, bytes, S);
        sizes := sizes[m := bytes];
      } else {
        WhyRefused(Op.Allocate(bytes), bytes, old(heap.sys.refusals), old(heap.footprint));
      }
    }

    /** A block that was not held before is recorded. */
    lemma NewHere(H: set<int>, m: int, n: nat)
      requires Agree(sizes, H) && m - 16 !in H
      ensures m !in sizes && Agree(sizes[m := n], H + {m - 16})
    {
      hide Agree;
      AgreeAt(sizes, H, m);
      AgreeMore(sizes, H, m, n);
    }

    /** The limits are as they were, and the system has at most refused more. */
    ghost predicate SameLimits(unit: nat, limit: nat, refusals: nat)
      reads heap, heap.sys
    {
      heap.granularity == unit && heap.footprintLimit == limit && heap.sys.refusals >= refusals
    }

    method AllocateAligned(alignment: nat, bytes: nat) returns (m: int)
      requires Valid() && alignment <= Pow2(63) && bytes < WORD_RANGE
      modifies this, heap, heap.mem, heap.bins, heap.sys
      ensures Valid() && Added(old(Blocks()), Blocks(), m, bytes)
              && (m != 0 ==> exists k: nat :: alignment <= Pow2(k) && m % Pow2(k) == 0)
      ensures m == 0 ==> Refused(Op.AllocateAligned(alignment, bytes), old(heap.sys.refusals))
      ensures SameLimits(old(heap.granularity), old(heap.footprintLimit), old(heap.sys.refusals))
    {
      hide Agree, Covered, MallocState.Valid, Keeps, Fits, BlockEnd, Contents, Pow2, MallocState.NoMemory,
           MallocState.NoAligned,
           TooBig;
      ghost var S := heap.Held();
      ghost var from, k;
      AgreeCovers(sizes, S, S);
      m, from, k := heap.Memalign(alignment, bytes);
      heap.UnitPositive();
      if m != 0 {
        NewHere(S, m, bytes);
        StoreAdded(old(heap.g), heap.g, sizes, old(heap.mem.data), heap.mem.data, m, bytes, S);
        sizes := sizes[m := bytes];
      } else {
        WhyNotAligned(alignment, bytes, k, old(heap.sys.refusals), old(heap.footprint));
      }
    }

    lemma WhyNotAligned(alignment: nat, bytes: nat, k: nat, refusals: nat, fp: nat)
      requires bytes < WORD_RANGE && RoundedTo(alignment, k) && heap.NoAligned(bytes, Pow2(k), refusals, fp)
               && heap.granularity > 0
      ensures Refused(Op.AllocateAligned(alignment, bytes), refusals)
    {
      hide Pow2, MallocState.NoMemory;
      var op := Op.AllocateAligned(alignment, bytes);
      if bytes + Pow2(k) < MAX_REQUEST {
        SizeBound(bytes);
        WhyRefused(op, WithRoom(bytes, Pow2(k)) - CHUNK_OVERHEAD, refusals, fp);
      }
    }

    method AllocateCleared(n: nat, size: nat) returns (m: int)
      requires Valid() && n < WORD_RANGE && size < WORD_RANGE
      modifies this, heap, heap.mem, heap.bins, heap.sys
      ensures Valid() && Added(old(Blocks()), Blocks(), m, Total(n, size))
      ensures m != 0 ==> forall i | 0 <= i < |Blocks()[m]| :: Blocks()[m][i] == 0
      ensures m == 0 ==> Refused(Op.AllocateCleared(n, size), old(heap.sys.refusals))
      ensures SameLimits(old(heap.granularity), old(heap.footprintLimit), old(heap.sys.refusals))
    {
      hide Agree, Covered, MallocState.Valid, Keeps, Fits, BlockEnd, MallocState.NoMemory, AllZero, TooBig, Total,
           Contents, Snug;
      ghost var S := heap.Held();
      AgreeCovers(sizes, S, S);
      m := heap.Calloc(n, size);
      heap.UnitPositive();
      if m != 0 {
        NewHere(S, m, Total(n, size));
        StoreAdded(old(heap.g), heap.g, sizes, old(heap.mem.data), heap.mem.data, m, Total(n, size), S);
        sizes := sizes[m := Total(n, size)];
        ClearedBlock(heap.mem.data, sizes, m);
      } else {
        WhyRefused(Op.AllocateCleared(n, size), Total(n, size), old(heap.sys.refusals), old(heap.footprint));
      }
    }

    method Reallocate(m: int, bytes: nat) returns (m': int)
      requires Valid() && m in sizes && bytes < WORD_RANGE
      modifies this, heap, heap.mem, heap.bins, heap.sys
      ensures Valid() && Moved(old(Blocks()), Blocks(), m, m', bytes)
              && (m' == 0 ==> Refused(Op.Reallocate(m, bytes), old(heap.sys.refusals)))
      ensures SameLimits(old(heap.granularity), old(heap.footprintLimit), old(heap.sys.refusals))
    {
      hide Agree, Covered, MallocState.Valid, Keeps, Fits, BlockEnd, Contents, Copied, MallocState.NoMemory, Snug,
           TooBig;
      HeldNotZero(m);
      ghost var S := heap.Held() - {m - 16};
      AgreeLess(sizes, heap.Held(), m);
      AgreeAt(sizes, heap.Held(), m);
      m' := heap.Realloc(m, bytes);
      heap.UnitPositive();
      if m' != 0 {
        AgreeAt(sizes, old(heap.Held()), m');
        AgreeMore(sizes - {m}, S, m', bytes);
        StoreMoved(old(heap.g), heap.g, sizes, old(heap.mem.data), heap.mem.data, m, m', bytes, S);
        sizes := (sizes - {m})[m' := bytes];
      } else {
        WhyRefused(Op.Reallocate(m, bytes), bytes, old(heap.sys.refusals), old(heap.footprint));
      }
    }

    /** `realloc` of the null pointer. */
    method ReallocateNull(bytes: nat) returns (m: int)
      requires Valid() && bytes < WORD_RANGE
      modifies this, heap, heap.mem, heap.bins, heap.sys
      ensures Valid() && Added(old(Blocks()), Blocks(), m, bytes)
              && (m == 0 ==> Refused(Op.Reallocate(0, bytes), old(heap.sys.refusals)))
      ensures SameLimits(old(heap.granularity), old(heap.footprintLimit), old(heap.sys.refusals))
    {
      hide Agree, Covered, MallocState.Valid, Keeps, Fits, BlockEnd, Contents, Copied, MallocState.NoMemory, Snug,
           TooBig;
      ghost var S := heap.Held();
      AgreeCovers(sizes, S, S);
      m := heap.Realloc(0, bytes);
      heap.UnitPositive();
      if m != 0 {
        NewHere(S, m, bytes);
        StoreAdded(old(heap.g), heap.g, sizes, old(heap.mem.data), heap.mem.data, m, bytes, S);
        sizes := sizes[m := bytes];
      } else {
        WhyRefused(Op.Reallocate(0, bytes), bytes, old(heap.sys.refusals), old(heap.footprint));
      }
    }

    lemma HeldNotZero(m: int)
      requires Valid() && m in sizes
      ensures m != 0
    {
      hide MallocState.Valid, Fits;
      heap.HeldIsReal(m - 16);
    }

    method Release(m: int)
      requires Valid() && m in sizes
      modifies this, heap, heap.mem, heap.bins, heap.sys
      ensures Valid() && Blocks() == old(Blocks()) - {m}
      ensures SameLimits(old(heap.granularity), old(heap.footprintLimit), old(heap.sys.refusals))
    {
      hide Agree, Covered, MallocState.Valid, Keeps, Fits, BlockEnd, Contents;
      ghost var S := heap.Held() - {m - 16};
      AgreeLess(sizes, heap.Held(), m);
      AgreeAt(sizes, heap.Held(), m);
      heap.Free(m);
      StoreRemoved(old(heap.g), heap.g, sizes, old(heap.mem.data), heap.mem.data, m, S);
      sizes := sizes - {m};
    }

    method ReleaseAll(ms: seq<int>)
      requires Valid() && ListsBlocks(sizes.Keys, ms)
      modifies this, heap, heap.mem, heap.bins, heap.sys
      ensures Valid() && Blocks() == old(Blocks()) - (set m | m in ms)
      ensures SameLimits(old(heap.granularity), old(heap.footprintLimit), old(heap.sys.refusals))
    {
      hide Agree, Covered, MallocState.Valid, Keeps, Fits, BlockEnd, Contents, ChunksOf, ListsBlocks;
      NoNull();
      ghost var gone, H := (set m | m in ms), heap.Held();
      ListedChunks(sizes, ms, H, sizes - gone, H - ChunksOf(ms));
      heap.BulkFreeList(ms);
      StoreFewer(old(heap.g), heap.g, sizes, old(heap.mem.data), heap.mem.data, gone, H - ChunksOf(ms));
      sizes := map m | m in sizes && m !in ms :: sizes[m];
      assert sizes == old(sizes) - gone;
    }

    lemma NoNull()
      requires Valid()
      ensures 0 !in sizes
    {
      hide MallocState.Valid, Fits;
      if 0 in sizes {
        HeldNotZero(0);
      }
    }

    /** `dlmalloc_trim`. */
    method Trim(pad: nat)
      requires Valid()
      modifies this, heap, heap.mem, heap.bins, heap.sys
      ensures Valid() && Blocks() == old(Blocks())
      ensures SameLimits(old(heap.granularity), old(heap.footprintLimit), old(heap.sys.refusals))
    {
      hide Agree, Covered, MallocState.Valid, Keeps, Fits, BlockEnd, Contents;
      ghost var S := heap.Held();
      AgreeCovers(sizes, S, S);
      assert sizes - {} == sizes;
      var trimmed := heap.TrimKeeping(pad);
      StoreFewer(old(heap.g), heap.g, sizes, old(heap.mem.data), heap.mem.data, {}, S);
      assert sizes - {} == sizes;
    }

    method Put(m: int, i: nat, v: int)
      requires Valid() && m in sizes && i < sizes[m]
      modifies heap.mem
      ensures Valid() && Blocks() == old(Blocks())[m := old(Blocks())[m][i := v]]
    {
      hide Agree, Covered, MallocState.Valid, Keeps, BlockEnd, Contents;
      ghost var S := heap.Held() - {m - 16};
      AgreeLess(sizes, heap.Held(), m);
      AgreeAt(sizes, heap.Held(), m);
      heap.Store(m - 16, m + i, v);
      StorePut(heap.g, sizes, old(heap.mem.data), heap.mem.data, m, i, v, S);
    }

    /** One request. */
    method Do(op: Op) returns (r: int, ghost refused: bool)
      requires Valid() && IsRequest(op)
      modifies this, heap, heap.mem, heap.bins, heap.sys
      ensures Valid() && Step(old(Blocks()), op, r, refused, Blocks()) && refused == Refused(op, old(heap.sys.refusals))
      ensures SameLimits(old(heap.granularity), old(heap.footprintLimit), old(heap.sys.refusals))
    {
      hide MallocState.Valid, Fits, Pow2, Added, Moved, TooBig, ListsBlocks, Total, Asks;
      r := 0;
      match op {
        case Allocate(n) => r := Allocate(n);
        case AllocateAligned(alignment, n) => r := AllocateAligned(alignment, n);
        case AllocateCleared(n, size) => r := AllocateCleared(n, size);
        case Reallocate(m, n) =>
          if m == 0 {
            r := ReallocateNull(n);
          } else if m in sizes {
            r := Reallocate(m, n);
          }
        case Release(m) =>
          if m in sizes {
            Release(m);
          }
        case ReleaseAll(ms) =>
          assert Blocks().Keys == sizes.Keys;
          if ListsBlocks(sizes.Keys, ms) {
            ReleaseAll(ms);
          }
        case Trim(pad) => Trim(pad);
        case Put(m, i, v) =>
          if m in sizes && i < sizes[m] {
            Put(m, i, v);
          }
      }
      refused := Refused(op, old(heap.sys.refusals));
    }
    /** Every sequence of requests, whatever the system answers, is a run of the store: blocks come up and go as asked,
        and each keeps the bytes written to it until it is given back.  A request fails only if the system refused
        memory for that very request, if there is a footprint limit or if it is too big; `counts` are the refusals of
        the system before each request and after the last one. */
    method DoAll(ops: seq<Op>) returns (results: seq<int>, ghost refused: seq<bool>, ghost counts: seq<nat>)
      requires Valid() && forall op | op in ops :: IsRequest(op)
      modifies this, heap, heap.mem, heap.bins, heap.sys
      ensures Valid() && Run(old(Blocks()), ops, results, refused, Blocks())
      ensures SameLimits(old(heap.granularity), old(heap.footprintLimit), old(heap.sys.refusals))
      ensures |refused| == |ops| && |counts| == |ops| + 1
              && counts[0] == old(heap.sys.refusals) && counts[|ops|] == heap.sys.refusals
      ensures forall i | 0 <= i < |ops| ::
                refused[i] == MayFail(ops[i], counts[i], counts[i + 1], heap.granularity, heap.footprintLimit)
    {
      hide MallocState.Valid, Fits, Step, IsRequest, MayFail;
      results, refused, counts := [], [], [heap.sys.refusals];
      for i := 0 to |ops|
        invariant Valid() && |results| == |refused| == i && Run(old(Blocks()), ops[..i], results, refused, Blocks())
        invariant SameLimits(old(heap.granularity), old(heap.footprintLimit), old(heap.sys.refusals))
        invariant |counts| == i + 1 && counts[0] == old(heap.sys.refusals) && counts[i] == heap.sys.refusals
        invariant forall j | 0 <= j < i ::
                    refused[j] == MayFail(ops[j], counts[j], counts[j + 1], heap.granularity, heap.footprintLimit)
      {
        ghost var b := Blocks();
        var r;
        ghost var f;
        r, f := Do(ops[i]);
        RunExtended(old(Blocks()), ops[..i], results, refused, b, ops[i], r, f, Blocks());
        results, refused, counts := results + [r], refused + [f], counts + [heap.sys.refusals];
        assert ops[..i + 1] == ops[..i] + [ops[i]];
      }
      assert ops[..|ops|] == ops;
    }

    /** Two blocks never overlap, and every block is aligned to 16 bytes. */
    lemma BlocksDisjoint(m: int, n: int)
      requires Valid() && m in sizes && n in sizes && m != n
      ensures (m + sizes[m] <= n || n + sizes[n] <= m) && m % 16 == 0
    {
      hide MallocState.Valid;
      heap.HeldApart(m - 16, n - 16);
      heap.HeldAligned(m - 16);
    }
  }
}
