/** A run after which an aligned chunk is a whole smallest chunk bigger than it has to be. */
module Excess {
  import opened Bitmap
  import opened Sizes
  import opened Memory
  import opened Layout
  import opened Heap
  import opened System
  import opened Steps
  import opened Blocks
  import opened Align
  import opened Malloc
  import Words
  import Bins
  import Books

  /** A heap of one segment. */
  ghost predicate OneSegment(segs: seq<Seg>, base: int) {
    |segs| == 1 && segs[0].base == base
  }

  /** In one segment there are no records, so every used chunk is a live one and there are no fenceposts. */
  lemma NoRecords(g: Ghost, head: Heads, foot: Field, segs: seq<Seg>, top: int, topsize: nat, F: map<int, nat>, p: int)
    requires ViewsOk(g.C, head, foot, segs, top, topsize, F, g.live, g.maps) && |segs| == 1 && p in g.C
    ensures segs[0].base <= p && p + g.C[p].size <= segs[0].End()
    ensures g.C[p].kind != Fence && (g.C[p].kind == Used ==> p in g.live)
  {
    hide Tags, MapsOk, PoolOk, SegOk, EndOk, KindsOk, TopOk;
    assert Placed(g.C, segs, p) && FenceOk(g.C, segs, p);
  }

  /** What comes after the last live chunk is `top`. */
  lemma TopAfter(g: Ghost, head: Heads, foot: Field, segs: seq<Seg>, top: int, topsize: nat, F: map<int, nat>, p: int)
    requires ViewsOk(g.C, head, foot, segs, top, topsize, F, g.live, g.maps) && |segs| == 1 && p in g.live
    requires forall q | q in g.live :: q <= p
    ensures p in g.C && top == p + g.C[p].size && p + g.C[p].size + topsize + TOP_FOOT == segs[0].End()
  {
    hide MapsOk, SegOk, EndOk, FenceOk, Placed, IsRecord, InOrder, SegsApart;
    assert TagOk(g.C, head, foot, p);
    var n := p + g.C[p].size;
    NoRecords(g, head, foot, segs, top, topsize, F, n);
    if g.C[n].kind == Free {
      assert TagOk(g.C, head, foot, n);
      NoRecords(g, head, foot, segs, top, topsize, F, n + g.C[n].size);
    }
  }

  /** Before every free chunk's end there is a live one. */
  lemma FreeBeforeLive(g: Ghost, head: Heads, foot: Field, segs: seq<Seg>, top: int, topsize: nat, F: map<int, nat>,
                       q: int)
    requires ViewsOk(g.C, head, foot, segs, top, topsize, F, g.live, g.maps) && |segs| == 1 && q in F
    ensures q in g.C && g.C[q] == Chunk(F[q], Free) && segs[0].base <= q && q + F[q] in g.live && q !in g.live
  {
    hide MapsOk, SegOk, EndOk, FenceOk, Placed, IsRecord, InOrder, SegsApart, SegsOk;
    assert TagOk(g.C, head, foot, q);
    NoRecords(g, head, foot, segs, top, topsize, F, q);
    NoRecords(g, head, foot, segs, top, topsize, F, q + F[q]);
  }

  /** With all live chunks in a row from the start, nothing is free but `top`. */
  lemma NothingFree(g: Ghost, head: Heads, foot: Field, segs: seq<Seg>, top: int, topsize: nat, F: map<int, nat>,
                    p: int)
    requires ViewsOk(g.C, head, foot, segs, top, topsize, F, g.live, g.maps) && OneSegment(segs, p)
    requires p in g.live && p in g.C && g.live <= {p, p + g.C[p].size}
    ensures F == map[]
  {
    hide ViewsOk;
    forall q | q in F ensures false {
      FreeBeforeLive(g, head, foot, segs, top, topsize, F, q);
      InRow(g, head, foot, segs, top, topsize, F, p, q);
    }
  }

  lemma InRow(g: Ghost, head: Heads, foot: Field, segs: seq<Seg>, top: int, topsize: nat, F: map<int, nat>, p: int,
              q: int)
    requires ViewsOk(g.C, head, foot, segs, top, topsize, F, g.live, g.maps) && p in g.C && q in g.C
    ensures g.C[p].size > 0 && g.C[q].size > 0 && (p < q ==> p + g.C[p].size <= q)
  {
    hide MapsOk, SegsOk, PoolOk, UsedOk;
    assert TagOk(g.C, head, foot, p) && TagOk(g.C, head, foot, q) && InOrder(g.C, p, q);
  }

  /** The only live chunk has a free one before it, from the start of the segment on. */
  lemma OneFree(g: Ghost, head: Heads, foot: Field, segs: seq<Seg>, top: int, topsize: nat, F: map<int, nat>, base: int,
                p: int)
    requires ViewsOk(g.C, head, foot, segs, top, topsize, F, g.live, g.maps) && OneSegment(segs, base)
    requires g.live == {p} && base < p
    ensures F == map[base := p - base]
  {
    hide ViewsOk;
    StartIsFree(g, head, foot, segs, top, topsize, F, base, p);
    FreeBeforeLive(g, head, foot, segs, top, topsize, F, base);
    forall q | q in F ensures q == base && F[q] == p - base {
      FreeBeforeLive(g, head, foot, segs, top, topsize, F, q);
      InRow(g, head, foot, segs, top, topsize, F, base, q);
    }
  }

  lemma StartIsFree(g: Ghost, head: Heads, foot: Field, segs: seq<Seg>, top: int, topsize: nat, F: map<int, nat>,
                    base: int, p: int)
    requires ViewsOk(g.C, head, foot, segs, top, topsize, F, g.live, g.maps) && OneSegment(segs, base)
    requires g.live == {p} && base < p
    ensures base in F
  {
    hide Tags, MapsOk, EndOk, FenceOk, Placed, IsRecord, SegsApart;
    assert SegOk(g.C, segs[0]);
    NoRecords(g, head, foot, segs, top, topsize, F, base);
    TopAfter(g, head, foot, segs, top, topsize, F, p);
    InRow(g, head, foot, segs, top, topsize, F, p, top);
  }

  /** A small block between two blocks in use. */
  lemma Enclosed(h: MallocState, p: int)
    requires h.Valid() && OneSegment(h.segs, p) && p in h.g.live && p in h.g.C && p + h.g.C[p].size in h.g.live
    ensures h.mem.head.At(p).size == h.g.C[p].size && h.BetweenUsed(p)
  {
    hide Words.WordsOk, Bins.LinksWhole, ViewsOk, Books.BooksOk, Bins.Bins.Valid, Bins.Spaced;
    EnclosedTags(h.g, h.mem.head, h.mem.foot, h.segs, h.top, h.topsize, FreeChunks(h), p);
  }

  lemma EnclosedTags(g: Ghost, head: Heads, foot: Field, segs: seq<Seg>, top: int, topsize: nat, F: map<int, nat>,
                     p: int)
    requires ViewsOk(g.C, head, foot, segs, top, topsize, F, g.live, g.maps) && OneSegment(segs, p)
    requires p in g.live && p in g.C && p + g.C[p].size in g.live
    ensures head.At(p).size == g.C[p].size && head.At(p).pinuse && head.At(p + g.C[p].size).cinuse
  {
    hide MapsOk, SegsOk, PoolOk, InOrder;
    assert TagOk(g.C, head, foot, p) && TagOk(g.C, head, foot, p + g.C[p].size);
    if !head.At(p).pinuse {
      NoRecords(g, head, foot, segs, top, topsize, F, p - foot.At(p));
    }
  }

  lemma LiveKept(g: Ghost, g': Ghost, S: set<int>, d: Bytes, d': Bytes, q: int)
    requires Keeps(g, g', S, d, d') && q in S && q in g.live && q in g.C && q in g'.live
    ensures q in g'.C && g'.C[q] == g.C[q]
  {
    assert SameBlock(g, g', q, d, d');
  }

  ghost function FreeChunks(h: MallocState): map<int, nat>
    reads h, h.bins
  {
    Pool(h.bins.chunks, h.dv, h.dvsize)
  }

  lemma EmptyPool(B: map<int, nat>, dv: int, dvsize: nat)
    requires Pool(B, dv, dvsize) == map[]
    ensures B == map[] && dvsize == 0
  {
    assert dvsize > 0 ==> dv in Pool(B, dv, dvsize);
  }

  /** One block of 112 bytes from an empty heap: it starts the segment, and `top` comes right after it. */
  method FirstBlock(m: Memory, s: System) returns (h: MallocState, p: int)
    requires m.Coherent() && s.mapped == []
    modifies m, s
    ensures fresh(h) && fresh(h.bins) && h.Valid() && h.mem == m && h.sys == s && s.refusals >= old(s.refusals)
            && h.granularity == 0x1_0000 && h.footprintLimit == 0
    ensures p == 0 ==> s.refusals > old(s.refusals)
    ensures p != 0 ==>
              && OneSegment(h.segs, p) && p % PAGE == 0 && h.g.live == h.Held() == {p} && HasSize(h.g, p, 112)
              && h.bins.chunks == map[] && h.dvsize == 0 && h.top == p + 112 && h.topsize > 32
  {
    hide MallocState.Valid, Keeps, ServedFrom, Snug, MallocState.NoMemory;
    h := new MallocState(m, s, 0x1_0000);
    p := h.Malloc(100);
    if p == 0 {
      NotTooBig(h, 100, old(s.refusals), 0);
    } else {
      p := p - 16;
      RowEnds(h, p);
    }
  }

  lemma NotTooBig(h: MallocState, bytes: nat, refusals: nat, fp: nat)
    requires h.NoMemory(bytes, refusals, fp) && bytes < 0x1000 && h.granularity == 0x1_0000 && h.footprintLimit == 0
    ensures h.sys.refusals > refusals
  {
    PaddingFits(bytes);
  }

  /** After a single block, which starts the segment, there is only `top`. */
  lemma RowEnds(h: MallocState, p: int)
    requires h.Valid() && OneSegment(h.segs, p) && h.g.live == {p} && HasSize(h.g, p, 112)
    ensures h.bins.chunks == map[] && h.dvsize == 0 && h.top == p + 112 && h.topsize > 32
  {
    hide ViewsOk, Words.WordsOk, Bins.LinksWhole, Books.BooksOk, Bins.Bins.Valid, Bins.Spaced, Pool;
    var F := FreeChunks(h);
    TopAfter(h.g, h.mem.head, h.mem.foot, h.segs, h.top, h.topsize, F, p);
    NothingFree(h.g, h.mem.head, h.mem.foot, h.segs, h.top, h.topsize, F, p);
    EmptyPool(h.bins.chunks, h.dv, h.dvsize);
    SegmentIsLarge(h.g, h.mem.head, h.mem.foot, h.segs, h.top, h.topsize, F);
  }

  lemma SegmentIsLarge(g: Ghost, head: Heads, foot: Field, segs: seq<Seg>, top: int, topsize: nat, F: map<int, nat>)
    requires ViewsOk(g.C, head, foot, segs, top, topsize, F, g.live, g.maps) && |segs| == 1
    ensures segs[0].size >= PAGE
  {
    hide Tags, MapsOk, PoolOk, UsedOk, EndOk, KindsOk, TopOk, SegsApart, FenceOk, Placed;
    assert SegOk(g.C, segs[0]);
  }

  /** Two blocks in a row. */
  method TwoBlocks(m: Memory, s: System) returns (h: MallocState, p: int)
    requires m.Coherent() && s.mapped == []
    modifies m, s
    ensures fresh(h) && fresh(h.bins) && h.Valid() && h.mem == m && h.sys == s && s.refusals >= old(s.refusals)
            && h.granularity == 0x1_0000 && h.footprintLimit == 0
    ensures p == 0 ==> s.refusals > old(s.refusals)
    ensures p != 0 ==>
              && OneSegment(h.segs, p) && p % PAGE == 0 && h.g.live == h.Held() == {p, p + 112}
              && HasSize(h.g, p, 112) && HasSize(h.g, p + 112, 32)
  {
    hide MallocState.Valid, Keeps, Snug, MallocState.NoMemory;
    h, p := FirstBlock(m, s);
    if p != 0 {
      ghost var g1, d1, F := h.g, h.mem.data, FreeChunks(h);
      assert !NothingServes(h.bins.chunks, h.dvsize, h.topsize, 32);
      assert FromTop(h.bins.chunks, h.dv, h.dvsize, h.top, h.topsize, 32) by {
        OnlyTop(h.dv, h.top, h.topsize);
      }
      var q := h.Malloc(24);
      assert q - 16 == p + 112;
      LiveKept(g1, h.g, g1.live + g1.maps.Keys, d1, h.mem.data, p);
    }
  }

  ghost predicate FromTop(B: map<int, nat>, dv: int, dvsize: nat, top: int, topsize: nat, nb: nat) {
    forall p :: ServedFrom(B, dv, dvsize, top, topsize, nb, p) ==> p == top
  }

  lemma OnlyTop(dv: int, top: int, topsize: nat)
    ensures FromTop(map[], dv, 0, top, topsize, 32)
  {
  }

  /** Two small blocks are handed out from an empty heap and the first one, of 112 bytes, is given back; then 1 byte is
      asked for at a multiple of 32.  Unless the system refuses memory the chunk that comes back has 32 bytes more than
      the 32 that the request needs. */
  method Reached(m: Memory, s: System) returns (h: MallocState, r: int)
    requires m.Coherent() && s.mapped == []
    modifies m, s
    ensures fresh(h) && h.Valid() && h.sys == s
    ensures s.refusals == old(s.refusals) ==>
              r - 16 in h.g.live && HasSize(h.g, r - 16, Request2Size(1) + MIN_CHUNK)
              && !Snug(h.g, r - 16, Request2Size(1))
  {
    hide MallocState.Valid, Keeps, MallocState.NoMemory, MallocState.BetweenUsed, Pow2, NothingServes, ServedFrom,
         LeavesExcess, PlaceFor, BlockEnd;
    var p;
    h, p := TwoBlocks(m, s);
    r := 0;
    if p != 0 {
      Enclosed(h, p);
      ghost var g1, d1 := h.g, h.mem.data;
      h.Free(p + 16);
      assert {p, p + 112} - {p} == {p + 112};
      SmallPowers();
      LeftOver(h, g1, d1, p);
      ghost var from, k;
      ghost var refusals, fp := s.refusals, h.footprint;
      ghost var B, dv, dvsize, top, topsize := h.bins.chunks, h.dv, h.dvsize, h.top, h.topsize;
      r, from, k := h.Memalign(32, 1);
      Rounded32(k);
      if r == 0 {
        NotTooBig(h, 88, refusals, fp);
      } else {
        Chosen(B, dv, dvsize, top, topsize, p, from);
      }
    }
  }

  lemma Rounded32(k: nat)
    requires RoundedTo(32, k)
    ensures Pow2(k) == 32 && WithRoom(1, 32) == 96 && Request2Size(1) == 32
  {
    SmallPowers();
    if k > 5 { Pow2Mono(6, k); }
  }

  lemma LeftOver(h: MallocState, g1: Ghost, d1: Bytes, p: int)
    requires h.Valid() && OneSegment(h.segs, p) && h.Held() <= {p + 112} && p + 112 in g1.live && p + 112 in g1.C
    requires Keeps(g1, h.g, {p + 112}, d1, h.mem.data)
    ensures FreeChunks(h) == map[p := 112]
  {
    hide ViewsOk, Words.WordsOk, Bins.LinksWhole, Books.BooksOk, Bins.Bins.Valid, Bins.Spaced, Pool;
    assert SameBlock(g1, h.g, p + 112, d1, h.mem.data);
    OneFree(h.g, h.mem.head, h.mem.foot, h.segs, h.top, h.topsize, FreeChunks(h), p, p + 112);
  }

  /** The one free chunk serves the request. */
  lemma Chosen(B: map<int, nat>, dv: int, dvsize: nat, top: int, topsize: nat, p: int, from: int)
    requires Pool(B, dv, dvsize) == map[p := 112] && p % PAGE == 0
    requires !NothingServes(B, dvsize, topsize, 96) ==> ServedFrom(B, dv, dvsize, top, topsize, 96, from)
    ensures !NothingServes(B, dvsize, topsize, 96) && LeavesExcess(Pool(B, dv, dvsize), from, 32, 1)
  {
    var F := Pool(B, dv, dvsize);
    assert p in F && F[p] == 112;
    if dvsize > 0 {
      assert dv in F;
      assert dv == p && dvsize == 112;
      forall q | q in B ensures q == p { assert q in F; }
    } else {
      assert B == F;
    }
  }
}
