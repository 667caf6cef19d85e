/** The views of the heap that must agree: layout, segments, free chunks, used chunks and mapped regions. */
module Heap {
  import opened Sizes
  import opened Memory
  import opened Layout
  import opened Bins

  const PAGE: nat := 4096

  /** The size of the chunk that holds a segment record. */
  const RECORD: nat := 48

  /** A segment; `rec` is the chunk that holds its record, which lies in the segment itself.  The record of
      the first segment of the list is kept in the allocator instead, and its `rec` is 0. */
  datatype Seg = Seg(base: int, size: nat, rec: int) {
    function End(): int { base + size }
  }

  /** A region obtained by a direct map. */
  datatype Region = Region(base: int, size: nat) {
    function End(): int { base + size }
  }

  // ----- segments

  ghost predicate SegOk(C: Chunks, g: Seg) {
    g.base > 0 && IsAligned(g.base) && g.size > 0 && g.size % PAGE == 0 && g.End() <= WORD_RANGE && g.base in C
  }

  /** The first segment ends in `top` and its foot. */
  ghost predicate TopOk(C: Chunks, g: Seg, top: int, topsize: nat) {
    && g.rec == 0 && g.base <= top && top in C && C[top] == Chunk(topsize, Top)
    && top + topsize in C && C[top + topsize] == Chunk(TOP_FOOT, Foot) && top + topsize + TOP_FOOT == g.End()
  }

  /** Every other segment ends in its record and fenceposts. */
  ghost predicate EndOk(C: Chunks, g: Seg) {
    && g.base <= g.rec && g.rec in C && C[g.rec] == Chunk(RECORD, Used)
    && g.rec + RECORD in C && C[g.rec + RECORD].kind == Fence && g.rec + RECORD + C[g.rec + RECORD].size == g.End()
  }

  ghost predicate InSeg(segs: seq<Seg>, lo: int, hi: int) {
    exists i :: 0 <= i < |segs| && segs[i].base <= lo && hi <= segs[i].End()
  }

  /** Chunk `p` lies in a segment. */
  ghost predicate Placed(C: Chunks, segs: seq<Seg>, p: int) {
    p in C ==> InSeg(segs, p, p + C[p].size)
  }

  ghost predicate IsRecord(segs: seq<Seg>, p: int) {
    exists i :: 1 <= i < |segs| && segs[i].rec == p
  }

  /** Fenceposts come right after records. */
  ghost predicate FenceOk(C: Chunks, segs: seq<Seg>, f: int) {
    f in C && C[f].kind == Fence ==> IsRecord(segs, f - RECORD)
  }

  ghost predicate SegsApart(segs: seq<Seg>) {
    forall i, j :: 0 <= i < j < |segs| ==> segs[i].End() <= segs[j].base || segs[j].End() <= segs[i].base
  }

  ghost predicate KindsOk(C: Chunks, top: int, topsize: nat) {
    && (forall p | p in C && C[p].kind == Top :: p == top)
    && (forall p | p in C && C[p].kind == Foot :: p == top + topsize)
  }

  ghost predicate SegsOk(C: Chunks, segs: seq<Seg>, top: int, topsize: nat) {
    && (forall i | 0 <= i < |segs| :: SegOk(C, segs[i]))
    && (segs == [] ==> top == 0 && topsize == 0) && (segs != [] ==> TopOk(C, segs[0], top, topsize))
    && (forall i | 1 <= i < |segs| :: EndOk(C, segs[i]))
    && SegsApart(segs) && KindsOk(C, top, topsize)
    && (forall p {:trigger Placed(C, segs, p)} :: Placed(C, segs, p))
    && (forall p {:trigger FenceOk(C, segs, p)} :: FenceOk(C, segs, p))
  }

  /** Where the chunks of segment `i` stop: at its foot or its first fencepost. */
  ghost function StopOf(segs: seq<Seg>, top: int, topsize: nat, i: nat): int
    requires i < |segs|
  {
    if i == 0 then top + topsize else segs[i].rec + RECORD
  }

  lemma StopFacts(C: Chunks, segs: seq<Seg>, top: int, topsize: nat, i: nat)
    requires SegsOk(C, segs, top, topsize) && i < |segs|
    ensures var f := StopOf(segs, top, topsize, i); f in C && Stops(C[f].kind) && f + C[f].size == segs[i].End()
  {
    hide Placed, KindsOk, SegsApart, SegOk;
    if i > 0 {
      assert EndOk(C, segs[i]);
    }
  }

  /** A stretch lies in one segment. */
  lemma StretchInSeg(C: Chunks, head: Heads, foot: Field, segs: seq<Seg>, top: int, topsize: nat, lo: int, hi: int)
      returns (i: nat)
    requires Tags(C, head, foot) && SegsOk(C, segs, top, topsize) && Stretch(C, lo, hi)
    ensures i < |segs| && segs[i].base <= lo && hi < segs[i].End()
  {
    hide TopOk, EndOk, SegOk, SegsApart, KindsOk, AfterFree, HeadOk, MayFollow, IsAligned;
    assert TagOk(C, head, foot, lo);
    assert Placed(C, segs, lo);
    i :| 0 <= i < |segs| && segs[i].base <= lo && lo + C[lo].size <= segs[i].End();
    StopFacts(C, segs, top, topsize, i);
    var f := StopOf(segs, top, topsize, i);
    assert TagOk(C, head, foot, f);
    assert InOrder(C, f, lo);
  }

  /** No record lies in the stretch, and `top` moves only within it. */
  ghost predicate SegsRecut(C': Chunks, segs: seq<Seg>, top: int, topsize: nat, top': int, topsize': nat, lo: int,
                            hi: int) {
    && (forall i | 1 <= i < |segs| :: !(lo <= segs[i].rec < hi))
    && (forall p | p in C' && lo <= p < hi :: !Stops(C'[p].kind) && (C'[p].kind == Top ==> p == top'))
    && (if lo <= top < hi then
       lo <= top' < hi == top' + topsize' == top + topsize && top' in C' && C'[top'] == Chunk(topsize', Top)
        else top' == top && topsize' == topsize)
  }

  lemma BasesStay(C: Chunks, C': Chunks, segs: seq<Seg>, top: int, topsize: nat, lo: int, hi: int, i: nat, j: nat)
    requires SegsOk(C, segs, top, topsize) && Recut(C, C', lo, hi) && i < |segs|
    requires j < |segs| && segs[j].base <= lo && hi < segs[j].End()
    ensures SegOk(C', segs[i])
  {
    hide TopOk, EndOk, Placed, KindsOk, IsAligned;
    assert SegOk(C, segs[i]);
    if i < j {
      assert segs[i].End() <= segs[j].base || segs[j].End() <= segs[i].base;
    } else if j < i {
      assert segs[j].End() <= segs[i].base || segs[i].End() <= segs[j].base;
    }
  }

  lemma EndsStay(C: Chunks, C': Chunks, segs: seq<Seg>, top: int, topsize: nat, lo: int, hi: int, i: nat)
    requires SegsOk(C, segs, top, topsize) && Recut(C, C', lo, hi) && 1 <= i < |segs| && !(lo <= segs[i].rec < hi)
    ensures EndOk(C', segs[i])
  {
    hide TopOk, SegOk, Placed, KindsOk, SegsApart, IsAligned;
    assert EndOk(C, segs[i]);
  }

  lemma TopStays(C: Chunks, C': Chunks, segs: seq<Seg>, top: int, topsize: nat, top': int, topsize': nat, lo: int,
                 hi: int, j: nat)
    requires SegsOk(C, segs, top, topsize) && Recut(C, C', lo, hi) && segs != []
    requires SegsRecut(C', segs, top, topsize, top', topsize', lo, hi)
    requires j < |segs| && segs[j].base <= lo && hi < segs[j].End()
    ensures TopOk(C', segs[0], top', topsize') && KindsOk(C', top', topsize')
  {
    hide EndOk, SegOk, Placed, IsAligned;
    assert j > 0 ==> segs[0].End() <= segs[j].base || segs[j].End() <= segs[0].base;
  }

  lemma RecutSegs(C: Chunks, head: Heads, foot: Field, C': Chunks, segs: seq<Seg>, top: int, topsize: nat, top': int,
                  topsize': nat, lo: int, hi: int)
    requires Tags(C, head, foot) && SegsOk(C, segs, top, topsize) && Recut(C, C', lo, hi)
    requires SegsRecut(C', segs, top, topsize, top', topsize', lo, hi)
    ensures SegsOk(C', segs, top', topsize')
  {
    hide TopOk, EndOk, SegOk, SegsApart, KindsOk, TagOk, InOrder, IsRecord;
    var j := StretchInSeg(C, head, foot, segs, top, topsize, lo, hi);
    forall i | 0 <= i < |segs| ensures SegOk(C', segs[i]) {
      BasesStay(C, C', segs, top, topsize, lo, hi, i, j);
    }
    forall p ensures Placed(C', segs, p) {
      assert Placed(C, segs, p);
      if p in C' && lo <= p < hi {
        assert segs[j].base <= p && p + C'[p].size <= segs[j].End();
      }
    }
    forall p ensures FenceOk(C', segs, p) {
      assert FenceOk(C, segs, p);
    }
    forall i | 1 <= i < |segs| ensures EndOk(C', segs[i]) {
      EndsStay(C, C', segs, top, topsize, lo, hi, i);
    }
    TopStays(C, C', segs, top, topsize, top', topsize', lo, hi, j);
  }

  // ----- free chunks

  predicate IsFree(C: Chunks, p: int) {
    p in C && C[p].kind == Free
  }

  /** The free chunks other than `top`: those in the bins `B` and the designated victim. */
  ghost function Pool(B: map<int, nat>, dv: int, dvsize: nat): map<int, nat> {
    if dvsize > 0 then B[dv := dvsize] else B
  }

  ghost predicate PoolOk(C: Chunks, F: map<int, nat>) {
    && (forall p | p in F :: p in C && C[p] == Chunk(F[p], Free))
    && (forall p | IsFree(C, p) :: p in F)
  }

  /** The free chunks after the stretch has been cut anew. */
  lemma RecutPool(C: Chunks, C': Chunks, lo: int, hi: int, F: map<int, nat>, F': map<int, nat>)
    requires Recut(C, C', lo, hi) && PoolOk(C, F)
    requires forall p | !(lo <= p < hi) :: (p in F' <==> p in F) && (p in F ==> F'[p] == F[p])
    requires forall p | lo <= p < hi :: (p in F' <==> IsFree(C', p)) && (p in F' ==> F'[p] == C'[p].size)
    ensures PoolOk(C', F')
  {
    hide Stretch;
  }

  // ----- used chunks

  /** Used chunks are those handed out and the records of segments. */
  ghost predicate UsedOk(C: Chunks, segs: seq<Seg>, live: set<int>) {
    && (forall p | p in live :: p in C && C[p].kind == Used && !IsRecord(segs, p))
    && (forall p | p in C && C[p].kind == Used :: p in live || IsRecord(segs, p))
  }

  lemma RecutUsed(C: Chunks, C': Chunks, lo: int, hi: int, segs: seq<Seg>, live: set<int>, live': set<int>)
    requires Recut(C, C', lo, hi) && UsedOk(C, segs, live)
    requires forall i | 1 <= i < |segs| :: !(lo <= segs[i].rec < hi)
    requires forall p | !(lo <= p < hi) :: p in live' <==> p in live
    requires forall p | lo <= p < hi :: p in live' <==> p in C' && C'[p].kind == Used
    ensures UsedOk(C', segs, live')
  {
    hide Stretch;
  }

  // ----- mapped regions

  /** A directly mapped chunk: its head has both bits clear, its `_prev_foot` is the offset from the start of
      the region, and a fencepost and a zero head follow it. */
  ghost predicate MapOk(r: Region, head: Heads, foot: Field, p: int) {
    && r.base > 0 && IsAligned(r.base) && r.size % PAGE == 0 && r.End() <= WORD_RANGE && IsAligned(p) && r.base <= p
    && p + MIN_CHUNK + 32 <= r.End()
    && foot.At(p) == p - r.base && head.At(p) == Head(r.End() - 32 - p, false, false)
    && head.At(r.End() - 32) == Head(8, true, true) && head.At(r.End() - 24) == Head(0, false, false)
  }

  ghost predicate Disjoint(r: Region, q: Region) {
    r.End() <= q.base || q.End() <= r.base
  }

  /** The mapped regions are whole and clear of each other and of the segments. */
  ghost predicate MapsOk(maps: map<int, Region>, head: Heads, foot: Field, segs: seq<Seg>) {
    && (forall p | p in maps :: MapOk(maps[p], head, foot, p))
    && (forall p, q | p in maps && q in maps && p != q :: Disjoint(maps[p], maps[q]))
    && (forall p, i | p in maps && 0 <= i < |segs| :: Disjoint(maps[p], Region(segs[i].base, segs[i].size)))
  }

  /** Tag writes inside a segment leave the mapped regions alone. */
  lemma RecutMaps(maps: map<int, Region>, head: Heads, foot: Field, head': Heads, foot': Field, segs: seq<Seg>, lo: int,
                  hi: int, i: nat)
    requires MapsOk(maps, head, foot, segs) && i < |segs| && segs[i].base <= lo < hi < segs[i].End()
    requires forall a {:trigger head'.At(a)} :: !(lo <= a <= hi) ==> head'.At(a) == head.At(a)
    requires forall a {:trigger foot'.At(a)} :: !(lo <= a <= hi) ==> foot'.At(a) == foot.At(a)
    ensures MapsOk(maps, head', foot', segs)
  {
    forall p | p in maps ensures MapOk(maps[p], head', foot', p) {
      assert MapOk(maps[p], head, foot, p) && Disjoint(maps[p], Region(segs[i].base, segs[i].size));
    }
  }

  // ----- all views, over one cut

  /** Every view but the one on how free chunks are stored: `F` is the free chunks as a whole. */
  ghost predicate ViewsOk(C: Chunks, head: Heads, foot: Field, segs: seq<Seg>, top: int, topsize: nat,
                          F: map<int, nat>, live: set<int>, maps: map<int, Region>) {
    && Tags(C, head, foot) && SegsOk(C, segs, top, topsize) && PoolOk(C, F) && UsedOk(C, segs, live)
    && MapsOk(maps, head, foot, segs)
  }

  ghost function LiveCut(live: set<int>, lo: int, hi: int): set<int> {
    set p | p in live && !(lo <= p < hi)
  }

  ghost function PoolCut(F: map<int, nat>, lo: int, hi: int): map<int, nat> {
    map p | p in F && !(lo <= p < hi) :: F[p]
  }

  /** Free chunks, used chunks and `top` after the stretch has become one chunk. */
  ghost function Pool1(F: map<int, nat>, lo: int, hi: int, k: Kind): map<int, nat>
    requires lo < hi
  {
    if k == Free then PoolCut(F, lo, hi)[lo := hi - lo] else PoolCut(F, lo, hi)
  }

  ghost function Live1(live: set<int>, lo: int, hi: int, k: Kind): set<int> {
    if k == Used then LiveCut(live, lo, hi) + {lo} else LiveCut(live, lo, hi)
  }

  /** ... and after it has become two. */
  ghost function Pool2(F: map<int, nat>, lo: int, mid: int, hi: int, k1: Kind, k2: Kind): map<int, nat>
    requires lo < mid < hi
  {
    if k1 == Free then PoolCut(F, lo, hi)[lo := mid - lo]
    else if k2 == Free then PoolCut(F, lo, hi)[mid := hi - mid]
    else PoolCut(F, lo, hi)
  }

  ghost function Live2(live: set<int>, lo: int, mid: int, hi: int, k1: Kind, k2: Kind): set<int> {
    LiveCut(live, lo, hi) + (if k1 == Used then {lo} else {}) + (if k2 == Used then {mid} else {})
  }

  /** Used chunks of the stretch were all handed out, and `top` is in it just when it will be again. */
  ghost predicate MayCut(C: Chunks, top: int, live: set<int>, lo: int, hi: int, k: Kind) {
    && Stretch(C, lo, hi)
    && (forall p | p in C && lo <= p < hi && C[p].kind == Used :: p in live)
    && (lo <= top < hi <==> k == Top)
  }

  lemma NoRecords(C: Chunks, segs: seq<Seg>, top: int, topsize: nat, live: set<int>, lo: int, hi: int, k: Kind)
    requires SegsOk(C, segs, top, topsize) && UsedOk(C, segs, live) && MayCut(C, top, live, lo, hi, k)
    ensures forall i | 1 <= i < |segs| :: !(lo <= segs[i].rec < hi)
  {
    hide Placed, KindsOk, SegsApart, TopOk, SegOk;
    forall i | 1 <= i < |segs| ensures !(lo <= segs[i].rec < hi) {
      assert EndOk(C, segs[i]);
      assert IsRecord(segs, segs[i].rec);
    }
  }

  lemma Cut1Segs(C: Chunks, head: Heads, foot: Field, segs: seq<Seg>, top: int, topsize: nat, live: set<int>, lo: int,
                 hi: int, k: Kind)
    requires Tags(C, head, foot) && SegsOk(C, segs, top, topsize) && UsedOk(C, segs, live)
             && MayCut(C, top, live, lo, hi, k)
    requires !Stops(k) && MayFollow(k, C[hi].kind)
    ensures SegsOk(Cut1(C, lo, hi, k), segs, if k == Top then lo else top, if k == Top then hi - lo else topsize)
  {
    hide Tags, TopOk, EndOk, SegOk, SegsApart, Placed;
    NoRecords(C, segs, top, topsize, live, lo, hi, k);
    Cut1IsRecut(C, lo, hi, k);
    RecutSegs(C, head, foot, Cut1(C, lo, hi, k), segs, top, topsize, if k == Top then lo else
        top, if k == Top then hi - lo else topsize, lo, hi);
  }

  lemma Cut1Views(C: Chunks, head: Heads, foot: Field, head': Heads, foot': Field, segs: seq<Seg>, top: int,
                  topsize: nat,
                  F: map<int, nat>, live: set<int>, maps: map<int, Region>, lo: int, hi: int, k: Kind)
    requires ViewsOk(C, head, foot, segs, top, topsize, F, live, maps) && MayCut(C, top, live, lo, hi, k)
    requires Tagged1(C, head, foot, head', foot', lo, hi, k)
    ensures ViewsOk(Cut1(C, lo, hi, k), head', foot', segs, if k == Top then lo else top, if k == Top then
            hi - lo else topsize,
                    Pool1(F, lo, hi, k), Live1(live, lo, hi, k), maps)
  {
    hide Tags, SegsOk, PoolOk, UsedOk, MapsOk, Stretch, Recut;
    NoRecords(C, segs, top, topsize, live, lo, hi, k);
    Cut1IsRecut(C, lo, hi, k);
    Cut1Tags(C, head, foot, head', foot', lo, hi, k);
    Cut1Segs(C, head, foot, segs, top, topsize, live, lo, hi, k);
    RecutPool(C, Cut1(C, lo, hi, k), lo, hi, F, Pool1(F, lo, hi, k));
    RecutUsed(C, Cut1(C, lo, hi, k), lo, hi, segs, live, Live1(live, lo, hi, k));
    var i := StretchInSeg(C, head, foot, segs, top, topsize, lo, hi);
    RecutMaps(maps, head, foot, head', foot', segs, lo, hi, i);
  }

  lemma Cut2Segs(C: Chunks, head: Heads, foot: Field, segs: seq<Seg>, top: int, topsize: nat, live: set<int>, lo: int,
                 mid: int, hi: int, k1: Kind, k2: Kind)
    requires Tags(C, head, foot) && SegsOk(C, segs, top, topsize) && UsedOk(C, segs, live)
             && MayCut(C, top, live, lo, hi, k2)
    requires lo < mid < hi && !Stops(k1) && !Stops(k2) && k1 != Top && MayFollow(k2, C[hi].kind)
    ensures SegsOk(Cut2(C, lo, mid, hi, k1, k2), segs, if k2 == Top then mid else top, if k2 == Top then
            hi - mid else topsize)
  {
    hide Tags, TopOk, EndOk, SegOk, SegsApart, Placed;
    NoRecords(C, segs, top, topsize, live, lo, hi, k2);
    Cut2IsRecut(C, lo, mid, hi, k1, k2);
    RecutSegs(C, head, foot, Cut2(C, lo, mid, hi, k1, k2), segs, top, topsize, if k2 == Top then
        mid else top, if k2 == Top then hi - mid else topsize, lo, hi);
  }

  lemma Cut2Views(C: Chunks, head: Heads, foot: Field, head': Heads, foot': Field, segs: seq<Seg>, top: int,
                  topsize: nat,
                  F: map<int, nat>, live: set<int>, maps: map<int, Region>, lo: int, mid: int, hi: int, k1: Kind,
                  k2: Kind)
    requires ViewsOk(C, head, foot, segs, top, topsize, F, live, maps) && MayCut(C, top, live, lo, hi, k2) && k1 != Top
    requires Tagged2(C, head, foot, head', foot', lo, mid, hi, k1, k2)
    ensures ViewsOk(Cut2(C, lo, mid, hi, k1, k2), head', foot', segs, if k2 == Top then mid else
            top, if k2 == Top then hi - mid else topsize,
                    Pool2(F, lo, mid, hi, k1, k2), Live2(live, lo, mid, hi, k1, k2), maps)
  {
    hide Tags, SegsOk, PoolOk, UsedOk, MapsOk, Stretch, Recut;
    NoRecords(C, segs, top, topsize, live, lo, hi, k2);
    Cut2IsRecut(C, lo, mid, hi, k1, k2);
    Cut2Tags(C, head, foot, head', foot', lo, mid, hi, k1, k2);
    Cut2Segs(C, head, foot, segs, top, topsize, live, lo, mid, hi, k1, k2);
    RecutPool(C, Cut2(C, lo, mid, hi, k1, k2), lo, hi, F, Pool2(F, lo, mid, hi, k1, k2));
    RecutUsed(C, Cut2(C, lo, mid, hi, k1, k2), lo, hi, segs, live, Live2(live, lo, mid, hi, k1, k2));
    var i := StretchInSeg(C, head, foot, segs, top, topsize, lo, hi);
    RecutMaps(maps, head, foot, head', foot', segs, lo, hi, i);
  }

  // ----- user bytes

  /** Byte `a` belongs to a chunk handed out.  A chunk in a segment also owns the `_prev_foot` of the next
      chunk; a mapped chunk ends before the fencepost that follows it. */
  ghost predicate InPayload(C: Chunks, maps: map<int, Region>, live: set<int>, a: int) {
    || (exists q :: q in live && q in C && q + 16 <= a < q + C[q].size + 8)
    || (exists q :: q in maps && q + 16 <= a < maps[q].End() - 32)
  }

  /** No byte of the chunks in `live` and `maps` has changed. */
  ghost predicate Kept(C: Chunks, maps: map<int, Region>, live: set<int>, d: Bytes, d': Bytes) {
    forall a {:trigger d'.At(a)} {:trigger InPayload(C, maps, live, a)} ::
        InPayload(C, maps, live, a) ==> d'.At(a) == d.At(a)
  }

  lemma KeptTrans(C: Chunks, maps: map<int, Region>, live: set<int>, d0: Bytes, d1: Bytes, d2: Bytes)
    requires Kept(C, maps, live, d0, d1) && Kept(C, maps, live, d1, d2)
    ensures Kept(C, maps, live, d0, d2)
  {
    hide InPayload;
  }

  /** What is kept does not depend on the rest of the layout. */
  lemma KeptElsewhere(C: Chunks, C': Chunks, maps: map<int, Region>, live: set<int>, live': set<int>, d: Bytes,
                      d': Bytes)
    requires Kept(C, maps, live, d, d') && live' <= live
    requires forall q | q in live' :: q in C && q in C' && C'[q] == C[q]
    ensures Kept(C', maps, live', d, d')
  {
    forall a | InPayload(C', maps, live', a) ensures InPayload(C, maps, live, a) {
    }
  }

  lemma MapClear(C: Chunks, head: Heads, foot: Field, segs: seq<Seg>, top: int, topsize: nat, maps: map<int, Region>,
                 p: int, q: int, a: int)
    requires Tags(C, head, foot) && SegsOk(C, segs, top, topsize) && MapsOk(maps, head, foot, segs)
    requires p in C && q in maps && q + 16 <= a < maps[q].End() - 32
    ensures !(p <= a < p + 16) && !(p <= a < p + C[p].size)
  {
    hide TopOk, EndOk, SegOk, SegsApart, KindsOk, HeadOk, AfterFree, MayFollow;
    assert TagOk(C, head, foot, p) && Placed(C, segs, p);
    var i :| 0 <= i < |segs| && segs[i].base <= p && p + C[p].size <= segs[i].End();
    assert MapOk(maps[q], head, foot, q) && Disjoint(maps[q], Region(segs[i].base, segs[i].size));
  }

  lemma TagBytesKept(C: Chunks, head: Heads, foot: Field, segs: seq<Seg>, top: int, topsize: nat, live: set<int>,
                     maps: map<int, Region>,
                     lo: int, mid: int, hi: int, d: Bytes, d': Bytes)
    requires Tags(C, head, foot) && SegsOk(C, segs, top, topsize) && MapsOk(maps, head, foot, segs)
             && Stretch(C, lo, hi)
    requires lo + 16 <= mid && (mid + 16 <= hi || mid == hi) && TagBytes(d, d', lo, mid, hi)
    ensures Kept(C, maps, LiveCut(live, lo, hi), d, d')
  {
    hide SegsOk, MapsOk;
    forall a | InPayload(C, maps, LiveCut(live, lo, hi), a) ensures d'.At(a) == d.At(a) {
      if q :| q in LiveCut(live, lo, hi) && q in C && q + 16 <= a < q + C[q].size + 8 {
        Outside(C, head, foot, lo, hi, q);
      } else {
        var q :| q in maps && q + 16 <= a < maps[q].End() - 32;
        MapOutside(C, head, foot, segs, top, topsize, maps, lo, hi, q, a);
      }
    }
  }

  lemma MapOutside(C: Chunks, head: Heads, foot: Field, segs: seq<Seg>, top: int, topsize: nat, maps: map<int, Region>,
                   lo: int, hi: int, q: int, a: int)
    requires Tags(C, head, foot) && SegsOk(C, segs, top, topsize) && MapsOk(maps, head, foot, segs)
             && Stretch(C, lo, hi)
    requires q in maps && q + 16 <= a < maps[q].End() - 32
    ensures !(lo <= a < hi + 16)
  {
    var i := StretchInSeg(C, head, foot, segs, top, topsize, lo, hi);
    MapClear(C, head, foot, segs, top, topsize, maps, hi, q, a);
    hide SegsOk, Tags;
    assert MapOk(maps[q], head, foot, q) && Disjoint(maps[q], Region(segs[i].base, segs[i].size));
  }

  /** Link writes stay inside free chunks. */
  lemma FreeBytesKept(C: Chunks, head: Heads, foot: Field, segs: seq<Seg>, top: int, topsize: nat, live: set<int>,
                      maps: map<int, Region>,
                      B: map<int, nat>, d: Bytes, d': Bytes)
    requires Tags(C, head, foot) && SegsOk(C, segs, top, topsize) && MapsOk(maps, head, foot, segs)
             && UsedOk(C, segs, live)
    requires forall p | p in B :: p in C && C[p] == Chunk(B[p], Free)
    requires OnlyFreeBytes(d, d', B)
    ensures Kept(C, maps, live, d, d')
  {
    forall a | InPayload(C, maps, live, a) ensures d'.At(a) == d.At(a) {
      PayloadNotFree(C, head, foot, segs, top, topsize, live, maps, B, a);
    }
  }

  lemma PayloadNotFree(C: Chunks, head: Heads, foot: Field, segs: seq<Seg>, top: int, topsize: nat, live: set<int>,
                       maps: map<int, Region>,
                       B: map<int, nat>, a: int)
    requires Tags(C, head, foot) && SegsOk(C, segs, top, topsize) && MapsOk(maps, head, foot, segs)
             && UsedOk(C, segs, live)
    requires forall p | p in B :: p in C && C[p] == Chunk(B[p], Free)
    requires InPayload(C, maps, live, a)
    ensures a >= 0 && !InFree(B, a)
  {
    hide SegsOk, MapsOk;
    if q :| q in live && q in C && q + 16 <= a < q + C[q].size + 8 {
      assert TagOk(C, head, foot, q);
      forall f | f in B ensures !(f + 16 <= a < f + B[f]) {
        assert InOrder(C, q, f) && InOrder(C, f, q);
      }
    } else {
      var q :| q in maps && q + 16 <= a < maps[q].End() - 32;
      MapPositive(maps, head, foot, segs, q);
      forall f | f in B ensures !(f + 16 <= a < f + B[f]) {
        MapClear(C, head, foot, segs, top, topsize, maps, f, q, a);
      }
    }
  }

  lemma MapPositive(maps: map<int, Region>, head: Heads, foot: Field, segs: seq<Seg>, q: int)
    requires MapsOk(maps, head, foot, segs) && q in maps
    ensures q > 0
  {
    assert MapOk(maps[q], head, foot, q);
  }
}
