/** Segments added, extended downwards and released. */
module Segments {
  import opened Sizes
  import opened Memory
  import opened Bins
  import opened Layout
  import opened Heap
  import opened Steps
  import opened Words
  import opened Regions

  // ----- the first segment becomes an ordinary one

  /** Where its record goes: into the foot of `top`, or over `top` when that is too small to stay a chunk. */
  function RecordPlace(top: int, topsize: nat): int {
    if topsize < MIN_CHUNK then top else top + topsize
  }

  /** `top` and its foot become a free chunk (unless too small), a record and fenceposts. */
  ghost function Closed(C: Chunks, top: int, topsize: nat): Chunks
    requires topsize > 0
  {
    var rec := RecordPlace(top, topsize);
    var C0 := map p | p in C && p != top && p != top + topsize :: C[p];
    (if rec == top then C0 else C0[top := Chunk(topsize, Free)])
      [rec := Chunk(RECORD, Used)][rec + RECORD := Chunk(top + topsize + TOP_FOOT - rec - RECORD, Fence)]
  }

  /** The tags that go with it. */
  ghost predicate ClosedHeads(head: Heads, foot: Field, head': Heads, foot': Field, top: int, topsize: nat) {
    var rec := RecordPlace(top, topsize);
    && (forall a {:trigger head'.At(a)} :: !(top <= a < top + topsize + TOP_FOOT) ==> head'.At(a) == head.At(a))
    && (rec != top ==> head'.At(top) == Head(topsize, true, false))
    && head'.At(rec) == Head(RECORD, rec == top, true) && head'.At(rec + RECORD) == Head(8, true, true)
    && foot' == if rec == top then foot else foot.Set(rec, topsize)
  }

  ghost predicate MayClose(C: Chunks, top: int, topsize: nat) {
    && topsize > 0 && IsAligned(topsize)
    && top in C && C[top] == Chunk(topsize, Top) && top + topsize in C && C[top + topsize] == Chunk(TOP_FOOT, Foot)
  }

  lemma ClosedOther(C: Chunks, head: Heads, foot: Field, head': Heads, foot': Field, top: int, topsize: nat, q: int)
    requires Tags(C, head, foot) && MayClose(C, top, topsize) && ClosedHeads(head, foot, head', foot', top, topsize)
             && q in C
    ensures var C' := Closed(C, top, topsize);
            && (q != top && q != top + topsize ==>
               q in C' && C'[q] == C[q] && head'.At(q) == head.At(q) && foot'.At(q) == foot.At(q))
            && (q == top ==> q in C' && C'[q].kind in {Free, Used} && head'.At(q).pinuse && head.At(q).pinuse)
    ensures q != top && q != top + topsize ==> q + C[q].size != top + topsize
    ensures C[q].size > 0 && (q != top && q != top + topsize ==> q + C[q].size <= top || top + topsize + TOP_FOOT <= q)
  {
    hide AfterFree, MayFollow;
    assert topsize >= 16;
    assert TagOk(C, head, foot, q) && TagOk(C, head, foot, top) && InOrder(C, q, top) && InOrder(C, top, q)
           && InOrder(C, top + topsize, q);
  }

  lemma ClosedTag(C: Chunks, head: Heads, foot: Field, head': Heads, foot': Field, top: int, topsize: nat, p: int)
    requires Tags(C, head, foot) && MayClose(C, top, topsize) && ClosedHeads(head, foot, head', foot', top, topsize)
             && p in C
    requires p != top && p != top + topsize
    ensures TagOk(Closed(C, top, topsize), head', foot', p)
  {
    assert C[top].kind == Top;
    hide IsAligned, HeadOk, SizeOk, Closed, ClosedHeads, MayClose;
    assert TagOk(C, head, foot, p);
    ClosedOther(C, head, foot, head', foot', top, topsize, p);
    if !Stops(C[p].kind) {
      ClosedOther(C, head, foot, head', foot', top, topsize, p + C[p].size);
    }
    if C[p].kind == Used && !head.At(p).pinuse {
      ClosedOther(C, head, foot, head', foot', top, topsize, p - foot.At(p));
    }
    TagStays(C, head, foot, Closed(C, top, topsize), head', foot', p);
  }

  lemma ClosedEnds(C: Chunks, head: Heads, foot: Field, head': Heads, foot': Field, top: int, topsize: nat)
    requires Tags(C, head, foot) && MayClose(C, top, topsize) && ClosedHeads(head, foot, head', foot', top, topsize)
    ensures var C', rec := Closed(C, top, topsize), RecordPlace(top, topsize);
            TagOk(C', head', foot', top) && TagOk(C', head', foot', rec) && TagOk(C', head', foot', rec + RECORD)
  {
    hide TagOk, Tags;
    ClosedTop(C, head, foot, head', foot', top, topsize);
    ClosedRecord(C, head, foot, head', foot', top, topsize);
  }

  lemma TopIsAligned(C: Chunks, head: Heads, foot: Field, top: int, topsize: nat)
    requires Tags(C, head, foot) && MayClose(C, top, topsize)
    ensures top > 0 && IsAligned(top) && head.At(top).pinuse
  {
    hide InOrder;
    assert TagOk(C, head, foot, top);
  }

  lemma ClosedTop(C: Chunks, head: Heads, foot: Field, head': Heads, foot': Field, top: int, topsize: nat)
    requires Tags(C, head, foot) && MayClose(C, top, topsize) && ClosedHeads(head, foot, head', foot', top, topsize)
    ensures RecordPlace(top, topsize) != top ==> TagOk(Closed(C, top, topsize), head', foot', top)
  {
    hide Tags;
    TopIsAligned(C, head, foot, top, topsize);
  }

  lemma ClosedRecord(C: Chunks, head: Heads, foot: Field, head': Heads, foot': Field, top: int, topsize: nat)
    requires Tags(C, head, foot) && MayClose(C, top, topsize) && ClosedHeads(head, foot, head', foot', top, topsize)
    ensures var C', rec := Closed(C, top, topsize), RecordPlace(top, topsize);
            TagOk(C', head', foot', rec) && TagOk(C', head', foot', rec + RECORD)
  {
    hide Tags;
    TopIsAligned(C, head, foot, top, topsize);
  }

  lemma ClosedOrder(C: Chunks, head: Heads, foot: Field, head': Heads, foot': Field, top: int, topsize: nat, p: int,
                    q: int)
    requires Tags(C, head, foot) && MayClose(C, top, topsize) && ClosedHeads(head, foot, head', foot', top, topsize)
    ensures InOrder(Closed(C, top, topsize), p, q)
  {
    assert topsize >= 16;
    hide HeadOk, AfterFree, MayFollow, ClosedHeads, IsAligned, Tags, TagOk;
    assert InOrder(C, p, q) by {
      assert Tags(C, head, foot);
    }
    if p in C { ClosedOther(C, head, foot, head', foot', top, topsize, p); }
    if q in C { ClosedOther(C, head, foot, head', foot', top, topsize, q); }
  }

  lemma ClosedTags(C: Chunks, head: Heads, foot: Field, head': Heads, foot': Field, top: int, topsize: nat)
    requires Tags(C, head, foot) && MayClose(C, top, topsize) && ClosedHeads(head, foot, head', foot', top, topsize)
    ensures Tags(Closed(C, top, topsize), head', foot')
  {
    assert topsize > 0;
    hide TagOk, InOrder, MayClose, ClosedHeads;
    var C' := Closed(C, top, topsize);
    ClosedEnds(C, head, foot, head', foot', top, topsize);
    forall p ensures TagOk(C', head', foot', p) {
      if p in C && p != top && p != top + topsize {
        ClosedTag(C, head, foot, head', foot', top, topsize, p);
      } else {
        AbsentTag(C', head', foot', p);
      }
    }
    forall p, q ensures InOrder(C', p, q) {
      ClosedOrder(C, head, foot, head', foot', top, topsize, p, q);
    }
  }

  // ----- a new first segment

  ghost function Opened(C: Chunks, base: int, ts: nat): Chunks {
    C[base := Chunk(ts, Top)][base + ts := Chunk(TOP_FOOT, Foot)]
  }

  /** Nothing of the layout lies where the segment goes. */
  ghost predicate Elsewhere(C: Chunks, lo: int, hi: int) {
    forall p | p in C :: C[p].size > 0 && (p + C[p].size <= lo || hi <= p)
  }

  lemma OpenedTag(C: Chunks, head: Heads, foot: Field, base: int, ts: nat, p: int)
    requires Tags(C, head, foot) && Elsewhere(C, base, base + ts + TOP_FOOT) && ts > 0 && p in C
    ensures TagOk(Opened(C, base, ts), ResizedHeads(head, base, ts), foot, p)
  {
    hide IsAligned, HeadOk, SizeOk;
    assert TagOk(C, head, foot, p);
    TagStays(C, head, foot, Opened(C, base, ts), ResizedHeads(head, base, ts), foot, p);
  }

  lemma OpenedEnds(C: Chunks, head: Heads, foot: Field, base: int, ts: nat)
    requires base > 0 && ts > 0 && IsAligned(base) && IsAligned(ts)
    ensures TagOk(Opened(C, base, ts), ResizedHeads(head, base, ts), foot, base)
            && TagOk(Opened(C, base, ts), ResizedHeads(head, base, ts), foot, base + ts)
  {
  }

  lemma OpenedTags(C: Chunks, head: Heads, foot: Field, base: int, ts: nat)
    requires Tags(C, head, foot) && Elsewhere(C, base, base + ts + TOP_FOOT) && base > 0 && ts > 0 && IsAligned(base)
             && IsAligned(ts)
    ensures Tags(Opened(C, base, ts), ResizedHeads(head, base, ts), foot)
  {
    hide TagOk, ResizedHeads;
    var C', head' := Opened(C, base, ts), ResizedHeads(head, base, ts);
    OpenedEnds(C, head, foot, base, ts);
    forall p ensures TagOk(C', head', foot, p) {
      if p in C {
        OpenedTag(C, head, foot, base, ts, p);
      } else {
        AbsentTag(C', head', foot, p);
      }
    }
    forall p, q ensures InOrder(C', p, q) {
      assert InOrder(C, p, q);
    }
  }

  /** A region just obtained: page-aligned and clear of everything else. */
  ghost predicate NewRegion(segs: seq<Seg>, maps: map<int, Region>, base: int, size: nat) {
    base > 0 && base % PAGE == 0 && size > TOP_FOOT && size % PAGE == 0 && base + size <= WORD_RANGE
    && Unclaimed(segs, maps, base, base + size)
  }

  lemma PageAligned(n: int)
    ensures n % PAGE == 0 ==> IsAligned(n) && IsAligned(n - TOP_FOOT)
  {
    if n % PAGE == 0 {
      var k := n / PAGE;
      assert n == 16 * (256 * k);
    }
  }

  /** The segments after the first one has been closed and a new one opened. */
  function AddedSegs(segs: seq<Seg>, top: int, topsize: nat, base: int, size: nat): seq<Seg>
    requires segs != []
  {
    [Seg(base, size, 0), Seg(segs[0].base, segs[0].size, RecordPlace(top, topsize))] + segs[1..]
  }

  ghost function AddedChunks(C: Chunks, top: int, topsize: nat, base: int, size: nat): Chunks
    requires topsize > 0 && size > TOP_FOOT
  {
    Opened(Closed(C, top, topsize), base, size - TOP_FOOT)
  }

  /** `top` as the end of the first segment. */
  lemma TopEnds(C: Chunks, head: Heads, foot: Field, segs: seq<Seg>, top: int, topsize: nat)
    requires Tags(C, head, foot) && SegsOk(C, segs, top, topsize) && segs != []
    ensures MayClose(C, top, topsize) && topsize > 0 && segs[0].End() == top + topsize + TOP_FOOT
            && 0 < segs[0].base <= top && IsAligned(top)
    ensures segs[0].base in C && (forall i | 1 <= i < |segs| :: segs[i].base != top && segs[i].base != top + topsize)
  {
    hide EndOk, Placed, FenceOk, SegsApart, KindsOk, AfterFree, MayFollow;
    assert TagOk(C, head, foot, top) && SegOk(C, segs[0]);
    forall i | 1 <= i < |segs| ensures segs[i].base != top && segs[i].base != top + topsize {
      BaseIsNoStop(C, head, foot, segs, top, topsize, i);
    }
  }

  /** The chunks that were there before, in the new layout. */
  lemma AddedOther(C: Chunks, head: Heads, foot: Field, segs: seq<Seg>, top: int, topsize: nat, maps: map<int, Region>,
                   base: int, size: nat, q: int)
    requires Tags(C, head, foot) && SegsOk(C, segs, top, topsize) && segs != [] && NewRegion(segs, maps, base, size)
    requires MayClose(C, top, topsize) && q in C
    ensures var C' := AddedChunks(C, top, topsize, base, size);
            && (q != top && q != top + topsize ==> q in C' && C'[q] == C[q])
            && (q == top ==> q in C' && C'[q].kind in {Free, Used})
    ensures q + C[q].size <= base || base + size <= q
    ensures C[q].size >= 16 && (q != top && q != top + topsize ==>
            q + C[q].size <= top || top + topsize + TOP_FOOT <= q)
  {
    assert topsize >= 16;
    NoChunkThere(C, head, foot, segs, top, topsize, base, base + size, q);
    hide EndOk, Placed, FenceOk, SegsApart, KindsOk, AfterFree, MayFollow, SegOk, TopOk, Unclaimed, HeadOk;
    assert TagOk(C, head, foot, q) && InOrder(C, q, top) && InOrder(C, top, q) && InOrder(C, top + topsize, q);
  }

  /** What the new layout holds besides. */
  lemma AddedNew(C: Chunks, top: int, topsize: nat, base: int, size: nat, q: int)
    requires MayClose(C, top, topsize) && size > TOP_FOOT
    requires q in AddedChunks(C, top, topsize, base, size)
    ensures var c, rec := AddedChunks(C, top, topsize, base, size)[q], RecordPlace(top, topsize);
            || (q == base && c == Chunk(size - TOP_FOOT, Top))
            || (q == base + size - TOP_FOOT && c == Chunk(TOP_FOOT, Foot))
            || (q == rec && c == Chunk(RECORD, Used))
            || (q == rec + RECORD && c == Chunk(top + topsize + TOP_FOOT - rec - RECORD, Fence))
            || (q == top && rec != top && c == Chunk(topsize, Free))
            || (q in C && q != top && q != top + topsize && c == C[q])
  {
  }

  lemma AddedEndOk(C: Chunks, head: Heads, foot: Field, segs: seq<Seg>, top: int, topsize: nat, maps: map<int, Region>,
                   base: int, size: nat, i: nat)
    requires Tags(C, head, foot) && SegsOk(C, segs, top, topsize) && segs != [] && NewRegion(segs, maps, base, size)
    requires MayClose(C, top, topsize) && 1 <= i < |segs|
    ensures var C' := AddedChunks(C, top, topsize, base, size); EndOk(C', segs[i]) && SegOk(C', segs[i])
  {
    assert C[top].kind == Top && C[top + topsize].kind == Foot;
    hide Tags, TopOk, KindsOk, Placed, FenceOk, MayClose, IsAligned, NewRegion, AddedChunks, SegsApart;
    assert EndOk(C, segs[i]) && SegOk(C, segs[i]);
    AddedOther(C, head, foot, segs, top, topsize, maps, base, size, segs[i].rec);
    AddedOther(C, head, foot, segs, top, topsize, maps, base, size, segs[i].rec + RECORD);
    BaseIsNoStop(C, head, foot, segs, top, topsize, i);
    AddedOther(C, head, foot, segs, top, topsize, maps, base, size, segs[i].base);
  }

  lemma AddedFirst(C: Chunks, head: Heads, foot: Field, segs: seq<Seg>, top: int, topsize: nat, maps: map<int, Region>,
                   base: int, size: nat)
    requires Tags(C, head, foot) && SegsOk(C, segs, top, topsize) && segs != [] && NewRegion(segs, maps, base, size)
    ensures MayClose(C, top, topsize)
    ensures var C', segs' := AddedChunks(C, top, topsize, base, size), AddedSegs(segs, top, topsize, base, size);
            && SegOk(C', segs'[0]) && TopOk(C', segs'[0], base, size - TOP_FOOT) && SegOk(C', segs'[1])
            && EndOk(C', segs'[1])
  {
    hide EndOk, Placed, FenceOk, SegsApart, KindsOk;
    TopEnds(C, head, foot, segs, top, topsize);
    PageAligned(base);
    assert SegOk(C, segs[0]);
    AddedOther(C, head, foot, segs, top, topsize, maps, base, size, segs[0].base);
    AddedSecond(C, segs, top, topsize, maps, base, size);
  }

  lemma AddedSecond(C: Chunks, segs: seq<Seg>, top: int, topsize: nat, maps: map<int, Region>, base: int, size: nat)
    requires segs != [] && NewRegion(segs, maps, base, size) && MayClose(C, top, topsize)
             && segs[0].End() == top + topsize + TOP_FOOT && segs[0].base <= top
    ensures EndOk(AddedChunks(C, top, topsize, base, size), AddedSegs(segs, top, topsize, base, size)[1])
  {
    hide IsAligned;
  }

  lemma AddedApart(C: Chunks, segs: seq<Seg>, top: int, topsize: nat, maps: map<int, Region>, base: int, size: nat)
    requires MayClose(C, top, topsize) && KindsOk(C, top, topsize) && SegsApart(segs) && segs != []
             && NewRegion(segs, maps, base, size)
    ensures SegsApart(AddedSegs(segs, top, topsize, base, size))
            && KindsOk(AddedChunks(C, top, topsize, base, size), base, size - TOP_FOOT)
  {
    hide IsAligned;
    var segs' := AddedSegs(segs, top, topsize, base, size);
    forall i, j | 0 <= i < j < |segs'| ensures segs'[i].End() <= segs'[j].base || segs'[j].End() <= segs'[i].base {
      assert segs'[j].base == segs[j - 1].base && segs'[j].End() == segs[j - 1].End();
      if i > 0 {
        assert segs'[i].base == segs[i - 1].base && segs'[i].End() == segs[i - 1].End();
      }
    }
  }

  lemma AddedPlaced(C: Chunks, head: Heads, foot: Field, segs: seq<Seg>, top: int, topsize: nat, maps: map<int, Region>,
                    base: int, size: nat, p: int)
    requires Tags(C, head, foot) && SegsOk(C, segs, top, topsize) && segs != [] && NewRegion(segs, maps, base, size)
             && MayClose(C, top, topsize)
    requires segs[0].End() == top + topsize + TOP_FOOT && 0 < segs[0].base <= top
    ensures var C', segs' := AddedChunks(C, top, topsize, base, size), AddedSegs(segs, top, topsize, base, size);
            Placed(C', segs', p) && FenceOk(C', segs', p)
  {
    var C', segs' := AddedChunks(C, top, topsize, base, size), AddedSegs(segs, top, topsize, base, size);
    if p in C' {
      AddedNew(C, top, topsize, base, size, p);
    }
    assert topsize >= 16;
    hide Tags, TopOk, SegOk, EndOk, KindsOk, SegsApart, IsAligned, AddedChunks, MayClose, Unclaimed;
    assert Placed(C, segs, p) && FenceOk(C, segs, p);
    assert segs'[0] == Seg(base, size, 0) && segs'[1] == Seg(segs[0].base, segs[0].size, RecordPlace(top, topsize));
    AddedIndex(segs, top, topsize, base, size);
    if p in C && p in C' && p != top && p != top + topsize && C'[p] == C[p] {
      var i :| 0 <= i < |segs| && segs[i].base <= p && p + C[p].size <= segs[i].End();
      assert segs'[i + 1].base <= p && p + C'[p].size <= segs'[i + 1].End();
    }
  }

  lemma AddedIndex(segs: seq<Seg>, top: int, topsize: nat, base: int, size: nat)
    requires segs != []
    ensures var segs' := AddedSegs(segs, top, topsize, base, size);
            && |segs'| == |segs| + 1 && (forall i | 0 <= i < |segs| ::
               segs'[i + 1].base == segs[i].base && segs'[i + 1].size == segs[i].size)
            && (forall p :: IsRecord(segs', p) <==> p == RecordPlace(top, topsize) || IsRecord(segs, p))
  {
    var segs' := AddedSegs(segs, top, topsize, base, size);
    forall p ensures IsRecord(segs', p) <==> p == RecordPlace(top, topsize) || IsRecord(segs, p) {
      if i :| 1 <= i < |segs| && segs[i].rec == p {
        assert segs'[i + 1].rec == p;
      }
      if i :| 1 <= i < |segs'| && segs'[i].rec == p {
        assert i > 1 ==> segs[i - 1].rec == p;
      }
      assert segs'[1].rec == RecordPlace(top, topsize);
    }
  }

  lemma AddedSegsOk(C: Chunks, head: Heads, foot: Field, segs: seq<Seg>, top: int, topsize: nat, maps: map<int, Region>,
                    base: int, size: nat)
    requires Tags(C, head, foot) && SegsOk(C, segs, top, topsize) && segs != [] && NewRegion(segs, maps, base, size)
    ensures MayClose(C, top, topsize)
    ensures SegsOk(AddedChunks(C, top, topsize, base, size), AddedSegs(segs, top, topsize, base, size), base,
                   size - TOP_FOOT)
  {
    hide Tags, TopOk, SegOk, EndOk, KindsOk, SegsApart, IsAligned, AddedChunks, Placed, FenceOk;
    TopEnds(C, head, foot, segs, top, topsize);
    AddedFirst(C, head, foot, segs, top, topsize, maps, base, size);
    AddedApart(C, segs, top, topsize, maps, base, size);
    var C', segs' := AddedChunks(C, top, topsize, base, size), AddedSegs(segs, top, topsize, base, size);
    forall p ensures Placed(C', segs', p) && FenceOk(C', segs', p) {
      AddedPlaced(C, head, foot, segs, top, topsize, maps, base, size, p);
    }
    forall i | 0 <= i < |segs'| ensures SegOk(C', segs'[i]) && (i >= 1 ==> EndOk(C', segs'[i])) {
      if i >= 2 {
        assert segs'[i] == segs[i - 1];
        AddedEndOk(C, head, foot, segs, top, topsize, maps, base, size, i - 1);
      }
    }
  }

  lemma AddedTwoWays(C: Chunks, top: int, topsize: nat, base: int, size: nat)
    requires MayClose(C, top, topsize) && size > TOP_FOOT && (base + size <= top || top + topsize + TOP_FOOT <= base)
    ensures AddedChunks(C, top, topsize, base, size) == Closed(Opened(C, base, size - TOP_FOOT), top, topsize)
  {
    hide IsAligned;
  }

  lemma AddedTags(C: Chunks, head: Heads, foot: Field, segs: seq<Seg>, top: int, topsize: nat, maps: map<int, Region>,
                  base: int, size: nat, head': Heads, foot': Field)
    requires Tags(C, head, foot) && SegsOk(C, segs, top, topsize) && segs != [] && NewRegion(segs, maps, base, size)
    requires ClosedHeads(ResizedHeads(head, base, size - TOP_FOOT), foot, head', foot', top, topsize)
    ensures MayClose(C, top, topsize) && size > TOP_FOOT
    ensures Tags(AddedChunks(C, top, topsize, base, size), head', foot')
  {
    hide Tags, SegsOk, IsAligned, ClosedHeads, ResizedHeads, MayClose, Elsewhere, NewRegion;
    TopEnds(C, head, foot, segs, top, topsize);
    NewRegionElsewhere(C, head, foot, segs, top, topsize, maps, base, size);
    AddedTwoWays(C, top, topsize, base, size);
    OpenedTags(C, head, foot, base, size - TOP_FOOT);
    StillMayClose(C, top, topsize, base, size);
    ClosedTags(Opened(C, base, size - TOP_FOOT), ResizedHeads(head, base, size - TOP_FOOT), foot, head', foot', top,
               topsize);
  }

  lemma StillMayClose(C: Chunks, top: int, topsize: nat, base: int, size: nat)
    requires MayClose(C, top, topsize) && size > TOP_FOOT && (base + size <= top || top + topsize + TOP_FOOT <= base)
    ensures MayClose(Opened(C, base, size - TOP_FOOT), top, topsize)
  {
    hide IsAligned;
  }

  lemma NewRegionElsewhere(C: Chunks, head: Heads, foot: Field, segs: seq<Seg>, top: int, topsize: nat,
                           maps: map<int, Region>, base: int, size: nat)
    requires Tags(C, head, foot) && SegsOk(C, segs, top, topsize) && NewRegion(segs, maps, base, size)
    ensures Elsewhere(C, base, base + size) && base > 0 && size > TOP_FOOT && IsAligned(base)
            && IsAligned(size - TOP_FOOT)
    ensures segs != [] ==> base + size <= segs[0].base <= top || top + topsize + TOP_FOOT <= base
  {
    hide Tags, SegOk, EndOk, KindsOk, SegsApart, Placed, FenceOk;
    PageAligned(base);
    PageAligned(size);
    if segs != [] {
      assert segs[0].End() <= base || base + size <= segs[0].base;
    }
    forall q | q in C ensures C[q].size > 0 && (q + C[q].size <= base || base + size <= q) {
      NoChunkThere(C, head, foot, segs, top, topsize, base, base + size, q);
    }
  }

  /** The free chunks: what is left of the old `top` is one more. */
  ghost function AddedPool(F: map<int, nat>, top: int, topsize: nat): map<int, nat> {
    if RecordPlace(top, topsize) == top then F else F[top := topsize]
  }

  lemma AddedPoolOk(C: Chunks, segs: seq<Seg>, top: int, topsize: nat, F: map<int, nat>, base: int, size: nat)
    requires PoolOk(C, F) && MayClose(C, top, topsize) && size > TOP_FOOT
             && (base + size <= top || top + topsize + TOP_FOOT <= base)
    requires Elsewhere(C, base, base + size) && forall q | q in C && q != top && q != top + topsize ::
             q + C[q].size <= top || top + topsize + TOP_FOOT <= q
    ensures PoolOk(AddedChunks(C, top, topsize, base, size), AddedPool(F, top, topsize)) && top !in F
  {
    var C', F' := AddedChunks(C, top, topsize, base, size), AddedPool(F, top, topsize);
    assert C[top].kind == Top;
    forall p | IsFree(C', p) ensures p in F' {
      AddedNew(C, top, topsize, base, size, p);
      assert p in C && p != top && p != top + topsize ==> IsFree(C, p);
    }
    forall p | p in F' ensures p in C' && C'[p] == Chunk(F'[p], Kind.Free) {
      AddedOldPool(C, top, topsize, F, base, size, p);
    }
  }

  lemma AddedOldPool(C: Chunks, top: int, topsize: nat, F: map<int, nat>, base: int, size: nat, p: int)
    requires PoolOk(C, F) && MayClose(C, top, topsize) && size > TOP_FOOT
             && (base + size <= top || top + topsize + TOP_FOOT <= base)
    requires Elsewhere(C, base, base + size) && forall q | q in C && q != top && q != top + topsize ::
             q + C[q].size <= top || top + topsize + TOP_FOOT <= q
    requires p in AddedPool(F, top, topsize)
    ensures var C' := AddedChunks(C, top, topsize, base, size);
            p in C' && C'[p] == Chunk(AddedPool(F, top, topsize)[p], Kind.Free)
  {
    hide IsAligned;
  }

  lemma AddedUsedOk(C: Chunks, segs: seq<Seg>, top: int, topsize: nat, live: set<int>, base: int, size: nat)
    requires segs != [] && UsedOk(C, segs, live) && MayClose(C, top, topsize) && size > TOP_FOOT
             && (base + size <= top || top + topsize + TOP_FOOT <= base)
    requires Elsewhere(C, base, base + size) && forall q | q in C && q != top && q != top + topsize ::
             q + C[q].size <= top || top + topsize + TOP_FOOT <= q
    ensures UsedOk(AddedChunks(C, top, topsize, base, size), AddedSegs(segs, top, topsize, base, size), live)
  {
    hide IsAligned, IsRecord, AddedSegs;
    AddedIndex(segs, top, topsize, base, size);
  }

  lemma AddedMaps(C: Chunks, head: Heads, foot: Field, segs: seq<Seg>, top: int, topsize: nat, maps: map<int, Region>,
                  base: int, size: nat, head': Heads, foot': Field)
    requires MapsOk(maps, head, foot, segs) && segs != [] && NewRegion(segs, maps, base, size) && segs[0].base <= top
             && segs[0].End() == top + topsize + TOP_FOOT && topsize > 0
    requires ClosedHeads(ResizedHeads(head, base, size - TOP_FOOT), foot, head', foot', top, topsize)
    ensures MapsOk(maps, head', foot', AddedSegs(segs, top, topsize, base, size))
  {
    hide MapsOk, NewRegion, ClosedHeads, ResizedHeads, AddedSegs, SameIn, Disjoint;
    var segs' := AddedSegs(segs, top, topsize, base, size);
    forall p | p in maps
      ensures SameIn(head, foot, head', foot', maps[p].base, maps[p].End())
      ensures forall i | 0 <= i < |segs'| :: Disjoint(maps[p], Region(segs'[i].base, segs'[i].size))
    {
      AddedMap(head, foot, segs, top, topsize, maps, base, size, head', foot', p);
      AddedMapApart(head, foot, segs, top, topsize, maps, base, size, p);
    }
    MapsStay(maps, head, foot, segs, head', foot', segs');
  }

  lemma AddedMap(head: Heads, foot: Field, segs: seq<Seg>, top: int, topsize: nat, maps: map<int, Region>, base: int,
                 size: nat, head': Heads, foot': Field, p: int)
    requires MapsOk(maps, head, foot, segs) && segs != [] && NewRegion(segs, maps, base, size) && segs[0].base <= top
             && segs[0].End() == top + topsize + TOP_FOOT && topsize > 0 && p in maps
    requires ClosedHeads(ResizedHeads(head, base, size - TOP_FOOT), foot, head', foot', top, topsize)
    ensures SameIn(head, foot, head', foot', maps[p].base, maps[p].End())
  {
    hide MapOk;
    assert Disjoint(maps[p], Region(segs[0].base, segs[0].size));
  }

  lemma AddedMapApart(head: Heads, foot: Field, segs: seq<Seg>, top: int, topsize: nat, maps: map<int, Region>,
                      base: int, size: nat, p: int)
    requires MapsOk(maps, head, foot, segs) && segs != [] && NewRegion(segs, maps, base, size) && p in maps
    ensures var segs' := AddedSegs(segs, top, topsize, base, size);
            forall i | 0 <= i < |segs'| :: Disjoint(maps[p], Region(segs'[i].base, segs'[i].size))
  {
    hide MapOk, AddedSegs, IsRecord;
    var segs' := AddedSegs(segs, top, topsize, base, size);
    AddedIndex(segs, top, topsize, base, size);
    AddedZero(segs, top, topsize, base, size);
    forall i | 0 <= i < |segs'| ensures Disjoint(maps[p], Region(segs'[i].base, segs'[i].size)) {
      if i > 0 {
        assert Disjoint(maps[p], Region(segs[i - 1].base, segs[i - 1].size));
      }
    }
  }

  lemma AddedZero(segs: seq<Seg>, top: int, topsize: nat, base: int, size: nat)
    requires segs != []
    ensures AddedSegs(segs, top, topsize, base, size)[0] == Seg(base, size, 0)
  {
  }

  /** Only bytes of the old `top`, its foot and the new region have been written. */
  ghost predicate AddedBytes(d: Bytes, d': Bytes, top: int, topsize: nat, base: int, size: nat) {
    forall a {:trigger d'.At(a)} ::
        !(top + 8 <= a < top + topsize + TOP_FOOT) && !(base <= a < base + size) ==> d'.At(a) == d.At(a)
  }

  lemma NextOfUsed(C: Chunks, head: Heads, foot: Field, q: int)
    requires Tags(C, head, foot) && q in C && C[q].kind == Used
    ensures C[q].size > 0 && q + C[q].size in C && C[q + C[q].size].kind != Foot
  {
    hide InOrder, HeadOk, AfterFree;
    assert TagOk(C, head, foot, q);
  }

  lemma AddedPayload(C: Chunks, head: Heads, foot: Field, segs: seq<Seg>, top: int, topsize: nat, live: set<int>,
                     maps: map<int, Region>, base: int, size: nat, q: int, a: int)
    requires Tags(C, head, foot) && SegsOk(C, segs, top, topsize) && UsedOk(C, segs, live) && segs != []
             && NewRegion(segs, maps, base, size)
    requires MayClose(C, top, topsize) && q in live && q in C && q + 16 <= a < q + C[q].size + 8
    ensures !(top + 8 <= a < top + topsize + TOP_FOOT) && !(base <= a < base + size)
  {
    hide Tags, SegsOk, IsRecord, IsAligned, NewRegion, AddedChunks;
    NextOfUsed(C, head, foot, q);
    AddedOther(C, head, foot, segs, top, topsize, maps, base, size, q);
    AddedOther(C, head, foot, segs, top, topsize, maps, base, size, q + C[q].size);
  }

  lemma AddedKept(C: Chunks, head: Heads, foot: Field, segs: seq<Seg>, top: int, topsize: nat, live: set<int>,
                  maps: map<int, Region>, base: int, size: nat, d: Bytes, d': Bytes)
    requires Tags(C, head, foot) && SegsOk(C, segs, top, topsize) && UsedOk(C, segs, live)
             && MapsOk(maps, head, foot, segs) && segs != [] && NewRegion(segs, maps, base, size)
    requires MayClose(C, top, topsize) && AddedBytes(d, d', top, topsize, base, size)
    ensures Kept(C, maps, live, d, d')
  {
    TopEnds(C, head, foot, segs, top, topsize);
    hide Tags, SegsOk, UsedOk, IsAligned, MayClose;
    forall a | InPayload(C, maps, live, a) ensures d'.At(a) == d.At(a) {
      if q :| q in live && q in C && q + 16 <= a < q + C[q].size + 8 {
        AddedPayload(C, head, foot, segs, top, topsize, live, maps, base, size, q, a);
      } else {
        var q :| q in maps && q + 16 <= a < maps[q].End() - 32;
        assert MapOk(maps[q], head, foot, q) && Disjoint(maps[q], Region(segs[0].base, segs[0].size));
      }
    }
  }

  /** The first segment closed and a new one opened in front of it. */
  lemma AddedViews(g: Ghost, head: Heads, foot: Field, segs: seq<Seg>, top: int, topsize: nat, F: map<int, nat>,
                   base: int, size: nat, head': Heads, foot': Field, d: Bytes, d': Bytes,
                   B: map<int, nat>, ring: map<int, nat>)
    requires ViewsOk(g.C, head, foot, segs, top, topsize, F, g.live, g.maps) && segs != []
             && NewRegion(segs, g.maps, base, size)
    requires Whole(g, head, F, B, ring, d) && AddedTouched(d, d', top, topsize, base, size)
             && AddedWords(d', top, topsize, base, size)
    requires ClosedHeads(ResizedHeads(head, base, size - TOP_FOOT), foot, head', foot', top, topsize)
             && AddedBytes(d, d', top, topsize, base, size)
    ensures topsize > 0
    ensures var g' := Ghost(AddedChunks(g.C, top, topsize, base, size), g.live, g.maps);
            && ViewsOk(g'.C, head', foot', AddedSegs(segs, top, topsize, base, size), base, size - TOP_FOOT,
                       AddedPool(F, top, topsize), g'.live, g'.maps)
            && Undisturbed(g, g', g.live, d, d') && top !in F
            && Whole(g', head', AddedPool(F, top, topsize), B, ring, d')
  {
    hide ViewsOk, Undisturbed, Whole, ClosedHeads, ResizedHeads, AddedBytes, NewRegion, AddedChunks, MayClose,
         AddedTouched, AddedWords, AddedPool, AddedSegs;
    AddedAll(g, head, foot, segs, top, topsize, F, base, size, head', foot', d, d');
    AddedPlaces(g, head, foot, segs, top, topsize, F, base, size);
    AddedWhole(g, head, foot, segs, top, topsize, F, base, size, head', foot', d, d', B, ring);
  }

  /** The old layout around `top`. */
  ghost predicate AroundTop(C: Chunks, top: int, topsize: nat) {
    && (forall q | q in C && q != top && q != top + topsize :: q + C[q].size <= top || top + topsize + TOP_FOOT <= q)
    && (forall q | q in C :: C[q].size > 0)
  }

  lemma AddedPlaces(g: Ghost, head: Heads, foot: Field, segs: seq<Seg>, top: int, topsize: nat, F: map<int, nat>,
                    base: int, size: nat)
    requires ViewsOk(g.C, head, foot, segs, top, topsize, F, g.live, g.maps) && segs != []
             && NewRegion(segs, g.maps, base, size)
    ensures MayClose(g.C, top, topsize) && size > TOP_FOOT && (base + size <= top || top + topsize + TOP_FOOT <= base)
            && top > 0 && base > 0
    ensures AroundTop(g.C, top, topsize)
  {
    TopEnds(g.C, head, foot, segs, top, topsize);
    hide SegsOk, MapsOk, PoolOk, UsedOk, MayClose, AddedChunks, Unclaimed;
    NewRegionElsewhere(g.C, head, foot, segs, top, topsize, g.maps, base, size);
    hide Elsewhere;
    SizesPositive(g.C, head, foot);
    forall q | q in g.C
      ensures q != top && q != top + topsize ==> q + g.C[q].size <= top || top + topsize + TOP_FOOT <= q
    {
      AddedOther(g.C, head, foot, segs, top, topsize, g.maps, base, size, q);
    }
  }

  lemma AddedAll(g: Ghost, head: Heads, foot: Field, segs: seq<Seg>, top: int, topsize: nat, F: map<int, nat>,
                 base: int, size: nat, head': Heads, foot': Field,
                 d: Bytes, d': Bytes)
    requires ViewsOk(g.C, head, foot, segs, top, topsize, F, g.live, g.maps) && segs != []
             && NewRegion(segs, g.maps, base, size)
    requires ClosedHeads(ResizedHeads(head, base, size - TOP_FOOT), foot, head', foot', top, topsize)
             && AddedBytes(d, d', top, topsize, base, size)
    ensures topsize > 0
    ensures var g' := Ghost(AddedChunks(g.C, top, topsize, base, size), g.live, g.maps);
            && ViewsOk(g'.C, head', foot', AddedSegs(segs, top, topsize, base, size), base, size - TOP_FOOT,
                       AddedPool(F, top, topsize), g'.live, g'.maps)
            && Undisturbed(g, g', g.live, d, d') && top !in F
  {
    hide Tags, SegsOk, MapsOk, PoolOk, UsedOk, IsRecord, Kept, IsAligned, ClosedHeads, ResizedHeads, AddedBytes,
         NewRegion, AddedChunks, MayClose, Elsewhere;
    AddedTags(g.C, head, foot, segs, top, topsize, g.maps, base, size, head', foot');
    TopEnds(g.C, head, foot, segs, top, topsize);
    AddedSegsOk(g.C, head, foot, segs, top, topsize, g.maps, base, size);
    NewRegionElsewhere(g.C, head, foot, segs, top, topsize, g.maps, base, size);
    forall q | q in g.C
      ensures q != top && q != top + topsize ==> q + g.C[q].size <= top || top + topsize + TOP_FOOT <= q
    {
      AddedOther(g.C, head, foot, segs, top, topsize, g.maps, base, size, q);
    }
    AddedPoolOk(g.C, segs, top, topsize, F, base, size);
    AddedUsedOk(g.C, segs, top, topsize, g.live, base, size);
    AddedMaps(g.C, head, foot, segs, top, topsize, g.maps, base, size, head', foot');
    AddedKept(g.C, head, foot, segs, top, topsize, g.live, g.maps, base, size, d, d');
    AddedLive(g.C, head, foot, segs, top, topsize, g.live, g.maps, base, size);
  }

  /** Where the writes of `add_segment` go: four or five tags, the record and the fenceposts. */
  ghost predicate AddedTouched(d: Bytes, d': Bytes, top: int, topsize: nat, base: int, size: nat) {
    forall a {:trigger d'.At(a)} :: AddedPlace(top, topsize, base, size, a) || d'.At(a) == d.At(a)
  }

  ghost predicate AddedPlace(top: int, topsize: nat, base: int, size: nat, a: int) {
    || base <= a < base + 16 || base + size - TOP_FOOT <= a < base + size - TOP_FOOT + 16 || top <= a < top + 16
    || RecordPlace(top, topsize) <= a < top + topsize + TOP_FOOT
  }

  /** The words they leave whole. */
  ghost predicate AddedWords(d: Bytes, top: int, topsize: nat, base: int, size: nat) {
    var rec := RecordPlace(top, topsize);
    && HasWord(d, base, HeadW) && HasWord(d, base + size - TOP_FOOT, HeadW) && HasWord(d, rec, HeadW)
    && HasWord(d, rec + RECORD, HeadW)
    && (rec != top ==> HasWord(d, top, HeadW) && HasWord(d, rec, FootW))
  }

  /** The chunks whose tags they write. */
  ghost function AddedTags4(top: int, topsize: nat, base: int, size: nat): set<int> {
    {base, base + size - TOP_FOOT, top, RecordPlace(top, topsize), RecordPlace(top, topsize) + RECORD}
  }

  lemma AddedSame(C: Chunks, head: Heads, foot: Field, head': Heads, foot': Field, top: int, topsize: nat, base: int,
                  size: nat, d': Bytes)
    requires MayClose(C, top, topsize) && size > TOP_FOOT && (base + size <= top || top + topsize + TOP_FOOT <= base)
    requires ClosedHeads(ResizedHeads(head, base, size - TOP_FOOT), foot, head', foot', top, topsize)
             && AroundTop(C, top, topsize)
    ensures SameBut(C, head, AddedChunks(C, top, topsize, base, size), head', AddedTags4(top, topsize, base, size))
  {
    hide IsAligned;
    var C', T, h := AddedChunks(C, top, topsize, base, size), AddedTags4(top, topsize, base, size),
    ResizedHeads(head, base, size - TOP_FOOT);
    forall p | p in C' && p !in T ensures p in C && C'[p].kind == C[p].kind && head'.At(p).pinuse == head.At(p).pinuse {
      assert p in C && C'[p] == C[p] && p != top && p != top + topsize;
      assert head'.At(p) == h.At(p) == head.At(p);
    }
  }

  lemma AddedWritten4(C: Chunks, head: Heads, foot: Field, head': Heads, foot': Field, top: int, topsize: nat,
                      base: int, size: nat, d': Bytes)
    requires MayClose(C, top, topsize) && size > TOP_FOOT && (base + size <= top || top + topsize + TOP_FOOT <= base)
    requires ClosedHeads(ResizedHeads(head, base, size - TOP_FOOT), foot, head', foot', top, topsize)
             && AddedWords(d', top, topsize, base, size)
    ensures var C', T := AddedChunks(C, top, topsize, base, size), AddedTags4(top, topsize, base, size);
            T <= C'.Keys && forall p | p in T :: TagWhole(C', head', d', p)
  {
    hide HasWord, IsAligned, ResizedHeads;
  }

  lemma AddedReach(C': Chunks, maps: map<int, Region>, top: int, topsize: nat, base: int, size: nat, d: Bytes,
                   d': Bytes)
    requires AddedTouched(d, d', top, topsize, base, size) && topsize > 0 && base > 0 && top > 0 && size > TOP_FOOT
    requires var rec := RecordPlace(top, topsize);
             rec in C' && C'[rec].size == RECORD && rec + RECORD in C'
             && C'[rec + RECORD].size == top + topsize + TOP_FOOT - rec - RECORD
    ensures var rec := RecordPlace(top, topsize);
            Touched(C', maps, AddedTags4(top, topsize, base, size), {rec, rec + RECORD}, {}, d, d') && SameBelow(d, d')
  {
    var rec, T := RecordPlace(top, topsize), AddedTags4(top, topsize, base, size);
    forall a | a >= 0 && d'.At(a) != d.At(a) ensures Reached(C', maps, T, {rec, rec + RECORD}, {}, a) {
      assert base in T && base + size - TOP_FOOT in T && top in T && rec in T && rec + RECORD in T;
      assert rec in {rec, rec + RECORD} && rec + RECORD in {rec, rec + RECORD};
    }
  }

  lemma AddedWhole(g: Ghost, head: Heads, foot: Field, segs: seq<Seg>, top: int, topsize: nat, F: map<int, nat>,
                   base: int, size: nat,
                   head': Heads, foot': Field, d: Bytes, d': Bytes, B: map<int, nat>, ring: map<int, nat>)
    requires MayClose(g.C, top, topsize) && size > TOP_FOOT && (base + size <= top || top + topsize + TOP_FOOT <= base)
             && top > 0 && base > 0 && segs != []
    requires ClosedHeads(ResizedHeads(head, base, size - TOP_FOOT), foot, head', foot', top, topsize)
    requires AroundTop(g.C, top, topsize)
    requires Whole(g, head, F, B, ring, d) && AddedTouched(d, d', top, topsize, base, size)
             && AddedWords(d', top, topsize, base, size)
    requires top !in F
    requires var C' := AddedChunks(g.C, top, topsize, base, size);
             ViewsOk(C', head', foot', AddedSegs(segs, top, topsize, base, size), base, size - TOP_FOOT,
                     AddedPool(F, top, topsize), g.live, g.maps)
    ensures Whole(Ghost(AddedChunks(g.C, top, topsize, base, size), g.live, g.maps), head', AddedPool(F, top, topsize),
                  B, ring, d')
  {
    hide ViewsOk, LinksWhole, AddedChunks, ClosedHeads, AddedTouched, AddedWords, AddedTags4, AddedPool, AddedSegs,
         SameBut, Touched, TagWhole,
      ResizedHeads, AroundTop, WordsOk, Within, IsAligned, SameBelow;
    var C', rec := AddedChunks(g.C, top, topsize, base, size), RecordPlace(top, topsize);
    AddedFacts(g, head, foot, segs, top, topsize, F, base, size, head', foot', d, d', B, ring);
    WordsStay(g.C, head, g.maps, F, C', head', foot', AddedSegs(segs, top, topsize, base, size), base, size - TOP_FOOT,
              AddedPool(F, top, topsize),
              g.live, g.maps, B, ring, AddedTags4(top, topsize, base, size), {rec, rec + RECORD}, {}, d, d');
  }

  lemma AddedFacts(g: Ghost, head: Heads, foot: Field, segs: seq<Seg>, top: int, topsize: nat, F: map<int, nat>,
                   base: int, size: nat,
                   head': Heads, foot': Field, d: Bytes, d': Bytes, B: map<int, nat>, ring: map<int, nat>)
    requires MayClose(g.C, top, topsize) && size > TOP_FOOT && (base + size <= top || top + topsize + TOP_FOOT <= base)
             && top > 0 && base > 0 && segs != []
    requires ClosedHeads(ResizedHeads(head, base, size - TOP_FOOT), foot, head', foot', top, topsize)
             && AroundTop(g.C, top, topsize)
    requires Whole(g, head, F, B, ring, d) && AddedTouched(d, d', top, topsize, base, size)
             && AddedWords(d', top, topsize, base, size) && top !in F
    requires var C' := AddedChunks(g.C, top, topsize, base, size);
             ViewsOk(C', head', foot', AddedSegs(segs, top, topsize, base, size), base, size - TOP_FOOT,
                     AddedPool(F, top, topsize), g.live, g.maps)
    ensures var C', T, rec := AddedChunks(g.C, top, topsize, base, size), AddedTags4(top, topsize, base, size),
            RecordPlace(top, topsize);
            && SameBut(g.C, head, C', head', T) && T <= C'.Keys && (forall p | p in T :: TagWhole(C', head', d', p))
            && Touched(C', g.maps, T, {rec, rec + RECORD}, {}, d, d') && SameBelow(d, d')
            && Within(B, AddedPool(F, top, topsize)) && {rec, rec + RECORD} !! B.Keys
  {
    hide ViewsOk, AddedChunks, ClosedHeads, AddedTouched, AddedWords, AddedTags4, AddedPool, AddedSegs, SameBut,
         Touched, TagWhole, Whole,
      ResizedHeads, AroundTop, Within, IsAligned, SameBelow;
    var C', rec := AddedChunks(g.C, top, topsize, base, size), RecordPlace(top, topsize);
    AddedSame(g.C, head, foot, head', foot', top, topsize, base, size, d');
    AddedWritten4(g.C, head, foot, head', foot', top, topsize, base, size, d');
    AddedRecord(g.C, top, topsize, base, size);
    AddedReach(C', g.maps, top, topsize, base, size, d, d');
    WholeWithin(g, head, F, B, ring, d);
    AddedPoolWithin(C', head', foot', AddedSegs(segs, top, topsize, base, size), base, size - TOP_FOOT, g.live, g.maps,
                    F, AddedPool(F, top, topsize), B, top, topsize, rec);
  }

  lemma AddedRecord(C: Chunks, top: int, topsize: nat, base: int, size: nat)
    requires MayClose(C, top, topsize) && size > TOP_FOOT && (base + size <= top || top + topsize + TOP_FOOT <= base)
    ensures var C', rec := AddedChunks(C, top, topsize, base, size), RecordPlace(top, topsize);
            && rec in C' && C'[rec] == Chunk(RECORD, Used) && rec + RECORD in C'
            && C'[rec + RECORD] == Chunk(top + topsize + TOP_FOOT - rec - RECORD, Fence)
  {
    hide IsAligned;
  }

  lemma AddedPoolWithin(C': Chunks, head': Heads, foot': Field, segs': seq<Seg>, top': int, topsize': nat,
                        live: set<int>, maps: map<int, Region>,
                        F: map<int, nat>, F': map<int, nat>, B: map<int, nat>, top: int, topsize: nat, rec: int)
    requires ViewsOk(C', head', foot', segs', top', topsize', F', live, maps) && Within(B, F) && top !in F
             && F' == AddedPool(F, top, topsize)
    requires rec in C' && C'[rec].kind == Used && rec + RECORD in C' && C'[rec + RECORD].kind == Fence
    ensures Within(B, F') && {rec, rec + RECORD} !! B.Keys
  {
    hide Tags, SegsOk, UsedOk, MapsOk;
  }

  lemma AddedLive(C: Chunks, head: Heads, foot: Field, segs: seq<Seg>, top: int, topsize: nat, live: set<int>,
                  maps: map<int, Region>, base: int, size: nat)
    requires Tags(C, head, foot) && SegsOk(C, segs, top, topsize) && UsedOk(C, segs, live) && segs != []
             && NewRegion(segs, maps, base, size) && MayClose(C, top, topsize)
    ensures forall q | q in live ::
            q in C && q in AddedChunks(C, top, topsize, base, size) && AddedChunks(C, top, topsize, base, size)[q]
            == C[q]
  {
    assert C[top].kind == Top && C[top + topsize].kind == Foot;
    hide Tags, SegsOk, IsRecord, IsAligned, NewRegion, AddedChunks, MayClose;
    forall q | q in live
      ensures q in C && q in AddedChunks(C, top, topsize, base, size) && AddedChunks(C, top, topsize, base, size)[q]
              == C[q]
    {
      AddedOther(C, head, foot, segs, top, topsize, maps, base, size, q);
    }
  }

  // ----- the very first segment

  lemma NoSegmentNoChunk(C: Chunks, top: int, topsize: nat, F: map<int, nat>, live: set<int>)
    requires SegsOk(C, [], top, topsize) && PoolOk(C, F) && UsedOk(C, [], live)
    ensures C == map[] && F == map[] && live == {}
  {
    forall p ensures p !in C && p !in F && p !in live {
      assert Placed(C, [], p);
    }
    assert F == map[] && live == {};
  }

  lemma FirstViews(g: Ghost, head: Heads, foot: Field, top: int, topsize: nat, F: map<int, nat>, base: int, size: nat,
                   d: Bytes, d': Bytes,
                   B: map<int, nat>, ring: map<int, nat>)
    requires ViewsOk(g.C, head, foot, [], top, topsize, F, g.live, g.maps) && NewRegion([], g.maps, base, size)
    requires TagBytes(d, d', base, base + size - TOP_FOOT, base + size - TOP_FOOT)
    requires Whole(g, head, F, B, ring, d) && HasWord(d', base, HeadW) && HasWord(d', base + size - TOP_FOOT, HeadW)
    ensures var g' := Ghost(Opened(g.C, base, size - TOP_FOOT), g.live, g.maps);
            && ViewsOk(g'.C, ResizedHeads(head, base, size - TOP_FOOT), foot, [Seg(base, size, 0)], base,
                       size - TOP_FOOT, F, g'.live, g'.maps)
            && Undisturbed(g, g', g.live, d, d') && Whole(g', ResizedHeads(head, base, size - TOP_FOOT), F, B, ring, d')
  {
    hide ViewsOk, Undisturbed, Whole, TagBytes, HasWord, ResizedHeads, Opened, Unclaimed, SameOutside, TagWhole,
         SameBut, Within;
    TagsInside(d, d', base, size);
    FirstAll(g, head, foot, top, topsize, F, base, size, d, d');
    FirstWhole(g.C, head, base, size - TOP_FOOT, d');
    WholeWithin(g, head, F, B, ring, d);
    TagsStay(g, head, F, Ghost(Opened(g.C, base, size - TOP_FOOT), g.live, g.maps),
             ResizedHeads(head, base, size - TOP_FOOT), foot, [Seg(base, size, 0)],
             base, size - TOP_FOOT, F, B, ring, base, base + size - TOP_FOOT, base + size - TOP_FOOT, d, d');
  }

  lemma TagsInside(d: Bytes, d': Bytes, base: int, size: nat)
    requires TagBytes(d, d', base, base + size - TOP_FOOT, base + size - TOP_FOOT) && size > TOP_FOOT
    ensures SameOutside(d, d', base, base + size)
  {
    hide HasWord;
  }

  lemma FirstAll(g: Ghost, head: Heads, foot: Field, top: int, topsize: nat, F: map<int, nat>, base: int, size: nat,
                 d: Bytes, d': Bytes)
    requires ViewsOk(g.C, head, foot, [], top, topsize, F, g.live, g.maps) && NewRegion([], g.maps, base, size)
    requires SameOutside(d, d', base, base + size)
    ensures var g' := Ghost(Opened(g.C, base, size - TOP_FOOT), g.live, g.maps);
            && ViewsOk(g'.C, ResizedHeads(head, base, size - TOP_FOOT), foot, [Seg(base, size, 0)], base,
                       size - TOP_FOOT, F, g'.live, g'.maps)
            && Undisturbed(g, g', g.live, d, d') && g.C == map[]
  {
    hide SegsOk, Tags, MapsOk, PoolOk, UsedOk, IsAligned, Kept, SameOutside, ResizedHeads, Opened;
    NoSegmentNoChunk(g.C, top, topsize, F, g.live);
    PageAligned(base);
    PageAligned(size);
    OpenedTags(g.C, head, foot, base, size - TOP_FOOT);
    FirstSegs(g.C, base, size);
    FirstMaps(g.maps, head, foot, base, size);
    FirstKept(g.C, g.maps, head, foot, base, size, d, d');
  }

  lemma FirstWhole(C: Chunks, head: Heads, base: int, ts: nat, d': Bytes)
    requires C == map[] && HasWord(d', base, HeadW) && HasWord(d', base + ts, HeadW)
    ensures var C', head' := Opened(C, base, ts), ResizedHeads(head, base, ts);
            && base in C' && base + ts in C' && TagWhole(C', head', d', base) && TagWhole(C', head', d', base + ts)
            && SameBut(C, head, C', head', {base, base + ts, base + ts})
  {
    hide HasWord;
  }

  lemma FirstKept(C: Chunks, maps: map<int, Region>, head: Heads, foot: Field, base: int, size: nat, d: Bytes,
                  d': Bytes)
    requires MapsOk(maps, head, foot, []) && NewRegion([], maps, base, size) && SameOutside(d, d', base, base + size)
    ensures Kept(C, maps, {}, d, d')
  {
    forall a | InPayload(C, maps, {}, a) ensures d'.At(a) == d.At(a) {
      var q :| q in maps && q + 16 <= a < maps[q].End() - 32;
      assert MapOk(maps[q], head, foot, q);
    }
  }

  lemma FirstSegs(C: Chunks, base: int, size: nat)
    requires C == map[] && base > 0 && IsAligned(base) && IsAligned(size - TOP_FOOT) && size % PAGE == 0
             && size > TOP_FOOT && base + size <= WORD_RANGE
    ensures SegsOk(Opened(C, base, size - TOP_FOOT), [Seg(base, size, 0)], base, size - TOP_FOOT)
    ensures PoolOk(Opened(C, base, size - TOP_FOOT), map[])
            && UsedOk(Opened(C, base, size - TOP_FOOT), [Seg(base, size, 0)], {})
  {
    hide IsAligned;
    FirstPlaced(C, [Seg(base, size, 0)], base, size);
  }

  lemma FirstPlaced(C: Chunks, segs: seq<Seg>, base: int, size: nat)
    requires C == map[] && size > TOP_FOOT && |segs| == 1 && segs[0] == Seg(base, size, 0)
    ensures forall p {:trigger Placed(Opened(C, base, size - TOP_FOOT), segs, p)} ::
            Placed(Opened(C, base, size - TOP_FOOT), segs, p)
  {
    assert segs[0].base == base && segs[0].End() == base + size;
  }

  lemma FirstMaps(maps: map<int, Region>, head: Heads, foot: Field, base: int, size: nat)
    requires MapsOk(maps, head, foot, []) && NewRegion([], maps, base, size)
    ensures MapsOk(maps, ResizedHeads(head, base, size - TOP_FOOT), foot, [Seg(base, size, 0)])
  {
    hide MapOk;
    forall p | p in maps
      ensures SameIn(head, foot, ResizedHeads(head, base, size - TOP_FOOT), foot, maps[p].base, maps[p].End())
    {
    }
    MapsStay(maps, head, foot, [], ResizedHeads(head, base, size - TOP_FOOT), foot, [Seg(base, size, 0)]);
  }

  // ----- a segment extended downwards

  lemma TwoApart(segs: seq<Seg>, i: nat, j: nat)
    requires SegsApart(segs) && i < |segs| && j < |segs|
    ensures i == j || segs[i].End() <= segs[j].base || segs[j].End() <= segs[i].base
  {
  }

  /** Only a fencepost or a foot ends where a segment begins. */
  lemma NothingBefore(C: Chunks, head: Heads, foot: Field, segs: seq<Seg>, top: int, topsize: nat, i: nat, p: int)
    requires Tags(C, head, foot) && SegsOk(C, segs, top, topsize) && i < |segs| && p in C
             && p + C[p].size == segs[i].base
    ensures Stops(C[p].kind)
  {
    hide TopOk, EndOk, KindsOk, FenceOk, HeadOk, AfterFree, MayFollow, IsAligned;
    assert TagOk(C, head, foot, p) && Placed(C, segs, p);
    var j :| 0 <= j < |segs| && segs[j].base <= p && p + C[p].size <= segs[j].End();
    assert SegOk(C, segs[i]);
    TwoApart(segs, i, j);
    StopFacts(C, segs, top, topsize, j);
    var f := StopOf(segs, top, topsize, j);
    assert TagOk(C, head, foot, f) && InOrder(C, p, f) && InOrder(C, f, p);
  }

  /** The first chunk of a segment: the chunk before it counts as in use, and it is no foot. */
  lemma BaseInUse(C: Chunks, head: Heads, foot: Field, segs: seq<Seg>, top: int, topsize: nat, i: nat)
    requires Tags(C, head, foot) && SegsOk(C, segs, top, topsize) && i < |segs|
    ensures var b := segs[i].base;
            b in C && (C[b].kind != Fence && C[b].kind != Foot ==> head.At(b).pinuse) && C[b].kind != Foot
  {
    hide EndOk, FenceOk, SegsApart, Placed, IsAligned;
    var b := segs[i].base;
    assert SegOk(C, segs[i]) && TagOk(C, head, foot, b);
    if C[b].kind == Used && !head.At(b).pinuse {
      NothingBefore(C, head, foot, segs, top, topsize, i, b - foot.At(b));
    }
    if i > 0 {
      BaseIsNoStop(C, head, foot, segs, top, topsize, i);
    } else {
      assert TagOk(C, head, foot, top);
    }
  }

  /** ... nor is it a fencepost. */
  lemma BaseNoFence(C: Chunks, head: Heads, foot: Field, segs: seq<Seg>, top: int, topsize: nat, i: nat)
    requires Tags(C, head, foot) && SegsOk(C, segs, top, topsize) && i < |segs|
    ensures segs[i].base in C && C[segs[i].base].kind != Fence
  {
    hide FenceOk, KindsOk, IsAligned, HeadOk, AfterFree, MayFollow;
    var b := segs[i].base;
    assert SegOk(C, segs[i]);
    if C[b].kind == Fence {
      assert FenceOk(C, segs, b);
      FenceRecord(C, segs, b);
      var k :| 1 <= k < |segs| && segs[k].rec == b - RECORD;
      assert EndOk(C, segs[k]);
      NothingBefore(C, head, foot, segs, top, topsize, i, b - RECORD);
    }
  }

  lemma FenceRecord(C: Chunks, segs: seq<Seg>, f: int)
    requires FenceOk(C, segs, f) && f in C && C[f].kind == Fence
    ensures exists k :: 1 <= k < |segs| && segs[k].rec == f - RECORD
  {
  }

  /** Two used chunks that fill the new memory in front of a segment. */
  ghost function Prepended(C: Chunks, lo: int, nb: nat, size: nat): Chunks
    requires nb < size
  {
    C[lo := Chunk(nb, Used)][lo + nb := Chunk(size - nb, Used)]
  }

  ghost function PrependedHeads(head: Heads, lo: int, nb: nat, size: nat): Heads
    requires nb < size
  {
    head.Set(lo, Head(nb, true, true)).Set(lo + nb, Head(size - nb, true, true))
  }

  function PrependedSegs(segs: seq<Seg>, i: nat, lo: int, size: nat): (r: seq<Seg>)
    requires i < |segs|
    ensures |r| == |segs|
  {
    segs[i := Seg(lo, segs[i].size + size, segs[i].rec)]
  }

  ghost predicate MayPrepend(segs: seq<Seg>, maps: map<int, Region>, i: nat, lo: int, nb: nat, size: nat) {
    && NewRegion(segs, maps, lo, size) && i < |segs| && lo + size == segs[i].base
    && MIN_CHUNK <= nb && nb + MIN_CHUNK <= size && IsAligned(nb)
  }

  lemma PrependedTag(C: Chunks, head: Heads, foot: Field, lo: int, nb: nat, size: nat, p: int)
    requires Tags(C, head, foot) && Elsewhere(C, lo, lo + size) && nb < size && p in C && nb > 0
    ensures TagOk(Prepended(C, lo, nb, size), PrependedHeads(head, lo, nb, size), foot, p)
  {
    hide IsAligned, HeadOk, SizeOk;
    assert TagOk(C, head, foot, p);
    TagStays(C, head, foot, Prepended(C, lo, nb, size), PrependedHeads(head, lo, nb, size), foot, p);
  }

  lemma PrependedNew(C: Chunks, head: Heads, foot: Field, segs: seq<Seg>, top: int, topsize: nat,
                     maps: map<int, Region>, i: nat, lo: int, nb: nat, size: nat)
    requires Tags(C, head, foot) && SegsOk(C, segs, top, topsize) && MayPrepend(segs, maps, i, lo, nb, size)
    ensures var C', head' := Prepended(C, lo, nb, size), PrependedHeads(head, lo, nb, size);
            TagOk(C', head', foot, lo) && TagOk(C', head', foot, lo + nb)
  {
    hide Tags, SegsOk, Unclaimed, IsAligned, TagOk, PrependedHeads;
    PageAligned(lo);
    PageAligned(size);
    BaseInUse(C, head, foot, segs, top, topsize, i);
    BaseNoFence(C, head, foot, segs, top, topsize, i);
    PrependedNewTags(C, head, foot, lo, nb, size);
  }

  lemma PrependedNewTags(C: Chunks, head: Heads, foot: Field, lo: int, nb: nat, size: nat)
    requires lo > 0 && IsAligned(lo) && IsAligned(nb) && size % PAGE == 0 && MIN_CHUNK <= nb && nb + MIN_CHUNK <= size
    requires lo + size in C && C[lo + size].kind != Foot && head.At(lo + size).pinuse
    ensures var C', head' := Prepended(C, lo, nb, size), PrependedHeads(head, lo, nb, size);
            TagOk(C', head', foot, lo) && TagOk(C', head', foot, lo + nb)
  {
    PageAligned(size);
    AlignedSum(size, nb);
    AlignedSum(lo, nb);
  }

  lemma PrependedTags(C: Chunks, head: Heads, foot: Field, segs: seq<Seg>, top: int, topsize: nat,
                      maps: map<int, Region>, i: nat, lo: int, nb: nat, size: nat)
    requires Tags(C, head, foot) && SegsOk(C, segs, top, topsize) && MayPrepend(segs, maps, i, lo, nb, size)
    ensures Tags(Prepended(C, lo, nb, size), PrependedHeads(head, lo, nb, size), foot)
  {
    hide TagOk, PrependedHeads, SegsOk, NewRegion, IsAligned;
    var C', head' := Prepended(C, lo, nb, size), PrependedHeads(head, lo, nb, size);
    PrependedNew(C, head, foot, segs, top, topsize, maps, i, lo, nb, size);
    NewRegionElsewhere(C, head, foot, segs, top, topsize, maps, lo, size);
    forall p ensures TagOk(C', head', foot, p) {
      if p in C {
        PrependedTag(C, head, foot, lo, nb, size, p);
      } else {
        AbsentTag(C', head', foot, p);
      }
    }
    forall p, q ensures InOrder(C', p, q) {
      assert InOrder(C, p, q);
    }
  }

  lemma PrependedPlaced(C: Chunks, segs: seq<Seg>, top: int, topsize: nat, maps: map<int, Region>, i: nat, lo: int,
                        nb: nat, size: nat, p: int)
    requires SegsOk(C, segs, top, topsize) && MayPrepend(segs, maps, i, lo, nb, size)
    ensures var C', segs' := Prepended(C, lo, nb, size), PrependedSegs(segs, i, lo, size);
            Placed(C', segs', p) && FenceOk(C', segs', p)
  {
    hide TopOk, EndOk, SegOk, SegsApart, KindsOk, IsAligned, Unclaimed, IsRecord;
    var C', segs' := Prepended(C, lo, nb, size), PrependedSegs(segs, i, lo, size);
    SameRecords(segs, segs');
    assert Placed(C, segs, p) && FenceOk(C, segs, p);
    if p in C {
      var j :| 0 <= j < |segs| && segs[j].base <= p && p + C[p].size <= segs[j].End();
      assert segs'[j].base <= segs[j].base && segs'[j].End() == segs[j].End();
    }
    assert segs'[i].base == lo && segs'[i].End() == segs[i].End();
  }

  lemma PrependedSeg(C: Chunks, segs: seq<Seg>, top: int, topsize: nat, maps: map<int, Region>, i: nat, lo: int,
                     nb: nat, size: nat, j: nat)
    requires SegsOk(C, segs, top, topsize) && MayPrepend(segs, maps, i, lo, nb, size) && Elsewhere(C, lo, lo + size)
             && j < |segs| && IsAligned(lo)
    ensures var C', s := Prepended(C, lo, nb, size), PrependedSegs(segs, i, lo, size)[j];
            SegOk(C', s) && (if j == 0 then TopOk(C', s, top, topsize) else EndOk(C', s))
  {
    hide Placed, FenceOk, SegsApart, KindsOk, IsAligned, Unclaimed;
    assert SegOk(C, segs[j]) && (j >= 1 ==> EndOk(C, segs[j]));
    PrependedKeep(C, lo, nb, size);
  }

  lemma PrependedKeep(C: Chunks, lo: int, nb: nat, size: nat)
    requires Elsewhere(C, lo, lo + size) && 0 < nb < size
    ensures forall q | q in C :: q in Prepended(C, lo, nb, size) && Prepended(C, lo, nb, size)[q] == C[q]
    ensures lo !in C && lo + nb !in C
  {
  }

  lemma PrependedApart(C: Chunks, segs: seq<Seg>, top: int, topsize: nat, maps: map<int, Region>, i: nat, lo: int,
                       nb: nat, size: nat)
    requires SegsOk(C, segs, top, topsize) && MayPrepend(segs, maps, i, lo, nb, size) && Elsewhere(C, lo, lo + size)
    ensures SegsApart(PrependedSegs(segs, i, lo, size)) && KindsOk(Prepended(C, lo, nb, size), top, topsize)
  {
    hide Placed, FenceOk, EndOk, TopOk, IsAligned;
    PrependedKeep(C, lo, nb, size);
    var segs' := PrependedSegs(segs, i, lo, size);
    forall j, k | 0 <= j < k < |segs'| ensures segs'[j].End() <= segs'[k].base || segs'[k].End() <= segs'[j].base {
      TwoApart(segs, j, k);
      assert SegOk(C, segs[j]) && SegOk(C, segs[k]);
    }
  }

  lemma PrependedSegsOk(C: Chunks, head: Heads, foot: Field, segs: seq<Seg>, top: int, topsize: nat,
                        maps: map<int, Region>, i: nat, lo: int, nb: nat, size: nat)
    requires SegsOk(C, segs, top, topsize) && MayPrepend(segs, maps, i, lo, nb, size) && Elsewhere(C, lo, lo + size)
    ensures SegsOk(Prepended(C, lo, nb, size), PrependedSegs(segs, i, lo, size), top, topsize)
  {
    PageAligned(lo);
    PrependedApart(C, segs, top, topsize, maps, i, lo, nb, size);
    hide IsAligned, SegOk, TopOk, EndOk, Placed, FenceOk, SegsApart, KindsOk, NewRegion, Elsewhere;
    var C', segs' := Prepended(C, lo, nb, size), PrependedSegs(segs, i, lo, size);
    forall p ensures Placed(C', segs', p) && FenceOk(C', segs', p) {
      PrependedPlaced(C, segs, top, topsize, maps, i, lo, nb, size, p);
    }
    forall j | 0 <= j < |segs'|
      ensures SegOk(C', segs'[j]) && (if j == 0 then TopOk(C', segs'[0], top, topsize) else EndOk(C', segs'[j]))
    {
      PrependedSeg(C, segs, top, topsize, maps, i, lo, nb, size, j);
    }
  }

  lemma PrependedUsed(C: Chunks, segs: seq<Seg>, top: int, topsize: nat, F: map<int, nat>, live: set<int>,
                      maps: map<int, Region>, i: nat, lo: int, nb: nat, size: nat)
    requires SegsOk(C, segs, top, topsize) && PoolOk(C, F) && UsedOk(C, segs, live)
             && MayPrepend(segs, maps, i, lo, nb, size) && Elsewhere(C, lo, lo + size)
    ensures PoolOk(Prepended(C, lo, nb, size), F)
            && UsedOk(Prepended(C, lo, nb, size), PrependedSegs(segs, i, lo, size), live + {lo, lo + nb})
  {
    hide IsAligned, SegOk, TopOk, Placed, FenceOk, SegsApart, KindsOk, NewRegion, IsRecord;
    PrependedKeep(C, lo, nb, size);
    SameRecords(segs, PrependedSegs(segs, i, lo, size));
    RecordsInside(C, segs, top, topsize, lo);
    RecordsInside(C, segs, top, topsize, lo + nb);
  }

  lemma RecordsInside(C: Chunks, segs: seq<Seg>, top: int, topsize: nat, p: int)
    requires SegsOk(C, segs, top, topsize)
    ensures IsRecord(segs, p) ==> p in C && C[p] == Chunk(RECORD, Used)
  {
    hide IsAligned, SegOk, TopOk, Placed, FenceOk, SegsApart, KindsOk;
    if i :| 1 <= i < |segs| && segs[i].rec == p {
      assert EndOk(C, segs[i]);
    }
  }

  lemma PrependedMaps(head: Heads, foot: Field, segs: seq<Seg>, maps: map<int, Region>, i: nat, lo: int, nb: nat,
                      size: nat)
    requires MapsOk(maps, head, foot, segs) && MayPrepend(segs, maps, i, lo, nb, size)
    ensures MapsOk(maps, PrependedHeads(head, lo, nb, size), foot, PrependedSegs(segs, i, lo, size))
  {
    hide IsAligned;
    var segs' := PrependedSegs(segs, i, lo, size);
    forall p | p in maps
      ensures SameIn(head, foot, PrependedHeads(head, lo, nb, size), foot, maps[p].base, maps[p].End())
    {
      assert MapOk(maps[p], head, foot, p);
    }
    forall p, j | p in maps && 0 <= j < |segs'| ensures Disjoint(maps[p], Region(segs'[j].base, segs'[j].size)) {
      assert MapOk(maps[p], head, foot, p) && Disjoint(maps[p], Region(segs[j].base, segs[j].size));
    }
    MapsStay(maps, head, foot, segs, PrependedHeads(head, lo, nb, size), foot, segs');
  }

  /** No byte handed out lies in a new region. */
  lemma NewRegionBytes(C: Chunks, head: Heads, foot: Field, segs: seq<Seg>, top: int, topsize: nat, live: set<int>,
                       maps: map<int, Region>, lo: int, size: nat, d: Bytes, d': Bytes)
    requires Tags(C, head, foot) && SegsOk(C, segs, top, topsize) && UsedOk(C, segs, live)
             && MapsOk(maps, head, foot, segs)
    requires NewRegion(segs, maps, lo, size) && SameOutside(d, d', lo, lo + size)
    ensures Kept(C, maps, live, d, d')
  {
    hide Tags, SegsOk, UsedOk, IsAligned;
    forall a | InPayload(C, maps, live, a) ensures d'.At(a) == d.At(a) {
      if q :| q in live && q in C && q + 16 <= a < q + C[q].size + 8 {
        NewRegionPayload(C, head, foot, segs, top, topsize, live, maps, lo, size, q, a);
      } else {
        var q :| q in maps && q + 16 <= a < maps[q].End() - 32;
        assert MapOk(maps[q], head, foot, q);
      }
    }
  }

  lemma NewRegionPayload(C: Chunks, head: Heads, foot: Field, segs: seq<Seg>, top: int, topsize: nat, live: set<int>,
                         maps: map<int, Region>, lo: int, size: nat, q: int, a: int)
    requires Tags(C, head, foot) && SegsOk(C, segs, top, topsize) && UsedOk(C, segs, live)
             && NewRegion(segs, maps, lo, size)
    requires q in live && q in C && q + 16 <= a < q + C[q].size + 8
    ensures !(lo <= a < lo + size)
  {
    assert TagOk(C, head, foot, q);
    hide Tags, SegsOk, IsRecord, IsAligned, HeadOk, AfterFree;
    NoChunkThere(C, head, foot, segs, top, topsize, lo, lo + size, q);
    NoChunkThere(C, head, foot, segs, top, topsize, lo, lo + size, q + C[q].size);
  }

  /** New memory in front of segment `i`, as two used chunks. */
  lemma PrependedViews(g: Ghost, head: Heads, foot: Field, segs: seq<Seg>, top: int, topsize: nat, F: map<int, nat>,
                       i: nat, lo: int, nb: nat, size: nat, d: Bytes, d': Bytes,
                       B: map<int, nat>, ring: map<int, nat>)
    requires ViewsOk(g.C, head, foot, segs, top, topsize, F, g.live, g.maps)
             && MayPrepend(segs, g.maps, i, lo, nb, size)
    requires HeadBytes(d, d', lo, lo + nb) && Whole(g, head, F, B, ring, d) && HasWord(d', lo, HeadW)
             && HasWord(d', lo + nb, HeadW)
    ensures var g' := Ghost(Prepended(g.C, lo, nb, size), g.live + {lo, lo + nb}, g.maps);
            && ViewsOk(g'.C, PrependedHeads(head, lo, nb, size), foot, PrependedSegs(segs, i, lo, size), top, topsize,
                       F, g'.live, g'.maps)
            && Undisturbed(g, g', g.live, d, d') && lo !in g.live && lo + nb !in g.live
            && Whole(g', PrependedHeads(head, lo, nb, size), F, B, ring, d')
  {
    hide ViewsOk, Undisturbed, Whole, TagBytes, HeadBytes, HasWord, PrependedHeads, Prepended, PrependedSegs, Unclaimed,
         IsAligned, SameOutside, TagWhole,
      SameBut, Within;
    HeadsInside(d, d', lo, nb, size);
    HeadsAreTags(d, d', lo, lo + nb);
    PrependedAll(g, head, foot, segs, top, topsize, F, i, lo, nb, size, d, d');
    PrependedWhole(g.C, head, lo, nb, size, d');
    WholeWithin(g, head, F, B, ring, d);
    TagsStay(g, head, F, Ghost(Prepended(g.C, lo, nb, size), g.live + {lo, lo + nb}, g.maps),
             PrependedHeads(head, lo, nb, size), foot,
             PrependedSegs(segs, i, lo, size), top, topsize, F, B, ring, lo, lo + nb, lo + nb, d, d');
  }

  lemma PrependedAll(g: Ghost, head: Heads, foot: Field, segs: seq<Seg>, top: int, topsize: nat, F: map<int, nat>,
                     i: nat, lo: int, nb: nat, size: nat,
                     d: Bytes, d': Bytes)
    requires ViewsOk(g.C, head, foot, segs, top, topsize, F, g.live, g.maps)
             && MayPrepend(segs, g.maps, i, lo, nb, size) && SameOutside(d, d', lo, lo + size)
    ensures var g' := Ghost(Prepended(g.C, lo, nb, size), g.live + {lo, lo + nb}, g.maps);
            && ViewsOk(g'.C, PrependedHeads(head, lo, nb, size), foot, PrependedSegs(segs, i, lo, size), top, topsize,
                       F, g'.live, g'.maps)
            && Undisturbed(g, g', g.live, d, d') && lo !in g.live && lo + nb !in g.live
  {
    hide Tags, SegsOk, MapsOk, PoolOk, IsRecord, Kept, IsAligned, NewRegion, Elsewhere, PrependedHeads, PrependedSegs,
         SameOutside, Prepended;
    PrependedTags(g.C, head, foot, segs, top, topsize, g.maps, i, lo, nb, size);
    NewRegionElsewhere(g.C, head, foot, segs, top, topsize, g.maps, lo, size);
    PrependedSegsOk(g.C, head, foot, segs, top, topsize, g.maps, i, lo, nb, size);
    PrependedUsed(g.C, segs, top, topsize, F, g.live, g.maps, i, lo, nb, size);
    PrependedMaps(head, foot, segs, g.maps, i, lo, nb, size);
    NewRegionBytes(g.C, head, foot, segs, top, topsize, g.live, g.maps, lo, size, d, d');
    PrependedKeep(g.C, lo, nb, size);
  }

  lemma HeadsInside(d: Bytes, d': Bytes, lo: int, nb: nat, size: nat)
    requires HeadBytes(d, d', lo, lo + nb) && nb + 16 <= size
    ensures SameOutside(d, d', lo, lo + size)
  {
    hide HasWord;
  }

  lemma PrependedWhole(C: Chunks, head: Heads, lo: int, nb: nat, size: nat, d': Bytes)
    requires nb < size && HasWord(d', lo, HeadW) && HasWord(d', lo + nb, HeadW)
    ensures var C', head' := Prepended(C, lo, nb, size), PrependedHeads(head, lo, nb, size);
            && lo in C' && lo + nb in C' && TagWhole(C', head', d', lo) && TagWhole(C', head', d', lo + nb)
            && SameBut(C, head, C', head', {lo, lo + nb, lo + nb})
  {
    hide HasWord;
  }
}
