/** What changes of the memory obtained from the system do to the views of the heap. */
module Regions {
  import opened Sizes
  import opened Memory
  import opened Bins
  import opened Layout
  import opened Heap
  import opened Steps
  import opened Words

  /** Nothing of the heap lies between `lo` and `hi`. */
  ghost predicate Unclaimed(segs: seq<Seg>, maps: map<int, Region>, lo: int, hi: int) {
    && (forall i | 0 <= i < |segs| :: segs[i].End() <= lo || hi <= segs[i].base)
    && (forall p | p in maps :: maps[p].End() <= lo || hi <= maps[p].base)
  }

  /** No chunk outside the segment of `top` reaches into `[lo, hi)`. */
  lemma NoChunkThere(C: Chunks, head: Heads, foot: Field, segs: seq<Seg>, top: int, topsize: nat, lo: int, hi: int,
                     p: int)
    requires Tags(C, head, foot) && SegsOk(C, segs, top, topsize) && p in C
    requires forall i | 0 <= i < |segs| :: segs[i].End() <= lo || hi <= segs[i].base
    ensures p + C[p].size <= lo || hi <= p
    ensures C[p].size >= 16
  {
    hide TopOk, EndOk, SegOk, SegsApart, KindsOk, HeadOk, AfterFree, MayFollow;
    assert TagOk(C, head, foot, p) && Placed(C, segs, p);
  }

  /** What chunk `p` has in common between two layouts for its tags to stay right. */
  ghost predicate StillTagged(C: Chunks, head: Heads, foot: Field, C': Chunks, head': Heads, foot': Field, p: int) {
    && p in C && p in C' && C'[p] == C[p] && head'.At(p) == head.At(p)
    && (C[p].kind == Used && !head.At(p).pinuse ==>
          var o := p - foot.At(p);
              foot'.At(p) == foot.At(p) && (o in C && C[o].kind == Free ==> o in C' && C'[o] == C[o]))
    && (!Stops(C[p].kind) ==>
          var n := p + C[p].size;
              n in C' && MayFollow(C[p].kind, C'[n].kind) && head'.At(n).pinuse == head.At(n).pinuse &&
                                  (C[p].kind == Free ==> foot'.At(n) == foot.At(n)))
  }

  lemma TagStays(C: Chunks, head: Heads, foot: Field, C': Chunks, head': Heads, foot': Field, p: int)
    requires TagOk(C, head, foot, p) && StillTagged(C, head, foot, C', head', foot', p)
    ensures TagOk(C', head', foot', p)
  {
    hide IsAligned, SizeOk;
  }

  // ----- the end of the first segment moves

  /** `top` has `ts` bytes and its foot follows. */
  ghost function Resized(C: Chunks, top: int, topsize: nat, ts: nat): Chunks {
    (map p | p in C && p != top + topsize :: C[p])[top := Chunk(ts, Top)][top + ts := Chunk(TOP_FOOT, Foot)]
  }

  ghost predicate MayResize(C: Chunks, top: int, topsize: nat, ts: nat) {
    && top in C && C[top] == Chunk(topsize, Top) && top + topsize in C && C[top + topsize] == Chunk(TOP_FOOT, Foot)
    && ts > 0 && IsAligned(ts)
    && (forall p | p in C && p != top && p != top + topsize :: p + C[p].size <= top || top + ts + TOP_FOOT <= p)
  }

  ghost function ResizedHeads(head: Heads, top: int, ts: nat): Heads {
    head.Set(top, Head(ts, true, false)).Set(top + ts, Head(TOP_FOOT, false, false))
  }

  lemma ResizedOther(C: Chunks, head: Heads, foot: Field, top: int, topsize: nat, ts: nat, q: int)
    requires Tags(C, head, foot) && MayResize(C, top, topsize, ts) && q in C
    ensures var C', head' := Resized(C, top, topsize, ts), ResizedHeads(head, top, ts);
            && (q != top && q != top + topsize ==> q in C' && C'[q] == C[q] && head'.At(q) == head.At(q))
            && (q == top ==> q in C' && C'[q].kind == Top == C[q].kind && head'.At(q).pinuse == head.At(q).pinuse)
    ensures C[q].kind != Top && C[q].kind != Foot ==> q != top && q != top + topsize && q + C[q].size != top + topsize
  {
    hide AfterFree, MayFollow;
    assert TagOk(C, head, foot, q) && TagOk(C, head, foot, top) && InOrder(C, q, top) && InOrder(C, top, q);
  }

  lemma ResizedTag(C: Chunks, head: Heads, foot: Field, top: int, topsize: nat, ts: nat, p: int)
    requires Tags(C, head, foot) && MayResize(C, top, topsize, ts) && p in C && p != top && p != top + topsize
    requires C[p].kind != Top && C[p].kind != Foot
    ensures TagOk(Resized(C, top, topsize, ts), ResizedHeads(head, top, ts), foot, p)
  {
    hide IsAligned, HeadOk, SizeOk, Resized, ResizedHeads, MayResize;
    assert TagOk(C, head, foot, p);
    ResizedOther(C, head, foot, top, topsize, ts, p);
    if !Stops(C[p].kind) {
      ResizedOther(C, head, foot, top, topsize, ts, p + C[p].size);
    }
    if C[p].kind == Used && !head.At(p).pinuse {
      ResizedOther(C, head, foot, top, topsize, ts, p - foot.At(p));
    }
    TagStays(C, head, foot, Resized(C, top, topsize, ts), ResizedHeads(head, top, ts), foot, p);
  }

  lemma ResizedEnds(C: Chunks, head: Heads, foot: Field, top: int, topsize: nat, ts: nat)
    requires Tags(C, head, foot) && MayResize(C, top, topsize, ts)
    ensures TagOk(Resized(C, top, topsize, ts), ResizedHeads(head, top, ts), foot, top)
    ensures TagOk(Resized(C, top, topsize, ts), ResizedHeads(head, top, ts), foot, top + ts)
  {
    hide IsAligned;
    AlignedSum(top, ts);
    assert TagOk(C, head, foot, top) && TagOk(C, head, foot, top + topsize);
  }

  lemma ResizedOrder(C: Chunks, head: Heads, foot: Field, top: int, topsize: nat, ts: nat, p: int, q: int)
    requires Tags(C, head, foot) && MayResize(C, top, topsize, ts)
    ensures InOrder(Resized(C, top, topsize, ts), p, q)
  {
    hide HeadOk, AfterFree, MayFollow;
    assert InOrder(C, p, q);
    assert TagOk(C, head, foot, p) && TagOk(C, head, foot, q);
  }

  lemma ResizedTags(C: Chunks, head: Heads, foot: Field, top: int, topsize: nat, ts: nat)
    requires Tags(C, head, foot) && MayResize(C, top, topsize, ts) && KindsOk(C, top, topsize)
    ensures Tags(Resized(C, top, topsize, ts), ResizedHeads(head, top, ts), foot)
  {
    hide TagOk, InOrder, MayResize;
    var C', head' := Resized(C, top, topsize, ts), ResizedHeads(head, top, ts);
    ResizedEnds(C, head, foot, top, topsize, ts);
    forall p ensures TagOk(C', head', foot, p) {
      if p in C && p != top && p != top + topsize {
        ResizedTag(C, head, foot, top, topsize, ts, p);
      } else {
        AbsentTag(C', head', foot, p);
      }
    }
    forall p, q ensures InOrder(C', p, q) {
      ResizedOrder(C, head, foot, top, topsize, ts, p, q);
    }
  }

  lemma AlignedSum(a: int, b: int)
    ensures IsAligned(a) && IsAligned(b) ==> IsAligned(a + b) && IsAligned(a - b)
  {
  }

  /** The first segment, grown or shrunk at its end. */
  function ResizedSegs(segs: seq<Seg>, topsize: nat, ts: nat): seq<Seg>
    requires segs != [] && segs[0].size + ts >= topsize
  {
    [Seg(segs[0].base, segs[0].size + ts - topsize, 0)] + segs[1..]
  }

  /** The first segment may take on that size. */
  ghost predicate RoomFor(segs: seq<Seg>, maps: map<int, Region>, topsize: nat, ts: nat) {
    && segs != [] && ts > 0 && IsAligned(ts)
    && var s := segs[0]; var end := s.End() + ts - topsize;
       && s.size + ts > topsize && (s.size + ts - topsize) % PAGE == 0 && end <= WORD_RANGE
       && (forall i | 1 <= i < |segs| :: segs[i].End() <= s.base || end <= segs[i].base)
       && (forall p | p in maps :: maps[p].End() <= s.base || end <= maps[p].base)
  }

  lemma ResizeAllowed(C: Chunks, head: Heads, foot: Field, segs: seq<Seg>, top: int, topsize: nat,
                      maps: map<int, Region>, ts: nat)
    requires Tags(C, head, foot) && SegsOk(C, segs, top, topsize) && RoomFor(segs, maps, topsize, ts)
    ensures MayResize(C, top, topsize, ts)
    ensures forall p | p in C && p != top && p != top + topsize :: p + C[p].size <= top || segs[0].End() <= p
    ensures segs[0].base > 0 && IsAligned(segs[0].base) && segs[0].base <= top
  {
    hide EndOk, KindsOk, HeadOk, AfterFree, MayFollow, FenceOk, IsAligned;
    assert SegOk(C, segs[0]);
    forall p | p in C && p != top && p != top + topsize
      ensures p + C[p].size <= top || (top + ts + TOP_FOOT <= p && segs[0].End() <= p)
    {
      assert TagOk(C, head, foot, p) && InOrder(C, p, top) && InOrder(C, top, p) && InOrder(C, top + topsize, p)
             && Placed(C, segs, p);
      var i :| 0 <= i < |segs| && segs[i].base <= p && p + C[p].size <= segs[i].End();
      assert i > 0 ==> segs[i].End() <= segs[0].base || segs[0].End() <= segs[i].base;
    }
  }

  lemma ResizedPlaced(C: Chunks, head: Heads, foot: Field, segs: seq<Seg>, top: int, topsize: nat,
                      maps: map<int, Region>, ts: nat, p: int)
    requires Tags(C, head, foot) && SegsOk(C, segs, top, topsize) && RoomFor(segs, maps, topsize, ts)
    requires forall p | p in C && p != top && p != top + topsize :: p + C[p].size <= top || segs[0].End() <= p
    ensures Placed(Resized(C, top, topsize, ts), ResizedSegs(segs, topsize, ts), p)
    ensures FenceOk(Resized(C, top, topsize, ts), ResizedSegs(segs, topsize, ts), p)
  {
    hide EndOk, KindsOk, HeadOk, AfterFree, MayFollow, IsAligned, SegsApart, SegOk;
    var C', segs' := Resized(C, top, topsize, ts), ResizedSegs(segs, topsize, ts);
    assert segs'[0].base == segs[0].base && segs'[0].End() == top + ts + TOP_FOOT;
    assert forall i | 1 <= i < |segs| :: segs'[i] == segs[i];
    assert FenceOk(C, segs, p) && Placed(C, segs, p) && TagOk(C, head, foot, p);
    if p in C' && p != top && p != top + ts {
      var i :| 0 <= i < |segs| && segs[i].base <= p && p + C[p].size <= segs[i].End();
      assert segs'[i].base <= p && p + C'[p].size <= segs'[i].End();
    }
  }

  lemma ResizedEndOk(C: Chunks, head: Heads, foot: Field, segs: seq<Seg>, top: int, topsize: nat, ts: nat, i: nat)
    requires Tags(C, head, foot) && SegsOk(C, segs, top, topsize) && MayResize(C, top, topsize, ts) && 1 <= i < |segs|
    ensures EndOk(Resized(C, top, topsize, ts), segs[i]) && SegOk(Resized(C, top, topsize, ts), segs[i])
  {
    hide Tags, TopOk, KindsOk, Placed, FenceOk, Resized, MayResize, ResizedHeads, IsAligned;
    assert EndOk(C, segs[i]) && SegOk(C, segs[i]);
    ResizedOther(C, head, foot, top, topsize, ts, segs[i].rec);
    ResizedOther(C, head, foot, top, topsize, ts, segs[i].rec + RECORD);
    BaseIsNoStop(C, head, foot, segs, top, topsize, i);
    ResizedOther(C, head, foot, top, topsize, ts, segs[i].base);
  }

  /** A later segment does not begin with `top` or a foot. */
  lemma BaseIsNoStop(C: Chunks, head: Heads, foot: Field, segs: seq<Seg>, top: int, topsize: nat, i: nat)
    requires Tags(C, head, foot) && SegsOk(C, segs, top, topsize) && 1 <= i < |segs|
    ensures segs[i].base in C && segs[i].base != top && segs[i].base != top + topsize
  {
    hide Placed, FenceOk, IsAligned, EndOk, HeadOk, AfterFree, MayFollow;
    assert SegOk(C, segs[i]) && TagOk(C, head, foot, top) && TagOk(C, head, foot, top + topsize);
    assert segs[0].End() <= segs[i].base || segs[i].End() <= segs[0].base;
  }

  lemma ResizedSegsOk(C: Chunks, head: Heads, foot: Field, segs: seq<Seg>, top: int, topsize: nat,
                      maps: map<int, Region>, ts: nat)
    requires Tags(C, head, foot) && SegsOk(C, segs, top, topsize) && RoomFor(segs, maps, topsize, ts)
    ensures SegsOk(Resized(C, top, topsize, ts), ResizedSegs(segs, topsize, ts), top, ts)
  {
    var C', segs' := Resized(C, top, topsize, ts), ResizedSegs(segs, topsize, ts);
    ResizeAllowed(C, head, foot, segs, top, topsize, maps, ts);
    forall i | 1 <= i < |segs'| ensures EndOk(C', segs'[i]) && SegOk(C', segs'[i]) {
      ResizedEndOk(C, head, foot, segs, top, topsize, ts, i);
      assert segs'[i] == segs[i];
    }
    forall p ensures Placed(C', segs', p) && FenceOk(C', segs', p) {
      ResizedPlaced(C, head, foot, segs, top, topsize, maps, ts, p);
    }
    hide Tags, EndOk, Placed, FenceOk, IsAligned;
    ResizedFirst(C, segs, top, topsize, maps, ts);
  }

  lemma ResizedFirst(C: Chunks, segs: seq<Seg>, top: int, topsize: nat, maps: map<int, Region>, ts: nat)
    requires SegsOk(C, segs, top, topsize) && RoomFor(segs, maps, topsize, ts)
    ensures var C', segs' := Resized(C, top, topsize, ts), ResizedSegs(segs, topsize, ts);
            && SegOk(C', segs'[0]) && TopOk(C', segs'[0], top, ts) && KindsOk(C', top, ts) && SegsApart(segs')
  {
    hide Placed, FenceOk, EndOk, IsAligned;
    assert SegOk(C, segs[0]);
    var segs' := ResizedSegs(segs, topsize, ts);
    forall i, j | 0 <= i < j < |segs'| ensures segs'[i].End() <= segs'[j].base || segs'[j].End() <= segs'[i].base {
      assert segs[i].End() <= segs[j].base || segs[j].End() <= segs[i].base;
    }
  }

  /** Head and foot words agree from `lo` up to `hi`. */
  ghost predicate SameIn(head: Heads, foot: Field, head': Heads, foot': Field, lo: int, hi: int) {
    forall a {:trigger head'.At(a)} {:trigger foot'.At(a)} | lo <= a < hi ::
        head'.At(a) == head.At(a) && foot'.At(a) == foot.At(a)
  }

  lemma MapsStay(maps: map<int, Region>, head: Heads, foot: Field, segs: seq<Seg>, head': Heads, foot': Field,
                 segs': seq<Seg>)
    requires MapsOk(maps, head, foot, segs)
    requires forall p | p in maps :: SameIn(head, foot, head', foot', maps[p].base, maps[p].End())
    requires forall p, i | p in maps && 0 <= i < |segs'| :: Disjoint(maps[p], Region(segs'[i].base, segs'[i].size))
    ensures MapsOk(maps, head', foot', segs')
  {
    forall p | p in maps ensures MapOk(maps[p], head', foot', p) {
      assert MapOk(maps[p], head, foot, p) && SameIn(head, foot, head', foot', maps[p].base, maps[p].End());
    }
  }

  lemma ResizedMaps(C: Chunks, maps: map<int, Region>, head: Heads, foot: Field, segs: seq<Seg>, top: int, topsize: nat,
                    ts: nat)
    requires SegsOk(C, segs, top, topsize) && MapsOk(maps, head, foot, segs) && RoomFor(segs, maps, topsize, ts)
    ensures MapsOk(maps, ResizedHeads(head, top, ts), foot, ResizedSegs(segs, topsize, ts))
  {
    hide SegsOk, MapsOk, ResizedHeads, ResizedSegs, SameIn, Disjoint;
    var head', segs' := ResizedHeads(head, top, ts), ResizedSegs(segs, topsize, ts);
    forall p | p in maps
      ensures SameIn(head, foot, head', foot, maps[p].base, maps[p].End())
      ensures forall i | 0 <= i < |segs'| :: Disjoint(maps[p], Region(segs'[i].base, segs'[i].size))
    {
      ResizedMap(C, maps, head, foot, segs, top, topsize, ts, p);
    }
    MapsStay(maps, head, foot, segs, head', foot, segs');
  }

  lemma ResizedMap(C: Chunks, maps: map<int, Region>, head: Heads, foot: Field, segs: seq<Seg>, top: int, topsize: nat,
                   ts: nat, p: int)
    requires SegsOk(C, segs, top, topsize) && MapsOk(maps, head, foot, segs) && RoomFor(segs, maps, topsize, ts)
             && p in maps
    ensures SameIn(head, foot, ResizedHeads(head, top, ts), foot, maps[p].base, maps[p].End())
    ensures forall i | 0 <= i < |ResizedSegs(segs, topsize, ts)| ::
              Disjoint(maps[p], Region(ResizedSegs(segs, topsize, ts)[i].base, ResizedSegs(segs, topsize, ts)[i].size))
  {
    hide Placed, FenceOk, EndOk, IsAligned, KindsOk, SegsApart, SegOk, MapOk;
    var segs' := ResizedSegs(segs, topsize, ts);
    forall i | 0 <= i < |segs'| ensures Disjoint(maps[p], Region(segs'[i].base, segs'[i].size)) {
      assert Disjoint(maps[p], Region(segs[i].base, segs[i].size));
    }
  }

  lemma ResizedUsed(C: Chunks, segs: seq<Seg>, top: int, topsize: nat, F: map<int, nat>, live: set<int>, ts: nat)
    requires KindsOk(C, top, topsize) && PoolOk(C, F) && UsedOk(C, segs, live) && MayResize(C, top, topsize, ts)
             && segs != [] && segs[0].size + ts >= topsize
    requires forall p | p in C && p != top && p != top + topsize :: C[p].size > 0
    ensures PoolOk(Resized(C, top, topsize, ts), F)
            && UsedOk(Resized(C, top, topsize, ts), ResizedSegs(segs, topsize, ts), live)
    ensures forall q | q in live ::
            q in C && q in Resized(C, top, topsize, ts) && Resized(C, top, topsize, ts)[q] == C[q]
  {
    hide IsAligned, IsRecord, Resized, MayResize, ResizedSegs;
    SameRecordsResized(segs, topsize, ts);
    forall p ensures ResizedSame(C, top, topsize, ts, p) {
      StaysTheSame(C, top, topsize, ts, p);
    }
    var C' := Resized(C, top, topsize, ts);
    forall p | IsFree(C', p) ensures p in F { assert ResizedSame(C, top, topsize, ts, p); }
    forall p | p in F ensures p in C' && C'[p] == Chunk(F[p], Free) { assert ResizedSame(C, top, topsize, ts, p); }
    forall p | p in live ensures p in C' && C'[p] == C[p] { assert ResizedSame(C, top, topsize, ts, p); }
    forall p | p in C' && C'[p].kind == Used ensures p in live || IsRecord(ResizedSegs(segs, topsize, ts), p) {
      assert ResizedSame(C, top, topsize, ts, p);
    }
  }

  /** Free and used chunks are the same before and after. */
  ghost predicate ResizedSame(C: Chunks, top: int, topsize: nat, ts: nat, p: int) {
    var C' := Resized(C, top, topsize, ts);
    && (p in C && C[p].kind in {Free, Used} ==> p in C' && C'[p] == C[p])
    && (p in C' && C'[p].kind in {Free, Used} ==> p in C && C'[p] == C[p])
  }

  lemma StaysTheSame(C: Chunks, top: int, topsize: nat, ts: nat, p: int)
    requires MayResize(C, top, topsize, ts)
    requires p in C && p != top && p != top + topsize ==> C[p].size > 0
    ensures ResizedSame(C, top, topsize, ts, p)
  {
  }

  lemma SameRecordsResized(segs: seq<Seg>, topsize: nat, ts: nat)
    requires segs != [] && segs[0].size + ts >= topsize
    ensures forall p :: IsRecord(ResizedSegs(segs, topsize, ts), p) <==> IsRecord(segs, p)
  {
    SameRecords(segs, ResizedSegs(segs, topsize, ts));
  }

  lemma SameRecords(segs: seq<Seg>, segs': seq<Seg>)
    requires |segs'| == |segs| && forall i | 1 <= i < |segs| :: segs'[i].rec == segs[i].rec
    ensures forall p :: IsRecord(segs', p) <==> IsRecord(segs, p)
  {
    forall p ensures IsRecord(segs', p) <==> IsRecord(segs, p) {
    }
  }

  lemma SizesPositive(C: Chunks, head: Heads, foot: Field)
    requires Tags(C, head, foot)
    ensures forall p | p in C :: C[p].size > 0
  {
    forall p | p in C ensures C[p].size > 0 {
      assert TagOk(C, head, foot, p);
    }
  }

  lemma ResizedBytes(C: Chunks, head: Heads, foot: Field, segs: seq<Seg>, top: int, topsize: nat, live: set<int>,
                     maps: map<int, Region>, ts: nat, d: Bytes, d': Bytes)
    requires Tags(C, head, foot) && SegsOk(C, segs, top, topsize) && UsedOk(C, segs, live)
             && MapsOk(maps, head, foot, segs)
    requires MayResize(C, top, topsize, ts) && RoomFor(segs, maps, topsize, ts)
             && TagBytes(d, d', top, top + ts, top + ts)
    ensures Kept(C, maps, live, d, d')
  {
    hide Tags, SegsOk, MapsOk, UsedOk, MayResize, RoomFor;
    forall a | InPayload(C, maps, live, a) ensures d'.At(a) == d.At(a) {
      if q :| q in live && q in C && q + 16 <= a < q + C[q].size + 8 {
        LiveClear(C, segs, top, topsize, live, ts, q);
      } else {
        var q :| q in maps && q + 16 <= a < maps[q].End() - 32;
        MapOutside(C, head, foot, segs, top, topsize, maps, ts, q);
      }
    }
  }

  lemma LiveClear(C: Chunks, segs: seq<Seg>, top: int, topsize: nat, live: set<int>, ts: nat, q: int)
    requires UsedOk(C, segs, live) && MayResize(C, top, topsize, ts) && q in live
    ensures ts >= 16 && q in C && (q + C[q].size <= top || top + ts + TOP_FOOT <= q)
  {
    hide IsRecord;
  }

  lemma MapOutside(C: Chunks, head: Heads, foot: Field, segs: seq<Seg>, top: int, topsize: nat, maps: map<int, Region>,
                 ts: nat, q: int)
    requires SegsOk(C, segs, top, topsize) && MapsOk(maps, head, foot, segs) && RoomFor(segs, maps, topsize, ts)
             && q in maps
    ensures ts >= 16 && maps[q].base <= q && (maps[q].End() <= top || top + ts + TOP_FOOT <= maps[q].base)
  {
    hide Placed, FenceOk, EndOk, KindsOk, SegsApart, SegOk;
    assert MapOk(maps[q], head, foot, q);
  }

  /** The first segment grown or shrunk at its end, with `top`. */
  lemma ResizedViews(g: Ghost, head: Heads, foot: Field, segs: seq<Seg>, top: int, topsize: nat, F: map<int, nat>,
                     ts: nat, d: Bytes, d': Bytes,
                     B: map<int, nat>, ring: map<int, nat>)
    requires ViewsOk(g.C, head, foot, segs, top, topsize, F, g.live, g.maps) && RoomFor(segs, g.maps, topsize, ts)
             && TagBytes(d, d', top, top + ts, top + ts)
    requires Whole(g, head, F, B, ring, d) && HasWord(d', top, HeadW) && HasWord(d', top + ts, HeadW)
    ensures var g' := Ghost(Resized(g.C, top, topsize, ts), g.live, g.maps);
            && ViewsOk(g'.C, ResizedHeads(head, top, ts), foot, ResizedSegs(segs, topsize, ts), top, ts, F, g'.live,
                       g'.maps)
            && Undisturbed(g, g', g.live, d, d') && Whole(g', ResizedHeads(head, top, ts), F, B, ring, d')
  {
    hide ViewsOk, Undisturbed, Whole, TagBytes, Unclaimed, HasWord, ResizedHeads, Resized, ResizedSegs, TagWhole,
         SameBut, Within;
    ResizedAll(g, head, foot, segs, top, topsize, F, ts, d, d');
    ResizedWhole(g, head, foot, segs, top, topsize, F, ts, d');
    WholeWithin(g, head, F, B, ring, d);
    TagsStay(g, head, F, Ghost(Resized(g.C, top, topsize, ts), g.live, g.maps), ResizedHeads(head, top, ts), foot,
             ResizedSegs(segs, topsize, ts), top, ts,
             F, B, ring, top, top + ts, top + ts, d, d');
  }

  lemma ResizedAll(g: Ghost, head: Heads, foot: Field, segs: seq<Seg>, top: int, topsize: nat, F: map<int, nat>,
                   ts: nat, d: Bytes, d': Bytes)
    requires ViewsOk(g.C, head, foot, segs, top, topsize, F, g.live, g.maps) && RoomFor(segs, g.maps, topsize, ts)
             && TagBytes(d, d', top, top + ts, top + ts)
    ensures var g' := Ghost(Resized(g.C, top, topsize, ts), g.live, g.maps);
            && ViewsOk(g'.C, ResizedHeads(head, top, ts), foot, ResizedSegs(segs, topsize, ts), top, ts, F, g'.live,
                       g'.maps)
            && Undisturbed(g, g', g.live, d, d') && top in g.C
  {
    hide Tags, SegOk, TopOk, EndOk, SegsApart, KindsOk, Placed, FenceOk, MapsOk, PoolOk, UsedOk, Kept, IsAligned,
         TagBytes,
         Resized;
    ResizeAllowed(g.C, head, foot, segs, top, topsize, g.maps, ts);
    ResizedTags(g.C, head, foot, top, topsize, ts);
    SizesPositive(g.C, head, foot);
    ResizedSegsOk(g.C, head, foot, segs, top, topsize, g.maps, ts);
    ResizedMaps(g.C, g.maps, head, foot, segs, top, topsize, ts);
    ResizedUsed(g.C, segs, top, topsize, F, g.live, ts);
    ResizedBytes(g.C, head, foot, segs, top, topsize, g.live, g.maps, ts, d, d');
  }

  lemma ResizedWhole(g: Ghost, head: Heads, foot: Field, segs: seq<Seg>, top: int, topsize: nat, F: map<int, nat>,
                     ts: nat, d': Bytes)
    requires ViewsOk(g.C, head, foot, segs, top, topsize, F, g.live, g.maps) && top in g.C && HasWord(d', top, HeadW)
             && HasWord(d', top + ts, HeadW)
    ensures var C', head' := Resized(g.C, top, topsize, ts), ResizedHeads(head, top, ts);
            && top > 0 && top in C' && top + ts in C' && TagWhole(C', head', d', top)
            && TagWhole(C', head', d', top + ts)
            && SameBut(g.C, head, C', head', {top, top + ts, top + ts})
  {
    ChunkPlace(g.C, head, foot, top);
    hide HasWord, ViewsOk;
    ResizedTwo(g.C, head, top, topsize, ts, d');
  }

  lemma ResizedTwo(C: Chunks, head: Heads, top: int, topsize: nat, ts: nat, d': Bytes)
    requires HasWord(d', top, HeadW) && HasWord(d', top + ts, HeadW)
    ensures var C', head' := Resized(C, top, topsize, ts), ResizedHeads(head, top, ts);
            && top in C' && top + ts in C' && TagWhole(C', head', d', top) && TagWhole(C', head', d', top + ts)
            && SameBut(C, head, C', head', {top, top + ts, top + ts})
  {
    hide HasWord;
  }
}
