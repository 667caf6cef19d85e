/** A segment given back to the system. */
module Release {
  import opened Sizes
  import opened Memory
  import opened Bins
  import opened Layout
  import opened Heap
  import opened Steps
  import opened Words
  import opened Regions
  import opened Segments

  /** Segment `i` holds one free chunk, its record and its fenceposts. */
  ghost predicate IsIdle(C: Chunks, segs: seq<Seg>, i: nat) {
    && 1 <= i < |segs|
    && var s := segs[i]; s.base < s.rec && s.base in C && C[s.base] == Chunk(s.rec - s.base, Free)
  }

  ghost function Dropped(C: Chunks, s: Seg): Chunks {
    map p | p in C && p != s.base && p != s.rec && p != s.rec + RECORD :: C[p]
  }

  function DroppedSegs(segs: seq<Seg>, i: nat): seq<Seg>
    requires i < |segs|
  {
    segs[..i] + segs[i + 1..]
  }

  /** The chunks of an idle segment are those three. */
  lemma IdleChunks(C: Chunks, head: Heads, foot: Field, segs: seq<Seg>, top: int, topsize: nat, i: nat, p: int)
    requires Tags(C, head, foot) && SegsOk(C, segs, top, topsize) && IsIdle(C, segs, i) && p in C
    ensures var s := segs[i]; (s.base <= p < s.End() <==> p == s.base || p == s.rec || p == s.rec + RECORD)
    ensures var s := segs[i]; p != s.base && p != s.rec && p != s.rec + RECORD ==>
            p + C[p].size <= s.base || s.End() <= p
    ensures C[p].size > 0
  {
    hide TopOk, KindsOk, FenceOk, HeadOk, AfterFree, MayFollow, IsAligned, Placed, SegsApart;
    var s := segs[i];
    assert EndOk(C, s) && TagOk(C, head, foot, p) && TagOk(C, head, foot, s.base) && TagOk(C, head, foot, s.rec)
           && TagOk(C, head, foot, s.rec + RECORD);
    assert InOrder(C, s.base, p) && InOrder(C, s.rec, p) && InOrder(C, s.rec + RECORD, p) && InOrder(C, p, s.base);
  }

  lemma DroppedTag(C: Chunks, head: Heads, foot: Field, segs: seq<Seg>, top: int, topsize: nat, i: nat, p: int)
    requires Tags(C, head, foot) && SegsOk(C, segs, top, topsize) && IsIdle(C, segs, i) && p in Dropped(C, segs[i])
    ensures TagOk(Dropped(C, segs[i]), head, foot, p)
  {
    var s := segs[i];
    assert TagOk(C, head, foot, p);
    IdleChunks(C, head, foot, segs, top, topsize, i, p);
    IdleEnd(C, segs, top, topsize, i);
    hide SegsOk, Tags, HeadOk, IsAligned, SizeOk;
    if !Stops(C[p].kind) {
      var n := p + C[p].size;
      IdleChunks(C, head, foot, segs, top, topsize, i, n);
      if n == s.base {
        NothingBefore(C, head, foot, segs, top, topsize, i, p);
      }
    }
    if C[p].kind == Used && !head.At(p).pinuse {
      IdleChunks(C, head, foot, segs, top, topsize, i, p - foot.At(p));
    }
    TagStays(C, head, foot, Dropped(C, s), head, foot, p);
  }

  /** Every record lies in the segment it describes, so none lies in the first segment: `has_segment_link` is false of
      the segment that holds `top`. */
  lemma NoLinkInFirst(C: Chunks, segs: seq<Seg>, top: int, topsize: nat, j: nat)
    requires SegsOk(C, segs, top, topsize) && 1 <= j < |segs|
    ensures segs[j].base <= segs[j].rec + 16 < segs[j].End()
    ensures !(segs[0].base <= segs[j].rec + 16 < segs[0].End())
  {
    hide TopOk, KindsOk, FenceOk, IsAligned, Placed, SegOk;
    assert EndOk(C, segs[j]);
  }

  lemma IdleEnd(C: Chunks, segs: seq<Seg>, top: int, topsize: nat, i: nat)
    requires SegsOk(C, segs, top, topsize) && IsIdle(C, segs, i)
    ensures var s := segs[i];
            s.rec in C && C[s.rec] == Chunk(RECORD, Used) && s.rec + RECORD in C && C[s.rec + RECORD].kind == Fence
            && s.rec + RECORD + C[s.rec + RECORD].size == s.End()
  {
    hide TopOk, KindsOk, FenceOk, IsAligned, Placed, SegsApart, SegOk;
    assert EndOk(C, segs[i]);
  }

  lemma DroppedTags(C: Chunks, head: Heads, foot: Field, segs: seq<Seg>, top: int, topsize: nat, i: nat)
    requires Tags(C, head, foot) && SegsOk(C, segs, top, topsize) && IsIdle(C, segs, i)
    ensures Tags(Dropped(C, segs[i]), head, foot)
  {
    hide TagOk, SegsOk;
    var C' := Dropped(C, segs[i]);
    forall p ensures TagOk(C', head, foot, p) {
      if p in C' {
        DroppedTag(C, head, foot, segs, top, topsize, i, p);
      } else {
        AbsentTag(C', head, foot, p);
      }
    }
    forall p, q ensures InOrder(C', p, q) {
      assert InOrder(C, p, q);
    }
  }

  /** The other segments end as before. */
  lemma DroppedSeg(C: Chunks, head: Heads, foot: Field, segs: seq<Seg>, top: int, topsize: nat, i: nat, j: nat)
    requires Tags(C, head, foot) && SegsOk(C, segs, top, topsize) && IsIdle(C, segs, i) && j < |segs| && j != i
    ensures var C' := Dropped(C, segs[i]);
            SegOk(C', segs[j]) && (if j == 0 then TopOk(C', segs[0], top, topsize) else EndOk(C', segs[j]))
  {
    hide Tags, KindsOk, FenceOk, IsAligned, Placed;
    TwoApart(segs, i, j);
    assert SegOk(C, segs[i]) && SegOk(C, segs[j]) && (j >= 1 ==> EndOk(C, segs[j]));
    IdleChunks(C, head, foot, segs, top, topsize, i, segs[j].base);
    if j == 0 {
      ChunkPlace(C, head, foot, top);
      IdleChunks(C, head, foot, segs, top, topsize, i, top);
      IdleChunks(C, head, foot, segs, top, topsize, i, top + topsize);
    } else {
      ChunkPlace(C, head, foot, segs[j].rec + RECORD);
      IdleChunks(C, head, foot, segs, top, topsize, i, segs[j].rec);
      IdleChunks(C, head, foot, segs, top, topsize, i, segs[j].rec + RECORD);
    }
  }

  /** Records of the other segments. */
  lemma DroppedRecords(C: Chunks, head: Heads, foot: Field, segs: seq<Seg>, top: int, topsize: nat, i: nat, p: int)
    requires Tags(C, head, foot) && SegsOk(C, segs, top, topsize) && IsIdle(C, segs, i)
    ensures IsRecord(DroppedSegs(segs, i), p) <==> IsRecord(segs, p) && p != segs[i].rec
  {
    hide Tags, SegsOk, IsAligned, DroppedSegs;
    if IsRecord(DroppedSegs(segs, i), p) {
      RecordStood(C, segs, top, topsize, i, p);
    }
    if IsRecord(segs, p) && p != segs[i].rec {
      RecordStays(segs, i, p);
    }
  }

  lemma RecordStood(C: Chunks, segs: seq<Seg>, top: int, topsize: nat, i: nat, p: int)
    requires SegsOk(C, segs, top, topsize) && 1 <= i < |segs| && IsRecord(DroppedSegs(segs, i), p)
    ensures IsRecord(segs, p) && p != segs[i].rec
  {
    hide SegsOk;
    var segs' := DroppedSegs(segs, i);
    var j :| 1 <= j < |segs'| && segs'[j].rec == p;
    var k := if j < i then j else j + 1;
    assert segs'[j] == segs[k] && k != i;
    RecordsDiffer(C, segs, top, topsize, i, k);
  }

  lemma RecordStays(segs: seq<Seg>, i: nat, p: int)
    requires 1 <= i < |segs| && IsRecord(segs, p) && p != segs[i].rec
    ensures IsRecord(DroppedSegs(segs, i), p)
  {
    var segs' := DroppedSegs(segs, i);
    var k :| 1 <= k < |segs| && segs[k].rec == p;
    assert segs'[if k < i then k else k - 1] == segs[k];
  }

  lemma RecordsDiffer(C: Chunks, segs: seq<Seg>, top: int, topsize: nat, i: nat, k: nat)
    requires SegsOk(C, segs, top, topsize) && 1 <= i < |segs| && 1 <= k < |segs| && i != k
    ensures segs[i].rec != segs[k].rec
  {
    hide KindsOk, FenceOk, IsAligned, Placed, TopOk;
    TwoApart(segs, i, k);
    assert EndOk(C, segs[k]) && EndOk(C, segs[i]);
  }

  lemma DroppedPlaced(C: Chunks, head: Heads, foot: Field, segs: seq<Seg>, top: int, topsize: nat, i: nat, p: int)
    requires Tags(C, head, foot) && SegsOk(C, segs, top, topsize) && IsIdle(C, segs, i)
    ensures Placed(Dropped(C, segs[i]), DroppedSegs(segs, i), p)
            && FenceOk(Dropped(C, segs[i]), DroppedSegs(segs, i), p)
  {
    assert i < |segs|;
    hide Tags, SegsOk, IsAligned, IsRecord, DroppedSegs, IsIdle;
    AllPlaced(C, segs, top, topsize, p);
    DroppedRecords(C, head, foot, segs, top, topsize, i, p - RECORD);
    if p in C {
      IdleChunks(C, head, foot, segs, top, topsize, i, p);
      IdleRecord(C, segs, top, topsize, i);
      if p in Dropped(C, segs[i]) {
        DroppedInSeg(C, segs, i, p);
      }
    }
  }

  lemma IdleRecord(C: Chunks, segs: seq<Seg>, top: int, topsize: nat, i: nat)
    requires SegsOk(C, segs, top, topsize) && IsIdle(C, segs, i)
    ensures segs[i].base < segs[i].End()
  {
    hide TopOk, KindsOk, FenceOk, IsAligned, Placed, SegsApart, EndOk;
    assert SegOk(C, segs[i]);
  }

  lemma AllPlaced(C: Chunks, segs: seq<Seg>, top: int, topsize: nat, p: int)
    requires SegsOk(C, segs, top, topsize)
    ensures Placed(C, segs, p) && FenceOk(C, segs, p)
  {
    hide TopOk, KindsOk, IsAligned, SegsApart, SegOk, EndOk;
  }

  lemma DroppedInSeg(C: Chunks, segs: seq<Seg>, i: nat, p: int)
    requires i < |segs| && Placed(C, segs, p) && p in C && C[p].size > 0
             && (p + C[p].size <= segs[i].base || segs[i].End() <= p)
    ensures InSeg(DroppedSegs(segs, i), p, p + C[p].size)
  {
    var segs' := DroppedSegs(segs, i);
    var j :| 0 <= j < |segs| && segs[j].base <= p && p + C[p].size <= segs[j].End();
    assert j != i;
    var k := if j < i then j else j - 1;
    assert segs'[k] == segs[j];
  }

  lemma DroppedKinds(C: Chunks, s: Seg, top: int, topsize: nat)
    requires KindsOk(C, top, topsize)
    ensures KindsOk(Dropped(C, s), top, topsize)
  {
  }

  lemma DroppedApart(segs: seq<Seg>, i: nat)
    requires SegsApart(segs) && i < |segs|
    ensures SegsApart(DroppedSegs(segs, i))
  {
    var segs' := DroppedSegs(segs, i);
    forall j, k | 0 <= j < k < |segs'| ensures segs'[j].End() <= segs'[k].base || segs'[k].End() <= segs'[j].base {
      TwoApart(segs, if j < i then j else j + 1, if k < i then k else k + 1);
    }
  }

  lemma DroppedSegsOk(C: Chunks, head: Heads, foot: Field, segs: seq<Seg>, top: int, topsize: nat, i: nat)
    requires Tags(C, head, foot) && SegsOk(C, segs, top, topsize) && IsIdle(C, segs, i)
    ensures SegsOk(Dropped(C, segs[i]), DroppedSegs(segs, i), top, topsize)
  {
    hide Tags, KindsOk, IsAligned, TopOk, EndOk, SegOk, SegsApart, Placed, FenceOk, Dropped;
    var C', segs' := Dropped(C, segs[i]), DroppedSegs(segs, i);
    DroppedKinds(C, segs[i], top, topsize);
    DroppedApart(segs, i);
    forall p ensures Placed(C', segs', p) && FenceOk(C', segs', p) {
      DroppedPlaced(C, head, foot, segs, top, topsize, i, p);
    }
    forall j | 0 <= j < |segs'|
      ensures SegOk(C', segs'[j]) && (if j == 0 then TopOk(C', segs'[0], top, topsize) else EndOk(C', segs'[j]))
    {
      var k := if j < i then j else j + 1;
      assert segs'[j] == segs[k];
      DroppedSeg(C, head, foot, segs, top, topsize, i, k);
    }
  }

  lemma DroppedUsed(C: Chunks, head: Heads, foot: Field, segs: seq<Seg>, top: int, topsize: nat, F: map<int, nat>,
                    live: set<int>, i: nat)
    requires Tags(C, head, foot) && SegsOk(C, segs, top, topsize) && PoolOk(C, F) && UsedOk(C, segs, live)
             && IsIdle(C, segs, i)
    ensures UsedOk(Dropped(C, segs[i]), DroppedSegs(segs, i), live)
    ensures forall q | q in live :: q in Dropped(C, segs[i]) && Dropped(C, segs[i])[q] == C[q]
  {
    hide Tags, SegsOk, PoolOk, IsRecord, DroppedSegs;
    IdleEnd(C, segs, top, topsize, i);
    RecordOfIdle(C, segs, i);
    forall p ensures IsRecord(DroppedSegs(segs, i), p) <==> IsRecord(segs, p) && p != segs[i].rec {
      DroppedRecords(C, head, foot, segs, top, topsize, i, p);
    }
  }

  lemma RecordOfIdle(C: Chunks, segs: seq<Seg>, i: nat)
    requires IsIdle(C, segs, i)
    ensures IsRecord(segs, segs[i].rec)
  {
  }

  lemma DroppedPool(C: Chunks, segs: seq<Seg>, top: int, topsize: nat, F: map<int, nat>, i: nat)
    requires SegsOk(C, segs, top, topsize) && PoolOk(C, F) && IsIdle(C, segs, i)
    ensures PoolOk(Dropped(C, segs[i]), F - {segs[i].base}) && segs[i].base in F
  {
    hide SegsOk, IsAligned;
    IdleEnd(C, segs, top, topsize, i);
  }

  lemma DroppedMaps(head: Heads, foot: Field, segs: seq<Seg>, maps: map<int, Region>, i: nat)
    requires MapsOk(maps, head, foot, segs) && i < |segs|
    ensures MapsOk(maps, head, foot, DroppedSegs(segs, i))
  {
    hide MapOk;
    var segs' := DroppedSegs(segs, i);
    forall p, j | p in maps && 0 <= j < |segs'| ensures Disjoint(maps[p], Region(segs'[j].base, segs'[j].size)) {
      var k := if j < i then j else j + 1;
      assert segs'[j] == segs[k] && Disjoint(maps[p], Region(segs[k].base, segs[k].size));
    }
  }

  /** An idle segment leaves the heap. */
  lemma DroppedViews(g: Ghost, head: Heads, foot: Field, segs: seq<Seg>, top: int, topsize: nat, F: map<int, nat>,
                     i: nat, d: Bytes,
                     B: map<int, nat>, ring: map<int, nat>)
    requires Whole(g, head, F, B, ring, d) && i < |segs| && segs[i].base !in B
    requires ViewsOk(g.C, head, foot, segs, top, topsize, F, g.live, g.maps) && IsIdle(g.C, segs, i)
    ensures segs[i].base in F
    ensures var g' := Ghost(Dropped(g.C, segs[i]), g.live, g.maps);
            && ViewsOk(g'.C, head, foot, DroppedSegs(segs, i), top, topsize, F - {segs[i].base}, g'.live, g'.maps)
            && Undisturbed(g, g', g.live, d, d) && Whole(g', head, F - {segs[i].base}, B, ring, d)
  {
    assert i < |segs|;
    DroppedWhole(g.C, head, g.maps, F, B, segs[i], d);
    hide LinksWhole, WordsOk, Tags, SegsOk, MapsOk, PoolOk, UsedOk, IsRecord, IsAligned, Dropped, DroppedSegs, IsIdle;
    DroppedTags(g.C, head, foot, segs, top, topsize, i);
    DroppedSegsOk(g.C, head, foot, segs, top, topsize, i);
    DroppedUsed(g.C, head, foot, segs, top, topsize, F, g.live, i);
    DroppedPool(g.C, segs, top, topsize, F, i);
    DroppedMaps(head, foot, segs, g.maps, i);
    UndisturbedRefl(g, head, foot, segs, top, topsize, F, d);
  }

  lemma DroppedWhole(C: Chunks, head: Heads, maps: map<int, Region>, F: map<int, nat>, B: map<int, nat>, s: Seg,
                     d: Bytes)
    requires WordsOk(C, head, maps, F, B, d) && s.base !in B
    ensures WordsOk(Dropped(C, s), head, maps, F - {s.base}, B, d)
  {
    hide HasWord;
    forall p ensures TagWhole(Dropped(C, s), head, d, p) {
      assert TagWhole(C, head, d, p);
    }
  }

  lemma FirstChunkKind(C: Chunks, head: Heads, foot: Field, segs: seq<Seg>, top: int, topsize: nat, i: nat)
    requires Tags(C, head, foot) && SegsOk(C, segs, top, topsize) && 1 <= i < |segs|
    ensures var b := segs[i].base; b in C && C[b].kind in {Used, Free}
  {
    BaseIsNoStop(C, head, foot, segs, top, topsize, i);
    BaseNoFence(C, head, foot, segs, top, topsize, i);
    hide Tags, SegOk, TopOk, EndOk, Placed, FenceOk, SegsApart;
  }

  /** Segment `s` is all free up to its record, and the fenceposts after that are no more than two; only the last one of
      a segment whose `top` had 16 bytes when it was closed is longer. */
  ghost predicate Releasable(C: Chunks, s: Seg) {
    s.base < s.rec && s.base in C && C[s.base] == Chunk(s.rec - s.base, Free) && s.End() <= s.rec + TOP_FOOT
  }

  /** The condition of `release_unused_segments` on the tags of the first chunk. */
  ghost predicate LooksIdle(head: Heads, s: Seg) {
    head.At(s.base).pinuse && !head.At(s.base).cinuse && s.base + head.At(s.base).size >= s.End() - TOP_FOOT
  }

  /** That condition is met exactly by the segments that can be released. */
  lemma IdleIff(g: Ghost, head: Heads, foot: Field, segs: seq<Seg>, top: int, topsize: nat, F: map<int, nat>, i: nat)
    requires ViewsOk(g.C, head, foot, segs, top, topsize, F, g.live, g.maps) && 1 <= i < |segs|
    ensures LooksIdle(head, segs[i]) <==> Releasable(g.C, segs[i])
  {
    hide SegsOk, MapsOk, PoolOk, UsedOk, InOrder;
    if LooksIdle(head, segs[i]) {
      IdleFound(g, head, foot, segs, top, topsize, F, i);
    }
    assert TagOk(g.C, head, foot, segs[i].base);
  }

  /** Dropping one segment leaves it open of every other whether it can be released. */
  lemma OthersReleasable(g: Ghost, head: Heads, foot: Field, segs: seq<Seg>, top: int, topsize: nat, F: map<int, nat>,
                         i: nat, k: nat)
    requires ViewsOk(g.C, head, foot, segs, top, topsize, F, g.live, g.maps) && IsIdle(g.C, segs, i)
             && k < |segs| && k != i
    ensures Releasable(Dropped(g.C, segs[i]), segs[k]) <==> Releasable(g.C, segs[k])
  {
    hide Tags, MapsOk, PoolOk, UsedOk, Placed, FenceOk, KindsOk, TopOk;
    TwoApart(segs, i, k);
    assert SegOk(g.C, segs[i]) && SegOk(g.C, segs[k]) && EndOk(g.C, segs[i]);
  }

  /** All segments that have gone could be released, and none has come. */
  ghost predicate OnlyIdleGone(segs: seq<Seg>, C: Chunks, segs': seq<Seg>) {
    (forall s | s in segs' :: s in segs) && (forall s | s in segs && s !in segs' :: Releasable(C, s))
  }

  /** None that could be released is there. */
  ghost predicate AllIdleGone(C: Chunks, segs: seq<Seg>) {
    forall s | s in segs :: !Releasable(C, s)
  }

  ghost predicate SameIdle(C: Chunks, C': Chunks, segs: seq<Seg>) {
    forall s | s in segs :: Releasable(C', s) <==> Releasable(C, s)
  }

  lemma FirstStays(g: Ghost, head: Heads, foot: Field, segs: seq<Seg>, top: int, topsize: nat, F: map<int, nat>)
    requires ViewsOk(g.C, head, foot, segs, top, topsize, F, g.live, g.maps) && segs != []
    ensures !Releasable(g.C, segs[0])
  {
    hide Tags, MapsOk, PoolOk, UsedOk, Placed, FenceOk, KindsOk, EndOk, SegsApart;
    assert SegOk(g.C, segs[0]);
  }

  lemma IdleDropped(g: Ghost, head: Heads, foot: Field, segs: seq<Seg>, top: int, topsize: nat, F: map<int, nat>,
                    i: nat, segs0: seq<Seg>, C0: Chunks)
    requires ViewsOk(g.C, head, foot, segs, top, topsize, F, g.live, g.maps) && i < |segs|
             && OnlyIdleGone(segs0, C0, segs) && SameIdle(C0, g.C, segs)
    ensures IsIdle(g.C, segs, i) && Releasable(g.C, segs[i]) ==>
              OnlyIdleGone(segs0, C0, DroppedSegs(segs, i))
              && SameIdle(C0, Dropped(g.C, segs[i]), DroppedSegs(segs, i))
    ensures |DroppedSegs(segs, i)| == |segs| - 1 && forall j | 0 <= j < i :: DroppedSegs(segs, i)[j] == segs[j]
  {
    hide ViewsOk, Releasable, Dropped, IsIdle;
    var segs' := DroppedSegs(segs, i);
    if IsIdle(g.C, segs, i) && Releasable(g.C, segs[i]) {
      forall s | s in segs' ensures s in segs && (Releasable(Dropped(g.C, segs[i]), s) <==> Releasable(C0, s)) {
        var j :| 0 <= j < |segs'| && segs'[j] == s;
        var k := if j < i then j else j + 1;
        assert segs[k] == s;
        OthersReleasable(g, head, foot, segs, top, topsize, F, i, k);
      }
      forall k | 0 <= k < |segs| && k != i ensures segs[k] in segs' {
        assert segs'[if k < i then k else k - 1] == segs[k];
      }
    }
  }

  /** What `release_unused_segments` looks for is an idle segment, whose chunk is large. */
  lemma IdleFound(g: Ghost, head: Heads, foot: Field, segs: seq<Seg>, top: int, topsize: nat, F: map<int, nat>, i: nat)
    requires ViewsOk(g.C, head, foot, segs, top, topsize, F, g.live, g.maps) && 1 <= i < |segs|
    requires var b := segs[i].base;
             head.At(b).pinuse && !head.At(b).cinuse && b + head.At(b).size >= segs[i].End() - TOP_FOOT
    ensures IsIdle(g.C, segs, i) && segs[i].base in F && F[segs[i].base] == head.At(segs[i].base).size >= MIN_LARGE
            && segs[i].base > 0
  {
    hide UsedOk, MapsOk, TopOk, KindsOk, FenceOk, Placed, SegsApart;
    FirstChunkKind(g.C, head, foot, segs, top, topsize, i);
    var s := segs[i];
    var b := s.base;
    assert SegOk(g.C, s) && EndOk(g.C, s) && TagOk(g.C, head, foot, b);
    var n := b + g.C[b].size;
    assert TagOk(g.C, head, foot, s.rec + RECORD) && TagOk(g.C, head, foot, n);
    assert InOrder(g.C, b, s.rec) && InOrder(g.C, n, s.rec) && InOrder(g.C, n, s.rec + RECORD);
  }

  lemma IdleApart(g: Ghost, head: Heads, foot: Field, segs: seq<Seg>, top: int, topsize: nat, F: map<int, nat>, i: nat)
    requires ViewsOk(g.C, head, foot, segs, top, topsize, F, g.live, g.maps) && IsIdle(g.C, segs, i)
    ensures SegsApart(segs) && forall p | p in g.maps ::
            g.maps[p].End() <= segs[i].base || segs[i].End() <= g.maps[p].base
  {
    hide Tags, PoolOk, UsedOk, TopOk, EndOk, Placed, FenceOk, SegOk, MapOk;
    forall p | p in g.maps ensures g.maps[p].End() <= segs[i].base || segs[i].End() <= g.maps[p].base {
      assert Disjoint(g.maps[p], Region(segs[i].base, segs[i].size));
    }
  }

  lemma SegmentHasSize(g: Ghost, head: Heads, foot: Field, segs: seq<Seg>, top: int, topsize: nat, F: map<int, nat>,
                       i: nat)
    requires ViewsOk(g.C, head, foot, segs, top, topsize, F, g.live, g.maps) && i < |segs|
    ensures segs[i].size > 0
  {
    hide Tags, PoolOk, UsedOk, TopOk, EndOk, Placed, FenceOk, MapsOk, SegsApart;
    assert SegOk(g.C, segs[i]);
  }

  lemma DroppedLength(segs: seq<Seg>, i: nat)
    requires i < |segs|
    ensures |DroppedSegs(segs, i)| == |segs| - 1
  {
  }
}
