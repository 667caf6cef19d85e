/** Chunks tile every segment, and the used chunks determine all others. */
module Tiling {
  import opened Sizes
  import opened Memory
  import opened Bins
  import opened Layout
  import opened Heap
  import opened Steps
  import opened Regions
  import opened Segments

  /** Chunk `p` begins in segment `i`. */
  ghost predicate Inside(segs: seq<Seg>, i: nat, p: int) {
    i < |segs| && segs[i].base <= p < segs[i].End()
  }

  /** A chunk that begins in a segment ends in it. */
  lemma StaysWithin(C: Chunks, head: Heads, foot: Field, segs: seq<Seg>, top: int, topsize: nat, i: nat, p: int)
    requires Tags(C, head, foot) && SegsOk(C, segs, top, topsize) && p in C && Inside(segs, i, p)
    ensures p + C[p].size <= segs[i].End() && C[p].size > 0
  {
    hide TopOk, EndOk, SegOk, KindsOk, FenceOk, HeadOk, AfterFree, MayFollow, IsAligned;
    assert TagOk(C, head, foot, p) && Placed(C, segs, p);
    var j :| 0 <= j < |segs| && segs[j].base <= p && p + C[p].size <= segs[j].End();
    TwoApart(segs, i, j);
  }

  /** Only the last chunk of a segment stops it. */
  lemma StopIsLast(C: Chunks, head: Heads, foot: Field, segs: seq<Seg>, top: int, topsize: nat, i: nat, p: int)
    requires Tags(C, head, foot) && SegsOk(C, segs, top, topsize) && p in C && Inside(segs, i, p) && Stops(C[p].kind)
    ensures p + C[p].size == segs[i].End()
  {
    if C[p].kind == Foot {
      FootIsLast(C, head, foot, segs, top, topsize, i, p);
    } else {
      FenceIsLast(C, head, foot, segs, top, topsize, i, p);
    }
  }

  lemma FootIsLast(C: Chunks, head: Heads, foot: Field, segs: seq<Seg>, top: int, topsize: nat, i: nat, p: int)
    requires Tags(C, head, foot) && SegsOk(C, segs, top, topsize) && p in C && Inside(segs, i, p) && C[p].kind == Foot
    ensures p + C[p].size == segs[i].End()
  {
    hide EndOk, FenceOk, Placed, HeadOk, AfterFree, MayFollow, IsAligned;
    assert TagOk(C, head, foot, top);
    TwoApart(segs, 0, i);
  }

  lemma FenceIsLast(C: Chunks, head: Heads, foot: Field, segs: seq<Seg>, top: int, topsize: nat, i: nat, p: int)
    requires Tags(C, head, foot) && SegsOk(C, segs, top, topsize) && p in C && Inside(segs, i, p) && C[p].kind == Fence
    ensures p + C[p].size == segs[i].End()
  {
    hide TopOk, KindsOk, Placed, Tags, SegOk, IsRecord;
    FenceIsPositive(C, head, foot, p);
    assert FenceOk(C, segs, p);
    var k := RecordIndex(segs, p - RECORD);
    assert EndOk(C, segs[k]);
    if k != i { TwoApart(segs, k, i); }
  }

  lemma FenceIsPositive(C: Chunks, head: Heads, foot: Field, p: int)
    requires Tags(C, head, foot) && p in C
    ensures C[p].size > 0
  {
    hide InOrder;
    assert TagOk(C, head, foot, p);
  }

  lemma RecordIndex(segs: seq<Seg>, r: int) returns (k: nat)
    requires IsRecord(segs, r)
    ensures 1 <= k < |segs| && segs[k].rec == r
  {
    k :| 1 <= k < |segs| && segs[k].rec == r;
  }

  /** Walking from chunk `q` comes to every later address of the segment. */
  lemma {:induction false} Covered(C: Chunks, head: Heads, foot: Field, segs: seq<Seg>, top: int, topsize: nat, i: nat,
                                   q: int, a: int) returns (p: int)
    requires Tags(C, head, foot) && SegsOk(C, segs, top, topsize) && q in C && Inside(segs, i, q)
             && q <= a < segs[i].End()
    ensures p in C && q <= p <= a < p + C[p].size && (a in C ==> p == a)
    ensures a in C && a != q ==> exists o :: o in C && q <= o && o + C[o].size == a && !Stops(C[o].kind)
    decreases a - q
  {
    hide SegsOk, HeadOk, AfterFree, IsAligned;
    StaysWithin(C, head, foot, segs, top, topsize, i, q);
    assert InOrder(C, q, a);
    var n := q + C[q].size;
    if a < n {
      p := q;
    } else {
      if Stops(C[q].kind) {
        StopIsLast(C, head, foot, segs, top, topsize, i, q);
      }
      assert TagOk(C, head, foot, q);
      p := Covered(C, head, foot, segs, top, topsize, i, n, a);
      if a == n {
        assert q in C && q + C[q].size == a && !Stops(C[q].kind);
      }
    }
  }

  /** The chunks tile every segment: each of its addresses lies in exactly one chunk. */
  lemma Tiled(C: Chunks, head: Heads, foot: Field, segs: seq<Seg>, top: int, topsize: nat, i: nat, a: int)
    requires Tags(C, head, foot) && SegsOk(C, segs, top, topsize) && Inside(segs, i, a)
    ensures exists p :: p in C && p <= a < p + C[p].size && forall q :: q in C && q <= a < q + C[q].size ==> q == p
  {
    hide HeadOk, AfterFree, MayFollow, IsAligned, TopOk, EndOk, Placed, FenceOk, KindsOk, SegsApart;
    assert SegOk(C, segs[i]);
    var p := Covered(C, head, foot, segs, top, topsize, i, segs[i].base, a);
    forall q | q in C && q <= a < q + C[q].size ensures q == p {
      assert InOrder(C, p, q) && InOrder(C, q, p);
    }
  }

  // ----- what the used chunks determine

  /** A layout with its tags, segments and used chunks. */
  ghost predicate World(C: Chunks, head: Heads, foot: Field, segs: seq<Seg>, top: int, topsize: nat, live: set<int>) {
    Tags(C, head, foot) && SegsOk(C, segs, top, topsize) && UsedOk(C, segs, live)
  }

  ghost predicate SameLive(C: Chunks, D: Chunks, live: set<int>) {
    forall p | p in live :: p in C && p in D && D[p] == C[p]
  }

  lemma SharedUsed(C: Chunks, D: Chunks, segs: seq<Seg>, top: int, topsize: nat, top': int, topsize': nat,
                   live: set<int>, p: int)
    requires SegsOk(C, segs, top, topsize) && SegsOk(D, segs, top', topsize') && UsedOk(C, segs, live)
             && SameLive(C, D, live) && p in C && C[p].kind == Used
    ensures p in D && D[p] == C[p]
  {
    hide SegsOk, IsRecord;
    RecordsInside(C, segs, top, topsize, p);
    RecordsInside(D, segs, top', topsize', p);
  }

  lemma SharedStop(C: Chunks, D: Chunks, segs: seq<Seg>, top: int, topsize: nat, top': int, topsize': nat, p: int)
    requires SegsOk(C, segs, top, topsize) && SegsOk(D, segs, top', topsize') && p in C && Stops(C[p].kind)
    ensures p in D && D[p] == C[p]
  {
    hide SegsOk;
    if C[p].kind == Fence {
      SharedFence(C, D, segs, top, topsize, top', topsize', p);
    } else {
      SharedFoot(C, D, segs, top, topsize, top', topsize', p);
    }
  }

  lemma SharedFence(C: Chunks, D: Chunks, segs: seq<Seg>, top: int, topsize: nat, top': int, topsize': nat, p: int)
    requires SegsOk(C, segs, top, topsize) && SegsOk(D, segs, top', topsize') && p in C && C[p].kind == Fence
    ensures p in D && D[p] == C[p]
  {
    hide SegOk, Placed, SegsApart, TopOk, KindsOk;
    assert FenceOk(C, segs, p);
    FenceRecord(C, segs, p);
    var k :| 1 <= k < |segs| && segs[k].rec == p - RECORD;
    assert EndOk(C, segs[k]) && EndOk(D, segs[k]);
  }

  lemma SharedFoot(C: Chunks, D: Chunks, segs: seq<Seg>, top: int, topsize: nat, top': int, topsize': nat, p: int)
    requires SegsOk(C, segs, top, topsize) && SegsOk(D, segs, top', topsize') && p in C && C[p].kind == Foot
    ensures p in D && D[p] == C[p]
  {
    assert Placed(C, segs, p);
    hide SegOk, SegsApart, EndOk, FenceOk;
  }

  /** A chunk that is neither used nor stops a segment begins at the same place in both layouts. */
  lemma SharedStart(C: Chunks, head: Heads, foot: Field, D: Chunks, head': Heads, foot': Field, segs: seq<Seg>,
                    top: int, topsize: nat, top': int, topsize': nat, live: set<int>, p: int)
    requires World(C, head, foot, segs, top, topsize, live) && World(D, head', foot', segs, top', topsize', live)
             && SameLive(C, D, live)
    requires p in C && (C[p].kind == Kind.Free || C[p].kind == Top)
    ensures p in D
  {
    hide SegsOk, UsedOk, Tags;
    var i, o := FreeStart(C, head, foot, segs, top, topsize, p);
    if p == segs[i].base {
      BaseThere(D, segs, top', topsize', i);
    } else {
      SharedUsed(C, D, segs, top, topsize, top', topsize', live, o);
      UsedNext(D, head', foot', o);
    }
  }

  /** A free chunk or `top` begins its segment or follows a used chunk. */
  lemma FreeStart(C: Chunks, head: Heads, foot: Field, segs: seq<Seg>, top: int, topsize: nat, p: int)
      returns (i: nat, o: int)
    requires Tags(C, head, foot) && SegsOk(C, segs, top, topsize) && p in C
             && (C[p].kind == Kind.Free || C[p].kind == Top)
    ensures i < |segs| && (p == segs[i].base || (o in C && C[o].kind == Used && o + C[o].size == p))
  {
    hide TopOk, EndOk, KindsOk, FenceOk, SegsApart, HeadOk, AfterFree, IsAligned;
    assert Placed(C, segs, p) && TagOk(C, head, foot, p);
    i :| 0 <= i < |segs| && segs[i].base <= p && p + C[p].size <= segs[i].End();
    o := p;
    assert SegOk(C, segs[i]);
    if p != segs[i].base {
      var q := Covered(C, head, foot, segs, top, topsize, i, segs[i].base, p);
      o :| o in C && segs[i].base <= o && o + C[o].size == p && !Stops(C[o].kind);
      assert TagOk(C, head, foot, o);
    }
  }

  lemma BaseThere(C: Chunks, segs: seq<Seg>, top: int, topsize: nat, i: nat)
    requires SegsOk(C, segs, top, topsize) && i < |segs|
    ensures segs[i].base in C
  {
    hide TopOk, EndOk, KindsOk, FenceOk, SegsApart, Placed, IsAligned;
    assert SegOk(C, segs[i]);
  }

  lemma UsedNext(C: Chunks, head: Heads, foot: Field, o: int)
    requires Tags(C, head, foot) && o in C && C[o].kind == Used
    ensures o + C[o].size in C
  {
    assert TagOk(C, head, foot, o);
  }

  lemma SharedEnd(C: Chunks, head: Heads, foot: Field, D: Chunks, head': Heads, foot': Field, segs: seq<Seg>, top: int,
                  topsize: nat, top': int, topsize': nat, live: set<int>, p: int)
    requires World(C, head, foot, segs, top, topsize, live) && World(D, head', foot', segs, top', topsize', live)
             && SameLive(C, D, live)
    requires p in C && (C[p].kind == Kind.Free || C[p].kind == Top) && p in D
    ensures p + D[p].size <= p + C[p].size && p + C[p].size in C && p + C[p].size in D
            && D[p + C[p].size] == C[p + C[p].size]
  {
    hide SegsOk, UsedOk, HeadOk, AfterFree, IsAligned;
    assert TagOk(C, head, foot, p);
    var n := p + C[p].size;
    if C[p].kind == Kind.Free {
      SharedUsed(C, D, segs, top, topsize, top', topsize', live, n);
    } else {
      SharedStop(C, D, segs, top, topsize, top', topsize', n);
    }
    assert InOrder(D, p, n);
  }

  lemma NotUsed(C: Chunks, D: Chunks, segs: seq<Seg>, top: int, topsize: nat, top': int, topsize': nat, live: set<int>,
                p: int)
    requires SegsOk(C, segs, top, topsize) && SegsOk(D, segs, top', topsize') && UsedOk(D, segs, live)
             && SameLive(C, D, live)
    requires p in C && (C[p].kind == Kind.Free || C[p].kind == Top) && p in D
    ensures D[p].kind == Kind.Free || D[p].kind == Top
  {
    hide SegsOk, UsedOk;
    if D[p].kind == Used {
      SharedUsed(D, C, segs, top', topsize', top, topsize, live, p);
    } else if Stops(D[p].kind) {
      SharedStop(D, C, segs, top', topsize', top, topsize, p);
    }
  }

  lemma SharedChunk(C: Chunks, head: Heads, foot: Field, D: Chunks, head': Heads, foot': Field, segs: seq<Seg>,
                    top: int, topsize: nat, top': int, topsize': nat, live: set<int>, p: int)
    requires World(C, head, foot, segs, top, topsize, live) && World(D, head', foot', segs, top', topsize', live)
             && SameLive(C, D, live) && p in C
    ensures p in D && D[p] == C[p]
  {
    hide Tags, SegsOk, UsedOk, SameLive;
    if C[p].kind == Used {
      SharedUsed(C, D, segs, top, topsize, top', topsize', live, p);
    } else if Stops(C[p].kind) {
      SharedStop(C, D, segs, top, topsize, top', topsize', p);
    } else {
      SharedStart(C, head, foot, D, head', foot', segs, top, topsize, top', topsize', live, p);
      NotUsed(C, D, segs, top, topsize, top', topsize', live, p);
      LiveBothWays(C, D, live);
      SharedEnd(C, head, foot, D, head', foot', segs, top, topsize, top', topsize', live, p);
      SharedEnd(D, head', foot', C, head, foot, segs, top', topsize', top, topsize, live, p);
      NextTells(C, head, foot, p);
      NextTells(D, head', foot', p);
    }
  }

  lemma LiveBothWays(C: Chunks, D: Chunks, live: set<int>)
    requires SameLive(C, D, live)
    ensures SameLive(D, C, live)
  {
  }

  lemma NextTells(C: Chunks, head: Heads, foot: Field, p: int)
    requires Tags(C, head, foot) && p in C && (C[p].kind == Kind.Free || C[p].kind == Top)
    ensures p + C[p].size in C && (C[p].kind == Kind.Free <==> C[p + C[p].size].kind == Used)
  {
    assert TagOk(C, head, foot, p);
  }

  /** The segments and the chunks handed out determine the whole layout, and with it `top` and the free chunks: how
      and in what order the other chunks were given back leaves no trace. */
  lemma LayoutDetermined(g: Ghost, head: Heads, foot: Field, top: int, topsize: nat, F: map<int, nat>, g': Ghost,
                         head': Heads, foot': Field, top': int, topsize': nat, F': map<int, nat>, segs: seq<Seg>)
    requires ViewsOk(g.C, head, foot, segs, top, topsize, F, g.live, g.maps)
             && ViewsOk(g'.C, head', foot', segs, top', topsize', F', g'.live, g'.maps)
    requires g'.live == g.live && forall p | p in g.live :: p in g.C && p in g'.C && g'.C[p] == g.C[p]
    ensures g'.C == g.C && F' == F && top' == top && topsize' == topsize
  {
    hide Tags, SegsOk, UsedOk, MapsOk;
    LiveBothWays(g.C, g'.C, g.live);
    forall p ensures (p in g.C ==> p in g'.C && g'.C[p] == g.C[p]) && (p in g'.C ==> p in g.C) {
      if p in g.C {
        SharedChunk(g.C, head, foot, g'.C, head', foot', segs, top, topsize, top', topsize', g.live, p);
      }
      if p in g'.C {
        SharedChunk(g'.C, head', foot', g.C, head, foot, segs, top', topsize', top, topsize, g.live, p);
      }
    }
    assert g'.C == g.C;
    PoolDetermined(g.C, F, F');
    TopDetermined(g.C, segs, top, topsize, top', topsize');
  }

  lemma PoolDetermined(C: Chunks, F: map<int, nat>, F': map<int, nat>)
    requires PoolOk(C, F) && PoolOk(C, F')
    ensures F' == F
  {
    forall p ensures p in F <==> p in F' {
      assert p in F || p in F' ==> IsFree(C, p);
    }
    assert forall p | p in F :: F'[p] == F[p];
    assert F' == F;
  }

  lemma TopDetermined(C: Chunks, segs: seq<Seg>, top: int, topsize: nat, top': int, topsize': nat)
    requires SegsOk(C, segs, top, topsize) && SegsOk(C, segs, top', topsize')
    ensures top' == top && topsize' == topsize
  {
    hide EndOk, SegOk, Placed, FenceOk, SegsApart;
  }
}
