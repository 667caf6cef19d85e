/** The blocks a caller holds, whether they lie in segments or in mappings of their own. */
module Blocks {
  import opened Sizes
  import opened Memory
  import opened Bins
  import opened Layout
  import opened Heap
  import opened System
  import opened Books
  import opened Steps
  import opened Words
  import opened Ledger
  import opened Resize

  /** Chunk `q` has been handed out from a segment. */
  ghost predicate InSegment(g: Ghost, q: int) {
    q in g.live && q in g.C
  }

  /** The bytes of the block in chunk `q` are those from `q + 16` up to here. */
  ghost function BlockEnd(g: Ghost, q: int): int {
    if InSegment(g, q) then q + g.C[q].size + 8 else if q in g.maps then g.maps[q].End() - 32 else q + 16
  }

  /** The block in chunk `q` is the same in both states, bytes included. */
  ghost predicate SameBlock(g: Ghost, g': Ghost, q: int, d: Bytes, d': Bytes) {
    && ((InSegment(g, q) && InSegment(g', q) && g'.C[q] == g.C[q])
    || (!InSegment(g, q) && !InSegment(g', q) && q in g.maps && q in g'.maps && g'.maps[q] == g.maps[q]))
    && forall a {:trigger d'.At(a)} | q + 16 <= a < BlockEnd(g, q) :: d'.At(a) == d.At(a)
  }

  ghost predicate Keeps(g: Ghost, g': Ghost, S: set<int>, d: Bytes, d': Bytes) {
    forall q | q in S :: SameBlock(g, g', q, d, d')
  }

  /** A chunk of a segment is no mapped chunk. */
  lemma MapsElsewhere(g: Ghost, head: Heads, foot: Field, segs: seq<Seg>, top: int, topsize: nat, F: map<int, nat>)
    requires ViewsOk(g.C, head, foot, segs, top, topsize, F, g.live, g.maps)
    ensures forall q | q in g.maps :: q !in g.C && q !in g.live && q > 0
    ensures forall q | q in g.live :: q in g.C
  {
    hide IsRecord;
    forall q | q in g.maps ensures q !in g.C && q !in g.live && q > 0 {
      MapNotChunk(g.C, head, foot, segs, top, topsize, g.maps, q);
    }
  }

  lemma MapNotChunk(C: Chunks, head: Heads, foot: Field, segs: seq<Seg>, top: int, topsize: nat, maps: map<int, Region>,
                    q: int)
    requires Tags(C, head, foot) && SegsOk(C, segs, top, topsize) && MapsOk(maps, head, foot, segs) && q in maps
    ensures q !in C && q > 0
  {
    hide TopOk, EndOk, SegOk, SegsApart, KindsOk, HeadOk, AfterFree, MayFollow, FenceOk, IsAligned;
    assert MapOk(maps[q], head, foot, q) && TagOk(C, head, foot, q) && Placed(C, segs, q);
    assert forall i | 0 <= i < |segs| :: Disjoint(maps[q], Region(segs[i].base, segs[i].size));
  }

  lemma UndisturbedKeeps(g: Ghost, g': Ghost, L: set<int>, d: Bytes, d': Bytes)
    requires Undisturbed(g, g', L, d, d') && L <= g.live && L <= g'.live
    requires (forall q | q in g.maps :: q !in g.C && q !in g.live)
             && (forall q | q in g'.maps :: q !in g'.C && q !in g'.live)
    ensures Keeps(g, g', L + g.maps.Keys, d, d')
  {
    forall q | q in L + g.maps.Keys ensures SameBlock(g, g', q, d, d') {
      forall a | q + 16 <= a < BlockEnd(g, q) ensures d'.At(a) == d.At(a) {
        assert InPayload(g.C, g.maps, L, a);
      }
    }
  }

  lemma KeepsTrans(g0: Ghost, g1: Ghost, g2: Ghost, S0: set<int>, S1: set<int>, S: set<int>, d0: Bytes, d1: Bytes,
                   d2: Bytes)
    requires Keeps(g0, g1, S0, d0, d1) && Keeps(g1, g2, S1, d1, d2) && S <= S0 && S <= S1
    ensures Keeps(g0, g2, S, d0, d2)
  {
    forall q | q in S ensures SameBlock(g0, g2, q, d0, d2) {
      assert SameBlock(g0, g1, q, d0, d1) && SameBlock(g1, g2, q, d1, d2);
    }
  }

  /** A new block of at least `n` bytes at `p`, aligned, and all old ones kept. */
  ghost predicate NewBlock(g: Ghost, g': Ghost, p: int, n: nat, d: Bytes, d': Bytes) {
    && p > 0 && IsAligned(p) && p !in g.live && p !in g.maps
    && (if p in g'.live then g'.live == g.live + {p} && g'.maps == g.maps else
       g'.live == g.live && g'.maps.Keys == g.maps.Keys + {p})
    && p + 16 + n <= BlockEnd(g', p) && Keeps(g, g', g.live + g.maps.Keys, d, d')
    && (p !in g'.live ==> AllZero(d', p + 16, BlockEnd(g', p)))
  }

  /** In a segment, the chunk at `p` has less than a smallest chunk more than `nb` bytes. */
  ghost predicate Snug(g: Ghost, p: int, nb: nat) {
    p in g.live ==> p in g.C && nb <= g.C[p].size < nb + MIN_CHUNK
  }

  lemma SnugKept(g: Ghost, g': Ghost, S: set<int>, p: int, nb: nat, d: Bytes, d': Bytes)
    requires Keeps(g, g', S, d, d') && p in S && Snug(g, p, nb) && (forall q | q in g'.live :: q in g'.C)
    ensures Snug(g', p, nb)
  {
    assert SameBlock(g, g', p, d, d');
  }

  lemma GaveBlock(g: Ghost, g': Ghost, head: Heads, foot: Field, segs: seq<Seg>, top: int, topsize: nat,
                  F: map<int, nat>,
                  head': Heads, foot': Field, segs': seq<Seg>, top': int, topsize': nat, F': map<int, nat>, p: int,
                  nb: nat, n: nat, d: Bytes, d': Bytes)
    requires ViewsOk(g.C, head, foot, segs, top, topsize, F, g.live, g.maps)
             && ViewsOk(g'.C, head', foot', segs', top', topsize', F', g'.live, g'.maps)
    requires Gave(g, g', p, nb, d, d') && n + 8 <= nb
    ensures NewBlock(g, g', p, n, d, d') && Snug(g', p, nb)
  {
    hide Tags, SegsOk, PoolOk, UsedOk, MapsOk, Undisturbed, Keeps, AllZero;
    MapsElsewhere(g, head, foot, segs, top, topsize, F);
    MapsElsewhere(g', head', foot', segs', top', topsize', F');
    ChunkFits(g'.C, head', foot', segs', top', topsize', p);
    MapsOfUndisturbed(g, g', g.live, d, d');
    UndisturbedKeeps(g, g', g.live, d, d');
  }

  lemma MappedBlock(g: Ghost, g': Ghost, head: Heads, foot: Field, segs: seq<Seg>, top: int, topsize: nat,
                    F: map<int, nat>, p: int, nb: nat, n: nat, d: Bytes, d': Bytes)
    requires ViewsOk(g.C, head, foot, segs, top, topsize, F, g.live, g.maps) && Mapped(g, g', p, nb, d, d')
             && n + 8 <= nb
    ensures NewBlock(g, g', p, n, d, d') && Snug(g', p, nb) && p !in g'.live
  {
    hide AllZero;
    MapsElsewhere(g, head, foot, segs, top, topsize, F);
    UndisturbedKeeps(g, g, g.live, d, d');
    hide Tags, SegsOk, PoolOk, UsedOk, MapsOk, Undisturbed;
    forall q | q in g.live + g.maps.Keys ensures SameBlock(g, g', q, d, d') {
      assert SameBlock(g, g, q, d, d');
    }
  }

  /** The tags of a mapped chunk give back its region. */
  lemma MapTags(g: Ghost, head: Heads, foot: Field, segs: seq<Seg>, top: int, topsize: nat, F: map<int, nat>, p: int)
    requires ViewsOk(g.C, head, foot, segs, top, topsize, F, g.live, g.maps) && p in g.maps
    ensures var r := g.maps[p];
            0 <= foot.At(p) && p - foot.At(p) == r.base && head.At(p).size + foot.At(p) + 32 == r.size
            && !head.At(p).pinuse && !head.At(p).cinuse
    ensures (forall q | q in g.maps && q != p :: Disjoint(g.maps[p], g.maps[q]))
            && (forall i | 0 <= i < |segs| :: Disjoint(g.maps[p], Region(segs[i].base, segs[i].size)))
  {
    hide Tags, SegsOk, PoolOk, UsedOk;
    assert MapOk(g.maps[p], head, foot, p);
  }

  /** A mapped chunk ends in a fencepost that says that it is in use. */
  lemma MapFence(g: Ghost, head: Heads, foot: Field, segs: seq<Seg>, top: int, topsize: nat, F: map<int, nat>, p: int)
    requires ViewsOk(g.C, head, foot, segs, top, topsize, F, g.live, g.maps) && p in g.maps
    ensures head.At(p).size >= MIN_CHUNK && head.At(p + head.At(p).size).pinuse && g.maps[p].base <= p
  {
    hide Tags, SegsOk, PoolOk, UsedOk;
    assert MapOk(g.maps[p], head, foot, p);
  }

  /** A mapped chunk gone, all other blocks are as they were. */
  lemma UnmappedKeeps(g: Ghost, p: int, d: Bytes)
    requires p in g.maps && p !in g.live && (forall q | q in g.live :: q in g.C)
             && (forall q | q in g.maps :: q !in g.live)
    ensures Keeps(g, Ghost(g.C, g.live, g.maps - {p}), g.live + g.maps.Keys - {p}, d, d)
  {
  }

  lemma SelfKeeps(g: Ghost, d: Bytes)
    requires (forall q | q in g.live :: q in g.C) && (forall q | q in g.maps :: q !in g.live)
    ensures Keeps(g, g, g.live + g.maps.Keys, d, d)
  {
  }

  lemma KeepsFewer(g: Ghost, g': Ghost, S: set<int>, S': set<int>, d: Bytes, d': Bytes)
    requires Keeps(g, g', S, d, d') && S' <= S
    ensures Keeps(g, g', S', d, d')
  {
    hide SameBlock;
  }

  /** Chunks in segments and mapped chunks told apart by their heads. */
  lemma HeadTellsMapped(g: Ghost, head: Heads, foot: Field, segs: seq<Seg>, top: int, topsize: nat, F: map<int, nat>,
                        p: int)
    requires ViewsOk(g.C, head, foot, segs, top, topsize, F, g.live, g.maps) && (p in g.live || p in g.maps)
    ensures p in g.maps <==> !head.At(p).pinuse && !head.At(p).cinuse
    ensures p in g.maps <==> p !in g.live
  {
    hide Tags, SegsOk, PoolOk, MapsOk, UsedOk;
    MapsElsewhere(g, head, foot, segs, top, topsize, F);
    if p in g.maps {
      MapTags(g, head, foot, segs, top, topsize, F, p);
    } else {
      Neighbours(g.C, head, foot, segs, top, topsize, F, g.live, p);
    }
  }

  lemma NoBlockBelowZero(g: Ghost, head: Heads, foot: Field, segs: seq<Seg>, top: int, topsize: nat, F: map<int, nat>)
    requires ViewsOk(g.C, head, foot, segs, top, topsize, F, g.live, g.maps)
    ensures forall q | q in g.live || q in g.maps :: q > 0
  {
    hide Tags, SegsOk, PoolOk, MapsOk, IsRecord;
    MapsElsewhere(g, head, foot, segs, top, topsize, F);
    forall q | q in g.live ensures q > 0 {
      ChunkFits(g.C, head, foot, segs, top, topsize, q);
    }
  }

  /** The block in chunk `p` now has room for `n` bytes; its bytes are kept as far as it reaches before and after,
      and all other blocks are kept. */
  ghost predicate InPlace(g: Ghost, g': Ghost, p: int, n: nat, d: Bytes, d': Bytes) {
    && g'.live == g.live && g'.maps == g.maps && p + 16 + n <= BlockEnd(g', p)
    && FrontKept(p, Min(BlockEnd(g, p), BlockEnd(g', p)), d, d') && Keeps(g, g', g.live + g.maps.Keys - {p}, d, d')
  }

  lemma ResizedInPlace(g: Ghost, g': Ghost, p: int, nb: nat, n: nat, d: Bytes, d': Bytes)
    requires ResizedTo(g, g', p, nb, d, d') && n + 8 <= nb
    requires (forall q | q in g.maps :: q !in g.C && q !in g.live)
             && (forall q | q in g'.maps :: q !in g'.C && q !in g'.live)
    ensures InPlace(g, g', p, n, d, d')
  {
    hide Kept, FrontKept, Keeps;
    UndisturbedKeeps(g, g', g.live - {p}, d, d');
    assert g.live - {p} + g.maps.Keys == g.live + g.maps.Keys - {p};
  }

  lemma SameInPlace(g: Ghost, p: int, n: nat, d: Bytes)
    requires p in g.live || p in g.maps
    requires (forall q | q in g.live :: q in g.C) && (forall q | q in g.maps :: q !in g.live)
             && p + 16 + n <= BlockEnd(g, p)
    ensures InPlace(g, g, p, n, d, d)
  {
  }

  // ----- blocks never overlap

  lemma SegmentBlocksApart(C: Chunks, head: Heads, foot: Field, q: int, r: int)
    requires Tags(C, head, foot) && q in C && r in C && q < r
    ensures q + C[q].size + 8 <= r + 16
  {
    assert InOrder(C, q, r);
  }

  /** A used chunk, with the word behind it, is clear of every mapping. */
  lemma MapsApart(g: Ghost, head: Heads, foot: Field, segs: seq<Seg>, top: int, topsize: nat, F: map<int, nat>, q: int,
                  r: int)
    requires ViewsOk(g.C, head, foot, segs, top, topsize, F, g.live, g.maps) && q in g.live && q in g.C && r in g.maps
    ensures q + g.C[q].size + 8 <= g.maps[r].base || g.maps[r].End() <= q
  {
    hide PoolOk, UsedOk, TopOk, EndOk, SegOk, SegsApart, KindsOk, HeadOk, AfterFree, MayFollow, FenceOk, IsAligned;
    Neighbours(g.C, head, foot, segs, top, topsize, F, g.live, q);
    var n := q + g.C[q].size;
    ChunkFits(g.C, head, foot, segs, top, topsize, n);
    assert TagOk(g.C, head, foot, n) && Placed(g.C, segs, q) && Placed(g.C, segs, n);
    var i :| 0 <= i < |segs| && segs[i].base <= q && n <= segs[i].End();
    var j :| 0 <= j < |segs| && segs[j].base <= n && n + g.C[n].size <= segs[j].End();
    assert MapOk(g.maps[r], head, foot, r) && Disjoint(g.maps[r], Region(segs[i].base, segs[i].size))
           && Disjoint(g.maps[r], Region(segs[j].base, segs[j].size));
    SizeSixteen(g.C, head, foot, n);
  }

  lemma SizeSixteen(C: Chunks, head: Heads, foot: Field, p: int)
    requires Tags(C, head, foot) && p in C
    ensures C[p].size >= 16
  {
    assert TagOk(C, head, foot, p);
  }

  /** The blocks of different chunks do not overlap. */
  lemma BlocksApart(g: Ghost, head: Heads, foot: Field, segs: seq<Seg>, top: int, topsize: nat, F: map<int, nat>,
                    q: int, r: int)
    requires ViewsOk(g.C, head, foot, segs, top, topsize, F, g.live, g.maps)
    requires (q in g.live || q in g.maps) && (r in g.live || r in g.maps) && q != r
    ensures BlockEnd(g, q) <= r + 16 || BlockEnd(g, r) <= q + 16
  {
    MapsElsewhere(g, head, foot, segs, top, topsize, F);
    hide SegsOk, PoolOk, UsedOk;
    if q in g.live && r in g.live {
      SegmentBlocksApart(g.C, head, foot, if q < r then q else r, if q < r then r else q);
    } else if q in g.live {
      MapsApart(g, head, foot, segs, top, topsize, F, q, r);
      assert MapOk(g.maps[r], head, foot, r);
    } else if r in g.live {
      MapsApart(g, head, foot, segs, top, topsize, F, r, q);
      assert MapOk(g.maps[q], head, foot, q);
    } else {
      assert MapOk(g.maps[q], head, foot, q) && MapOk(g.maps[r], head, foot, r) && Disjoint(g.maps[q], g.maps[r]);
    }
  }

  /** Writes inside one block leave all others alone. */
  lemma WritesKeep(g: Ghost, head: Heads, foot: Field, segs: seq<Seg>, top: int, topsize: nat, F: map<int, nat>, p: int,
                   d: Bytes, d': Bytes,
                   B: map<int, nat>, ring: map<int, nat>)
    requires ViewsOk(g.C, head, foot, segs, top, topsize, F, g.live, g.maps) && (p in g.live || p in g.maps)
             && SameOutside(d, d', p + 16, BlockEnd(g, p))
    requires Whole(g, head, F, B, ring, d)
    ensures Keeps(g, g, g.live + g.maps.Keys - {p}, d, d') && Whole(g, head, F, B, ring, d')
  {
    MapsElsewhere(g, head, foot, segs, top, topsize, F);
    if p in g.live {
      ChunkWritten(g, head, foot, segs, top, topsize, F, p, d, d', B, ring);
    } else {
      MapWritten(g, head, foot, segs, top, topsize, F, p, d, d', B, ring);
    }
    hide Whole;
    hide ViewsOk;
    forall q | q in g.live + g.maps.Keys - {p} ensures SameBlock(g, g, q, d, d') {
      BlocksApart(g, head, foot, segs, top, topsize, F, p, q);
    }
  }

  /** A caller's writes into a block of a segment, which ends with the `_prev_foot` of the next chunk, spoil no word. */
  lemma ChunkWritten(g: Ghost, head: Heads, foot: Field, segs: seq<Seg>, top: int, topsize: nat, F: map<int, nat>,
                     p: int, d: Bytes, d': Bytes,
                     B: map<int, nat>, ring: map<int, nat>)
    requires ViewsOk(g.C, head, foot, segs, top, topsize, F, g.live, g.maps) && p in g.live && p in g.C
             && SameOutside(d, d', p + 16, p + g.C[p].size + 8)
    requires Whole(g, head, F, B, ring, d)
    ensures Whole(g, head, F, B, ring, d')
  {
    hide LinksWhole, SegsOk, MapsOk, IsRecord;
    var n := p + g.C[p].size;
    assert TagOk(g.C, head, foot, p) && TagWhole(g.C, head, d, n);
    WordStays(d, d', p + 16, n + 8, n + 8, HeadW);
    BlockTouched(g.C, g.maps, p, d, d');
    assert TagWhole(g.C, head, d', n);
    assert p !in B;
    hide Tags, PoolOk, UsedOk, HasWord, SameOutside;
    WordsStay(g.C, head, g.maps, F, g.C, head, foot, segs, top, topsize, F, g.live, g.maps, B, ring, {n}, {p}, {}, d,
              d');
  }

  lemma BlockTouched(C: Chunks, maps: map<int, Region>, p: int, d: Bytes, d': Bytes)
    requires p in C && SameOutside(d, d', p + 16, p + C[p].size + 8) && p > 0
    ensures Touched(C, maps, {p + C[p].size}, {p}, {}, d, d') && SameBelow(d, d')
  {
    assert p in {p} && p + C[p].size in {p + C[p].size};
  }

  /** So do writes into a mapped block. */
  lemma MapWritten(g: Ghost, head: Heads, foot: Field, segs: seq<Seg>, top: int, topsize: nat, F: map<int, nat>, p: int,
                   d: Bytes, d': Bytes,
                   B: map<int, nat>, ring: map<int, nat>)
    requires ViewsOk(g.C, head, foot, segs, top, topsize, F, g.live, g.maps) && p in g.maps
             && SameOutside(d, d', p + 16, g.maps[p].End() - 32)
    requires Whole(g, head, F, B, ring, d)
    ensures Whole(g, head, F, B, ring, d')
  {
    hide LinksWhole, SegsOk, Tags, PoolOk, UsedOk, MapsOk, HasWord, SameOutside, MapOk;
    MapKeepsWords(g, head, foot, segs, top, topsize, F, p, d, d', B, ring);
    WordsStay(g.C, head, g.maps, F, g.C, head, foot, segs, top, topsize, F, g.live, g.maps, B, ring, {}, {}, {p}, d,
              d');
  }

  lemma MapKeepsWords(g: Ghost, head: Heads, foot: Field, segs: seq<Seg>, top: int, topsize: nat, F: map<int, nat>,
                      p: int, d: Bytes, d': Bytes, B: map<int, nat>, ring: map<int, nat>)
    requires ViewsOk(g.C, head, foot, segs, top, topsize, F, g.live, g.maps) && p in g.maps
             && SameOutside(d, d', p + 16, g.maps[p].End() - 32)
    requires Whole(g, head, F, B, ring, d)
    ensures MapWhole(g.maps, d', p) && Touched(g.C, g.maps, {}, {}, {p}, d, d') && SameBelow(d, d')
  {
    hide LinksWhole, SegsOk, Tags, PoolOk, UsedOk, Touched, SameBelow;
    var r := g.maps[p];
    assert MapOk(r, head, foot, p) && MapWhole(g.maps, d, p);
    WordStays(d, d', p + 16, r.End() - 32, p + 8, HeadW);
    WordStays(d, d', p + 16, r.End() - 32, p, FootW);
    WordStays(d, d', p + 16, r.End() - 32, r.End() - 24, HeadW);
    WordStays(d, d', p + 16, r.End() - 32, r.End() - 16, HeadW);
    assert SameOutside(d, d', r.base, r.End());
    RegionTouched(g.C, g.maps, p, r, d, d');
  }

  // ----- realloc by copying

  /** The first `n` bytes of the block in `p` before are those of the block in `q` now. */
  ghost predicate Copied(p: int, q: int, n: int, d: Bytes, d': Bytes) {
    forall a {:trigger d'.At(a)} | q + 16 <= a < q + 16 + n :: d'.At(a).Number() == d.At(a - q + p).Number()
  }

  lemma CopiedThrough(g0: Ghost, g1: Ghost, g3: Ghost, S: set<int>, S3: set<int>, p: int, q: int, n: nat, bytes: nat,
                      d0: Bytes, d1: Bytes, d2: Bytes, d3: Bytes)
    requires Keeps(g0, g1, S, d0, d1) && p in S && q + 16 + bytes <= BlockEnd(g1, q) && n <= bytes
             && p + 16 + n <= BlockEnd(g0, p)
    requires forall a {:trigger d2.At(a)} | q + 16 <= a < q + 16 + n ::
             d2.At(a).Number() == d1.At(a - (q + 16) + (p + 16)).Number()
    requires Keeps(g1, g3, S3, d2, d3) && q in S3
    ensures Copied(p, q, n, d0, d3) && q + 16 + bytes <= BlockEnd(g3, q)
  {
    assert SameBlock(g0, g1, p, d0, d1) && SameBlock(g1, g3, q, d2, d3);
  }

  lemma SameEnd(g: Ghost, g': Ghost, S: set<int>, p: int, d: Bytes, d': Bytes)
    requires Keeps(g, g', S, d, d') && p in S
    ensures BlockEnd(g', p) == BlockEnd(g, p)
  {
    assert SameBlock(g, g', p, d, d');
  }

  lemma MapRoom(g: Ghost, head: Heads, foot: Field, segs: seq<Seg>, top: int, topsize: nat, F: map<int, nat>, p: int)
    requires ViewsOk(g.C, head, foot, segs, top, topsize, F, g.live, g.maps) && (p in g.live || p in g.maps)
    ensures p in g.maps ==> head.At(p).size == g.maps[p].End() - 32 - p >= 32
    ensures p in g.live ==> p in g.C && head.At(p).size == g.C[p].size >= 32
  {
    hide Tags, SegsOk, PoolOk, UsedOk, IsAligned;
    if p in g.maps {
      assert MapOk(g.maps[p], head, foot, p);
    } else {
      UsedIsBig(g, head, foot, segs, top, topsize, F, p);
    }
    MapsElsewhere(g, head, foot, segs, top, topsize, F);
  }

  /** The new block, the copy and the old block given back, put together. */
  lemma MovedThrough(g0: Ghost, g1: Ghost, g3: Ghost, H0: set<int>, H1: set<int>, p: int, q: int, n: nat, bytes: nat,
                     d0: Bytes, d1: Bytes, d2: Bytes, d3: Bytes)
    requires Keeps(g0, g1, g0.live + g0.maps.Keys, d0, d1) && H0 <= g0.live + g0.maps.Keys && p in H0 && q !in H0
             && H1 == H0 + {q}
    requires Keeps(g1, g1, g1.live + g1.maps.Keys - {q}, d1, d2) && H1 <= g1.live + g1.maps.Keys
    requires forall a {:trigger d2.At(a)} | q + 16 <= a < q + 16 + n ::
             d2.At(a).Number() == d1.At(a - (q + 16) + (p + 16)).Number()
    requires Keeps(g1, g3, H1 - {p}, d2, d3) && q + 16 + bytes <= BlockEnd(g1, q) && n <= bytes
             && p + 16 + n <= BlockEnd(g0, p)
    ensures Copied(p, q, n, d0, d3) && q + 16 + bytes <= BlockEnd(g3, q) && Keeps(g0, g3, H0 - {p}, d0, d3)
  {
    hide SameBlock, Copied;
    CopiedThrough(g0, g1, g3, g0.live + g0.maps.Keys, H1 - {p}, p, q, n, bytes, d0, d1, d2, d3);
    KeepsTrans(g0, g1, g1, g0.live + g0.maps.Keys, g1.live + g1.maps.Keys - {q}, H0 - {p}, d0, d1, d2);
    KeepsTrans(g0, g1, g3, H0 - {p}, H1 - {p}, H0 - {p}, d0, d2, d3);
  }

  lemma BlockAligned(m: int)
    ensures IsAligned(m - 16) ==> IsAligned(m)
  {
  }

  lemma SizeIsAligned(bytes: nat)
    requires bytes < MAX_REQUEST
    ensures IsAligned(Request2Size(bytes))
  {
    PaddingFits(bytes);
    hide Request2Size;
  }

  lemma BlockPlaced(g: Ghost, head: Heads, foot: Field, segs: seq<Seg>, top: int, topsize: nat, F: map<int, nat>,
                    p: int)
    requires ViewsOk(g.C, head, foot, segs, top, topsize, F, g.live, g.maps) && (p in g.live || p in g.maps)
    ensures p > 0 && IsAligned(p + 16)
  {
    hide Tags, SegsOk, PoolOk, IsRecord;
    if p in g.live {
      ChunkFits(g.C, head, foot, segs, top, topsize, p);
    } else {
      assert MapOk(g.maps[p], head, foot, p);
    }
  }

  lemma CopiedInPlace(g: Ghost, g': Ghost, p: int, bytes: nat, d: Bytes, d': Bytes)
    requires InPlace(g, g', p, bytes, d, d')
    ensures Copied(p, p, Min(bytes, BlockEnd(g, p) - p - 16), d, d')
  {
  }

  // ----- a mapped chunk that begins later in its region

  lemma RemappedMap(r: Region, head: Heads, foot: Field, p: int, q: int)
    requires MapOk(r, head, foot, p) && p < q && IsAligned(q) && q + 64 <= r.End()
    ensures MapOk(r, head.Set(q, Head(r.End() - 32 - q, false, false)), foot.Set(q, q - r.base), q)
  {
    hide IsAligned;
  }

  lemma RemappedOther(r: Region, s: Region, head: Heads, foot: Field, h: Head, f: int, q: int, x: int)
    requires MapOk(s, head, foot, x) && Disjoint(s, r) && r.base <= q < r.End()
    ensures MapOk(s, head.Set(q, h), foot.Set(q, f), x) && x != q
  {
    hide IsAligned;
  }

  lemma RemappedMaps(maps: map<int, Region>, head: Heads, foot: Field, segs: seq<Seg>, p: int, q: int)
    requires MapsOk(maps, head, foot, segs) && p in maps && p < q && IsAligned(q) && q + 64 <= maps[p].End()
             && maps[p].base <= p
    ensures MapsOk((maps - {p})[q := maps[p]], head.Set(q, Head(maps[p].End() - 32 - q, false, false)),
                   foot.Set(q, q - maps[p].base), segs) && q !in maps
  {
    hide IsAligned, MapOk, Heads.Set, Field.Set;
    var r := maps[p];
    RemappedMap(r, head, foot, p, q);
    forall x | x in maps && x != p
      ensures MapOk(maps[x], head.Set(q, Head(r.End() - 32 - q, false, false)), foot.Set(q, q - r.base), x) && x != q
    {
      RemappedOther(r, maps[x], head, foot, Head(r.End() - 32 - q, false, false), q - r.base, q, x);
    }
  }

  lemma MapPlace(g: Ghost, head: Heads, foot: Field, segs: seq<Seg>, top: int, topsize: nat, F: map<int, nat>, p: int)
    requires ViewsOk(g.C, head, foot, segs, top, topsize, F, g.live, g.maps) && p in g.maps
    ensures 0 < g.maps[p].base <= p && p + MIN_CHUNK + 32 <= g.maps[p].End()
  {
    hide SegsOk, PoolOk, UsedOk, Tags;
    assert MapOk(g.maps[p], head, foot, p);
  }

  lemma RemappedViews(g: Ghost, head: Heads, foot: Field, segs: seq<Seg>, top: int, topsize: nat, F: map<int, nat>,
                      p: int, q: int)
    requires ViewsOk(g.C, head, foot, segs, top, topsize, F, g.live, g.maps) && p in g.maps && p < q && IsAligned(q)
             && q + 64 <= g.maps[p].End()
    ensures ViewsOk(g.C, head.Set(q, Head(g.maps[p].End() - 32 - q, false, false)), foot.Set(q, q - g.maps[p].base),
                    segs, top, topsize, F, g.live, (g.maps - {p})[q := g.maps[p]])
    ensures q !in g.maps && q !in g.C && q !in g.live
  {
    hide SegsOk, PoolOk, UsedOk, MapsOk, IsAligned, Tags, MapOk;
    MapsElsewhere(g, head, foot, segs, top, topsize, F);
    MapPlace(g, head, foot, segs, top, topsize, F, p);
    RegionClear(g, head, foot, segs, top, topsize, F, p, q);
    RemappedMaps(g.maps, head, foot, segs, p, q);
    TagsSame(g.C, head, foot, head.Set(q, Head(g.maps[p].End() - 32 - q, false, false)),
             foot.Set(q, q - g.maps[p].base));
  }

  /** No chunk of a segment begins inside a mapping. */
  lemma RegionClear(g: Ghost, head: Heads, foot: Field, segs: seq<Seg>, top: int, topsize: nat, F: map<int, nat>,
                    p: int, q: int)
    requires ViewsOk(g.C, head, foot, segs, top, topsize, F, g.live, g.maps) && p in g.maps
             && g.maps[p].base <= q < g.maps[p].End()
    ensures q !in g.C && q !in g.live
  {
    hide TopOk, EndOk, SegOk, SegsApart, KindsOk, HeadOk, AfterFree, MayFollow, FenceOk, IsAligned, PoolOk, IsRecord;
    assert TagOk(g.C, head, foot, q) && Placed(g.C, segs, q);
    assert forall i | 0 <= i < |segs| :: Disjoint(g.maps[p], Region(segs[i].base, segs[i].size));
  }

  lemma RemappedKeeps(g: Ghost, head: Heads, foot: Field, segs: seq<Seg>, top: int, topsize: nat, F: map<int, nat>,
                      p: int, q: int, d: Bytes, d': Bytes)
    requires ViewsOk(g.C, head, foot, segs, top, topsize, F, g.live, g.maps) && p in g.maps && p < q
             && q + 64 <= g.maps[p].End() && q !in g.maps && q !in g.live && q !in g.C
    requires SameOutside(d, d', q, q + 16) && p + 16 <= q
    ensures Keeps(g, Ghost(g.C, g.live, (g.maps - {p})[q := g.maps[p]]), g.live + g.maps.Keys - {p}, d, d')
  {
    MapsElsewhere(g, head, foot, segs, top, topsize, F);
    hide ViewsOk;
    forall x | x in g.live + g.maps.Keys - {p}
      ensures SameBlock(g, Ghost(g.C, g.live, (g.maps - {p})[q := g.maps[p]]), x, d, d')
    {
      BlocksApart(g, head, foot, segs, top, topsize, F, p, x);
    }
  }

  lemma RemappedWhole(g: Ghost, head: Heads, foot: Field, segs: seq<Seg>, top: int, topsize: nat, F: map<int, nat>,
                      p: int, q: int, d: Bytes, d': Bytes,
                      head': Heads, foot': Field, B: map<int, nat>, ring: map<int, nat>)
    requires ViewsOk(g.C, head, foot, segs, top, topsize, F, g.live, g.maps) && p in g.maps && p + 16 <= q
             && q + 64 <= g.maps[p].End() && q !in g.maps
    requires ViewsOk(g.C, head', foot', segs, top, topsize, F, g.live, (g.maps - {p})[q := g.maps[p]])
    requires forall a {:trigger head'.At(a)} | a != q :: head'.At(a) == head.At(a)
    requires SameOutside(d, d', q, q + 16) && Whole(g, head, F, B, ring, d) && HasWord(d', q, HeadW)
             && HasWord(d', q, FootW) && q !in g.C
    ensures Whole(Ghost(g.C, g.live, (g.maps - {p})[q := g.maps[p]]), head', F, B, ring, d')
  {
    var r, maps' := g.maps[p], (g.maps - {p})[q := g.maps[p]];
    assert MapWhole(g.maps, d, p);
    RemappedWords(g, head, foot, segs, top, topsize, F, p, q, d, d');
    WholeWithin(g, head, F, B, ring, d);
    hide ViewsOk, LinksWhole, WordsOk, HasWord, SameOutside, Touched, Within, MapWhole;
    WordsStay(g.C, head, g.maps, F, g.C, head', foot', segs, top, topsize, F, g.live, maps', B, ring, {}, {}, {q}, d,
              d');
  }

  lemma RemappedWords(g: Ghost, head: Heads, foot: Field, segs: seq<Seg>, top: int, topsize: nat, F: map<int, nat>,
                      p: int, q: int, d: Bytes, d': Bytes)
    requires ViewsOk(g.C, head, foot, segs, top, topsize, F, g.live, g.maps) && p in g.maps && p + 16 <= q
             && q + 64 <= g.maps[p].End() && q !in g.maps
    requires SameOutside(d, d', q, q + 16) && MapWhole(g.maps, d, p) && HasWord(d', q, HeadW) && HasWord(d', q, FootW)
    ensures var maps' := (g.maps - {p})[q := g.maps[p]];
            MapWhole(maps', d', q) && Touched(g.C, maps', {}, {}, {q}, d, d') && SameBelow(d, d')
  {
    var r := g.maps[p];
    hide SegsOk, Tags, PoolOk, UsedOk, IsAligned;
    assert MapOk(r, head, foot, p);
    WordStays(d, d', q, q + 16, r.End() - 24, HeadW);
    WordStays(d, d', q, q + 16, r.End() - 16, HeadW);
    assert SameOutside(d, d', r.base, r.End());
    RegionTouched(g.C, (g.maps - {p})[q := g.maps[p]], q, r, d, d');
  }

  lemma RemappedBooked(segs: seq<Seg>, maps: map<int, Region>, p: int, q: int, a: int)
    requires p in maps && q !in maps && Booked(segs, maps, a)
    ensures Booked(segs, (maps - {p})[q := maps[p]], a)
  {
    if k :| k in maps && maps[k].base <= a < maps[k].End() {
      InMapIsBooked(segs, (maps - {p})[q := maps[p]], if k == p then q else k, a);
    }
  }

  lemma RemappedAccounts(segs: seq<Seg>, maps: map<int, Region>, mapped: seq<Region>, fp: nat, maxfp: nat, least: int,
                         p: int, q: int)
    requires Accounted(segs, maps, mapped, fp, maxfp, least) && p in maps && q !in maps
    ensures Accounted(segs, (maps - {p})[q := maps[p]], mapped, fp, maxfp, least)
  {
    hide HoldsAll, Sum, MapRegions;
    MapSumRemove(maps, p);
    MapSumAdd(maps - {p}, q, maps[p]);
  }

  lemma RemappedBooks(segs: seq<Seg>, maps: map<int, Region>, mapped: seq<Region>, fp: nat, maxfp: nat, least: int,
                      p: int, q: int)
    requires BooksOk(segs, maps, mapped, fp, maxfp, least) && p in maps && q !in maps
    ensures BooksOk(segs, (maps - {p})[q := maps[p]], mapped, fp, maxfp, least)
  {
    hide HoldsAll, Accounted, OnlyBooked, Booked, Sum, SegRegions, MapRegions, Footprint, Carve;
    RemappedAccounts(segs, maps, mapped, fp, maxfp, least, p, q);
    forall a | Booked(segs, maps, a) ensures Booked(segs, (maps - {p})[q := maps[p]], a) {
      RemappedBooked(segs, maps, p, q, a);
    }
    assert OnlyBooked(segs, (maps - {p})[q := maps[p]], mapped) by {
      SameBooked(segs, maps, mapped, (maps - {p})[q := maps[p]]);
    }
  }

  // ----- lists of blocks

  /** The chunks of the blocks in a list of addresses, in which 0 stands for none. */
  ghost function ChunksOf(s: seq<int>): set<int> {
    set i | 0 <= i < |s| && s[i] != 0 :: s[i] - 16
  }

  predicate NoneTwice(s: seq<int>) {
    forall i, j | 0 <= i < j < |s| && s[i] != 0 :: s[i] != s[j]
  }

  lemma ChunksOfTail(s: seq<int>)
    requires s != [] && NoneTwice(s)
    ensures ChunksOf(s[1..]) == (if s[0] == 0 then ChunksOf(s) else ChunksOf(s) - {s[0] - 16}) && NoneTwice(s[1..])
    ensures s[0] != 0 ==> s[0] - 16 in ChunksOf(s)
  {
    forall c ensures c in ChunksOf(s[1..]) <==> c in ChunksOf(s) && (s[0] == 0 || c != s[0] - 16) {
      if c in ChunksOf(s[1..]) {
        var i :| 0 <= i < |s[1..]| && s[1..][i] != 0 && s[1..][i] - 16 == c;
        assert s[i + 1] == s[1..][i];
      }
      if c in ChunksOf(s) && (s[0] == 0 || c != s[0] - 16) {
        var i :| 0 <= i < |s| && s[i] != 0 && s[i] - 16 == c;
        assert s[1..][i - 1] == s[i];
      }
    }
  }

  /** The first block has taken in the second, and stands in its place. */
  lemma ChunksOfMerged(s: seq<int>, s': seq<int>)
    requires |s| >= 2 && NoneTwice(s) && s[0] != 0 && s[1] != 0 && |s'| == |s| - 1 && s'[0] == s[0]
             && forall i | 1 <= i < |s'| :: s'[i] == s[i + 1]
    ensures ChunksOf(s') == ChunksOf(s) - {s[1] - 16} && NoneTwice(s') && s[1] - 16 in ChunksOf(s) && s[1] != s[0]
  {
    forall c ensures c in ChunksOf(s') <==> c in ChunksOf(s) && c != s[1] - 16 {
      if c in ChunksOf(s') {
        var i :| 0 <= i < |s'| && s'[i] != 0 && s'[i] - 16 == c;
        assert s[if i == 0 then 0 else i + 1] == s'[i];
      }
      if c in ChunksOf(s) && c != s[1] - 16 {
        var i :| 0 <= i < |s| && s[i] != 0 && s[i] - 16 == c;
        assert s'[if i == 0 then 0 else i - 1] == s[i];
      }
    }
  }

  /** What follows a mapped chunk is no block. */
  lemma NothingAfterMapped(g: Ghost, head: Heads, foot: Field, segs: seq<Seg>, top: int, topsize: nat, F: map<int, nat>,
                           p: int)
    requires ViewsOk(g.C, head, foot, segs, top, topsize, F, g.live, g.maps) && p in g.maps
    ensures p + head.At(p).size !in g.live && p + head.At(p).size !in g.maps
  {
    var q := p + head.At(p).size;
    assert MapOk(g.maps[p], head, foot, p);
    RegionClear(g, head, foot, segs, top, topsize, F, p, q);
    hide Tags, SegsOk, PoolOk, UsedOk, IsAligned;
    assert q in g.maps ==> MapOk(g.maps[q], head, foot, q) && Disjoint(g.maps[p], g.maps[q]);
  }

  lemma NextInLayout(g: Ghost, head: Heads, foot: Field, segs: seq<Seg>, top: int, topsize: nat, F: map<int, nat>,
                     p: int)
    requires ViewsOk(g.C, head, foot, segs, top, topsize, F, g.live, g.maps) && p in g.live
    ensures p in g.C && p + g.C[p].size in g.C && p + g.C[p].size !in g.maps
  {
    hide Tags, SegsOk, PoolOk, UsedOk, MapsOk;
    Neighbours(g.C, head, foot, segs, top, topsize, F, g.live, p);
    MapsElsewhere(g, head, foot, segs, top, topsize, F);
  }

  lemma SecondChunk(s: seq<int>)
    requires s != [] && NoneTwice(s) && s[0] != 0
    ensures |s| >= 2 && s[1] != 0 ==> s[1] - 16 in ChunksOf(s) && s[1] != s[0]
  {
    assert |s| >= 2 ==> s[0] != s[1];
  }

  lemma NoChunksLeft(s: seq<int>)
    requires |s| == 0
    ensures ChunksOf(s) == {}
  {
  }

  // ----- where chunks and blocks lie

  lemma HoldsInside(rs: seq<Region>, lo: int, hi: int, a: int, b: int)
    requires HoldsAll(rs, lo, hi) && lo <= a && b <= hi
    ensures HoldsAll(rs, a, b)
  {
    hide Holds;
  }

  lemma BlockBacked(g: Ghost, head: Heads, foot: Field, segs: seq<Seg>, top: int, topsize: nat, F: map<int, nat>,
                    mapped: seq<Region>, q: int)
    requires ViewsOk(g.C, head, foot, segs, top, topsize, F, g.live, g.maps) && q in g.live && q in g.C
    requires forall i | 0 <= i < |segs| :: HoldsAll(mapped, segs[i].base, segs[i].End())
    ensures HoldsAll(mapped, q + 16, q + g.C[q].size + 8)
  {
    hide PoolOk, UsedOk, MapsOk, TopOk, EndOk, SegOk, SegsApart, KindsOk, HeadOk, AfterFree, MayFollow, FenceOk,
         IsAligned, HoldsAll;
    Neighbours(g.C, head, foot, segs, top, topsize, F, g.live, q);
    var n := q + g.C[q].size;
    assert Placed(g.C, segs, q) && Placed(g.C, segs, n);
    var i :| 0 <= i < |segs| && segs[i].base <= q && n <= segs[i].End();
    var j :| 0 <= j < |segs| && segs[j].base <= n && n + g.C[n].size <= segs[j].End();
    SizeSixteen(g.C, head, foot, n);
    HoldsInside(mapped, segs[i].base, segs[i].End(), q + 16, n);
    HoldsInside(mapped, segs[j].base, segs[j].End(), n, n + 8);
    HoldsAllJoined(mapped, q + 16, n, n + 8);
  }

  lemma AboveLeast(g: Ghost, head: Heads, foot: Field, segs: seq<Seg>, top: int, topsize: nat, F: map<int, nat>,
                   least: int, p: int)
    requires ViewsOk(g.C, head, foot, segs, top, topsize, F, g.live, g.maps) && p in g.C
             && forall i | 0 <= i < |segs| :: least <= segs[i].base
    ensures least <= p
  {
    hide Tags, PoolOk, UsedOk, MapsOk, TopOk, EndOk, SegOk, SegsApart, KindsOk, FenceOk;
    assert Placed(g.C, segs, p);
  }

  lemma FreeInLayout(g: Ghost, head: Heads, foot: Field, segs: seq<Seg>, top: int, topsize: nat, F: map<int, nat>,
                     p: int)
    requires ViewsOk(g.C, head, foot, segs, top, topsize, F, g.live, g.maps) && p in F
    ensures p in g.C
  {
    hide Tags, UsedOk, MapsOk, SegsOk;
  }
}
