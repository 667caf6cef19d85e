/** The words of memory behind the tags: each head and foot that the heap relies on is still whole. */
module Words {
  import opened Sizes
  import opened Memory
  import opened Bins
  import opened Layout
  import opened Heap

  /** The head of chunk `p` is whole, and so is its `_prev_foot` if the chunk before it is free. */
  ghost predicate TagWhole(C: Chunks, head: Heads, d: Bytes, p: int) {
    p in C ==> HasWord(d, p, HeadW) && (C[p].kind == Used && !head.At(p).pinuse ==> HasWord(d, p, FootW))
  }

  /** The tags of the mapped chunk `q` are whole, at both ends of its region. */
  ghost predicate MapWhole(maps: map<int, Region>, d: Bytes, q: int) {
    q in maps ==>
      && HasWord(d, q, HeadW) && HasWord(d, q, FootW)
      && HasWord(d, maps[q].End() - 32, HeadW) && HasWord(d, maps[q].End() - 24, HeadW)
  }

  /** The chunks of `B` are among those of `F`. */
  ghost predicate Within(B: map<int, nat>, F: map<int, nat>) {
    forall p | p in B :: p in F && F[p] == B[p]
  }

  /** All tags are whole; `B`, the chunks in the bins, are free. */
  ghost predicate WordsOk(C: Chunks, head: Heads, maps: map<int, Region>, F: map<int, nat>, B: map<int, nat>,
                          d: Bytes) {
    && (forall p {:trigger TagWhole(C, head, d, p)} :: TagWhole(C, head, d, p))
    && (forall q {:trigger MapWhole(maps, d, q)} :: MapWhole(maps, d, q))
    && Within(B, F)
  }

  // ----- writes that stay inside the tags and payloads of some chunks

  /** `a` lies in a tag of a chunk of `T`, inside a chunk of `W` or in a region of `M`. */
  ghost predicate Reached(C: Chunks, maps: map<int, Region>, T: set<int>, W: set<int>, M: set<int>, a: int) {
    || (exists t :: t in T && t <= a < t + 16)
    || (exists t :: t in W && t in C && t + 16 <= a < t + C[t].size)
    || (exists q :: q in M && q in maps && maps[q].base <= a < maps[q].End())
  }

  ghost predicate Touched(C: Chunks, maps: map<int, Region>, T: set<int>, W: set<int>, M: set<int>, d: Bytes,
                          d': Bytes) {
    forall a {:trigger d'.At(a)} | a >= 0 :: Reached(C, maps, T, W, M, a) || d'.At(a) == d.At(a)
  }

  /** The bytes of the allocator's own record, where the headers of the bins are, have not changed. */
  ghost predicate SameBelow(d: Bytes, d': Bytes) {
    forall a {:trigger d'.At(a)} | a < 0 :: d'.At(a) == d.At(a)
  }

  /** A chunk lies in a segment, which no mapped region meets. */
  lemma ChunkIsBig(C: Chunks, head: Heads, foot: Field, p: int)
    requires Tags(C, head, foot) && p in C
    ensures C[p].size >= 16 && p > 0 && p % 16 == 0
  {
    hide InOrder, AfterFree, MayFollow;
    assert TagOk(C, head, foot, p);
  }

  lemma ChunkClear(C: Chunks, head: Heads, foot: Field, segs: seq<Seg>, top: int, topsize: nat, maps: map<int, Region>,
                   p: int, q: int)
    requires Tags(C, head, foot) && SegsOk(C, segs, top, topsize) && MapsOk(maps, head, foot, segs) && p in C
             && q in maps
    ensures p + C[p].size <= maps[q].base || maps[q].End() <= p
    ensures C[p].size >= 16 && p > 0 && p % 16 == 0 && maps[q].base > 0
  {
    hide TopOk, EndOk, SegOk, SegsApart, KindsOk, FenceOk, Tags;
    ChunkIsBig(C, head, foot, p);
    assert Placed(C, segs, p);
    var i :| 0 <= i < |segs| && segs[i].base <= p && p + C[p].size <= segs[i].End();
    assert MapOk(maps[q], head, foot, q) && Disjoint(maps[q], Region(segs[i].base, segs[i].size));
  }

  lemma ChunkPlace(C: Chunks, head: Heads, foot: Field, p: int)
    requires Tags(C, head, foot) && p in C
    ensures C[p].size >= 16 && p > 0 && p % 16 == 0
  {
    assert TagOk(C, head, foot, p);
  }

  /** Writes that stay there reach no tag of another chunk. */
  lemma TagUnreached(C: Chunks, head: Heads, foot: Field, segs: seq<Seg>, top: int, topsize: nat,
                     maps: map<int, Region>,
                     T: set<int>, W: set<int>, M: set<int>, p: int, a: int)
    requires Tags(C, head, foot) && SegsOk(C, segs, top, topsize) && MapsOk(maps, head, foot, segs)
    requires p in C && p !in T && T <= C.Keys && p <= a < p + 16
    ensures !Reached(C, maps, T, W, M, a)
  {
    hide SegsOk, MapsOk, TagOk;
    ChunkPlace(C, head, foot, p);
    forall t | t in T ensures !(t <= a < t + 16) {
      ChunkPlace(C, head, foot, t);
    }
    forall t | t in W && t in C ensures !(t + 16 <= a < t + C[t].size) {
      ChunkPlace(C, head, foot, t);
      assert InOrder(C, t, p) && InOrder(C, p, t);
    }
    forall q | q in M && q in maps ensures !(maps[q].base <= a < maps[q].End()) {
      ChunkClear(C, head, foot, segs, top, topsize, maps, p, q);
    }
  }

  /** They reach no payload of another chunk. */
  lemma PayloadUnreached(C: Chunks, head: Heads, foot: Field, segs: seq<Seg>, top: int, topsize: nat,
                         maps: map<int, Region>,
                         T: set<int>, W: set<int>, M: set<int>, p: int, a: int)
    requires Tags(C, head, foot) && SegsOk(C, segs, top, topsize) && MapsOk(maps, head, foot, segs)
    requires p in C && p !in W && T <= C.Keys && p + 16 <= a < p + C[p].size
    ensures !Reached(C, maps, T, W, M, a)
  {
    hide SegsOk, MapsOk, TagOk;
    ChunkPlace(C, head, foot, p);
    forall t | t in T ensures !(t <= a < t + 16) {
      ChunkPlace(C, head, foot, t);
      assert InOrder(C, t, p) && InOrder(C, p, t);
    }
    forall t | t in W && t in C ensures !(t + 16 <= a < t + C[t].size) {
      ChunkPlace(C, head, foot, t);
      assert InOrder(C, t, p) && InOrder(C, p, t);
    }
    forall q | q in M && q in maps ensures !(maps[q].base <= a < maps[q].End()) {
      ChunkClear(C, head, foot, segs, top, topsize, maps, p, q);
    }
  }

  /** They reach no other mapped region. */
  lemma MapUnreached(C: Chunks, head: Heads, foot: Field, segs: seq<Seg>, top: int, topsize: nat,
                     maps: map<int, Region>,
                     T: set<int>, W: set<int>, M: set<int>, q: int, a: int)
    requires Tags(C, head, foot) && SegsOk(C, segs, top, topsize) && MapsOk(maps, head, foot, segs)
    requires q in maps && q !in M && T <= C.Keys && maps[q].base <= a < maps[q].End()
    ensures !Reached(C, maps, T, W, M, a)
  {
    hide SegsOk, TagOk;
    forall t | t in T ensures !(t <= a < t + 16) {
      ChunkClear(C, head, foot, segs, top, topsize, maps, t, q);
    }
    forall t | t in W && t in C ensures !(t + 16 <= a < t + C[t].size) {
      ChunkClear(C, head, foot, segs, top, topsize, maps, t, q);
    }
    forall r | r in M && r in maps ensures !(maps[r].base <= a < maps[r].End()) {
      assert Disjoint(maps[r], maps[q]);
    }
  }

  /** A word none of whose bytes is reached stays whole. */
  lemma UnreachedWord(C: Chunks, maps: map<int, Region>, T: set<int>, W: set<int>, M: set<int>, d: Bytes, d': Bytes,
                      x: int, w: Role)
    requires Touched(C, maps, T, W, M, d, d') && HasWord(d, x, w) && x + OffsetOf(w) >= 0
    requires forall a {:trigger Reached(C, maps, T, W, M, a)} | x + OffsetOf(w) <= a < x + OffsetOf(w) + 8 ::
             !Reached(C, maps, T, W, M, a)
    ensures HasWord(d', x, w)
  {
    hide Reached;
    var b := x + OffsetOf(w);
    assert !Reached(C, maps, T, W, M, b) && d'.At(b) == d.At(b);
    forall a | b <= a < b + 8 ensures d'.At(a) == d.At(a) {
      assert !Reached(C, maps, T, W, M, a);
    }
  }

  lemma TagStaysWhole(C: Chunks, head: Heads, C': Chunks, head': Heads, foot': Field, segs': seq<Seg>, top': int,
                      topsize': nat,
                      maps': map<int, Region>, T: set<int>, W: set<int>, M: set<int>, d: Bytes, d': Bytes, p: int)
    requires Tags(C', head', foot') && SegsOk(C', segs', top', topsize') && MapsOk(maps', head', foot', segs')
    requires Touched(C', maps', T, W, M, d, d') && T <= C'.Keys && p in C' && p !in T && TagWhole(C, head, d, p)
    requires p in C && C'[p].kind == C[p].kind && head'.At(p).pinuse == head.At(p).pinuse
    ensures TagWhole(C', head', d', p)
  {
    ChunkPlace(C', head', foot', p);
    hide Tags, SegsOk, MapsOk, Touched, HasWord, Reached;
    forall a | p <= a < p + 16 ensures !Reached(C', maps', T, W, M, a) {
      TagUnreached(C', head', foot', segs', top', topsize', maps', T, W, M, p, a);
    }
    UnreachedWord(C', maps', T, W, M, d, d', p, HeadW);
    if C[p].kind == Used && !head.At(p).pinuse {
      UnreachedWord(C', maps', T, W, M, d, d', p, FootW);
    }
  }

  lemma MapStaysWhole(maps: map<int, Region>, C': Chunks, head': Heads, foot': Field, segs': seq<Seg>, top': int,
                      topsize': nat,
                      maps': map<int, Region>, T: set<int>, W: set<int>, M: set<int>, d: Bytes, d': Bytes, q: int)
    requires Tags(C', head', foot') && SegsOk(C', segs', top', topsize') && MapsOk(maps', head', foot', segs')
    requires Touched(C', maps', T, W, M, d, d') && T <= C'.Keys && q in maps' && q !in M && MapWhole(maps, d, q)
    requires q in maps && maps'[q] == maps[q]
    ensures MapWhole(maps', d', q)
  {
    assert MapOk(maps'[q], head', foot', q);
    hide Tags, SegsOk, MapsOk, Touched, HasWord, Reached;
    forall a | maps'[q].base <= a < maps'[q].End() ensures !Reached(C', maps', T, W, M, a) {
      MapUnreached(C', head', foot', segs', top', topsize', maps', T, W, M, q, a);
    }
    UnreachedWord(C', maps', T, W, M, d, d', q, HeadW);
    UnreachedWord(C', maps', T, W, M, d, d', q, FootW);
    UnreachedWord(C', maps', T, W, M, d, d', maps'[q].End() - 32, HeadW);
    UnreachedWord(C', maps', T, W, M, d, d', maps'[q].End() - 24, HeadW);
  }

  lemma LinkStaysWhole(C': Chunks, head': Heads, foot': Field, segs': seq<Seg>, top': int, topsize': nat,
                       F': map<int, nat>,
                       maps': map<int, Region>, B: map<int, nat>, T: set<int>, W: set<int>, M: set<int>, d: Bytes,
                       d': Bytes, x: int, w: Role)
    requires Tags(C', head', foot') && SegsOk(C', segs', top', topsize') && MapsOk(maps', head', foot', segs')
             && PoolOk(C', F')
    requires Touched(C', maps', T, W, M, d, d') && T <= C'.Keys && Within(B, F') && W !! B.Keys
    requires MayLink(B, x, w) && x in B && HasWord(d, x, w)
    ensures HasWord(d', x, w)
  {
    assert C'[x] == Chunk(B[x], Free) && TagOk(C', head', foot', x);
    hide Tags, SegsOk, MapsOk, Touched, HasWord, Reached, TagOk;
    forall a | x + OffsetOf(w) <= a < x + OffsetOf(w) + 8 ensures !Reached(C', maps', T, W, M, a) {
      PayloadUnreached(C', head', foot', segs', top', topsize', maps', T, W, M, x, a);
    }
    UnreachedWord(C', maps', T, W, M, d, d', x, w);
  }

  lemma HeaderStaysWhole(d: Bytes, d': Bytes, B: map<int, nat>, x: int, w: Role)
    requires SameBelow(d, d') && MayLink(B, x, w) && x !in B && HasWord(d, x, w)
    ensures HasWord(d', x, w)
  {
    var b := x + OffsetOf(w);
    assert d'.At(b) == d.At(b);
  }

  /** The chunks of `C'` outside `T` are chunks of `C`, with the same kinds and PINUSE bits. */
  ghost predicate SameBut(C: Chunks, head: Heads, C': Chunks, head': Heads, T: set<int>) {
    forall p | p in C' && p !in T :: p in C && C'[p].kind == C[p].kind && head'.At(p).pinuse == head.At(p).pinuse
  }

  ghost predicate SameMapsBut(maps: map<int, Region>, maps': map<int, Region>, M: set<int>) {
    forall q | q in maps' && q !in M :: q in maps && maps'[q] == maps[q]
  }

  /** Words stay whole under writes that reach only tags of `T`, chunks of `W` that are not in bins and regions of `M`,
      where the words of `T` and `M` have been written whole. */
  lemma WordsStay(C: Chunks, head: Heads, maps: map<int, Region>, F: map<int, nat>,
                  C': Chunks, head': Heads, foot': Field, segs': seq<Seg>, top': int, topsize': nat, F': map<int, nat>,
                  live': set<int>, maps': map<int, Region>, B: map<int, nat>, ring: map<int, nat>,
                  T: set<int>, W: set<int>, M: set<int>, d: Bytes, d': Bytes)
    requires WordsOk(C, head, maps, F, B, d) && LinksWhole(d, B, ring)
    requires ViewsOk(C', head', foot', segs', top', topsize', F', live', maps') && Touched(C', maps', T, W, M, d, d')
    requires SameBut(C, head, C', head', T) && T <= C'.Keys && (forall p | p in T :: TagWhole(C', head', d', p))
    requires SameMapsBut(maps, maps', M) && (forall q | q in M :: MapWhole(maps', d', q))
    requires Within(B, F') && W !! B.Keys && SameBelow(d, d')
    ensures WordsOk(C', head', maps', F', B, d') && LinksWhole(d', B, ring)
  {
    hide Tags, SegsOk, MapsOk, PoolOk, UsedOk, Touched, HasWord, Reached, Within, MayLink;
    forall p ensures TagWhole(C', head', d', p) {
      if p in C' && p !in T {
        assert TagWhole(C, head, d, p);
        TagStaysWhole(C, head, C', head', foot', segs', top', topsize', maps', T, W, M, d, d', p);
      }
    }
    forall q ensures MapWhole(maps', d', q) {
      if q in maps' && q !in M {
        assert MapWhole(maps, d, q);
        MapStaysWhole(maps, C', head', foot', segs', top', topsize', maps', T, W, M, d, d', q);
      }
    }
    forall x, w | MayLink(B, x, w) && (x < 0 ==> x in ring) ensures HasWord(d', x, w) {
      assert HasWord(d, x, w);
      if x in B {
        LinkStaysWhole(C', head', foot', segs', top', topsize', F', maps', B, T, W, M, d, d', x, w);
      } else {
        HeaderStaysWhole(d, d', B, x, w);
      }
    }
  }

  // ----- the writes of the allocator

  /** Tags written at up to three chunks. */
  lemma TagsTouched(C': Chunks, maps': map<int, Region>, lo: int, mid: int, hi: int, d: Bytes, d': Bytes)
    requires TagBytes(d, d', lo, mid, hi) && lo >= 0 && mid >= 0 && hi >= 0
    ensures Touched(C', maps', {lo, mid, hi}, {}, {}, d, d') && SameBelow(d, d')
  {
    hide HasWord;
    forall a | a >= 0 ensures Reached(C', maps', {lo, mid, hi}, {}, {}, a) || d'.At(a) == d.At(a) {
      assert lo in {lo, mid, hi} && mid in {lo, mid, hi} && hi in {lo, mid, hi};
    }
  }

  /** Links written in the chunks of `A`. */
  lemma FreeTouched(C: Chunks, maps: map<int, Region>, F: map<int, nat>, A: map<int, nat>, d: Bytes, d': Bytes)
    requires OnlyFreeBytes(d, d', A) && Within(A, F) && PoolOk(C, F)
    ensures Touched(C, maps, {}, A.Keys, {}, d, d')
  {
    forall a | a >= 0 && InFree(A, a) ensures Reached(C, maps, {}, A.Keys, {}, a) {
      var t: int :| t in A && t + 16 <= a && a < t + A[t];
      assert t in A.Keys && t in C && C[t].size == A[t];
    }
  }

  /** Bin operations leave all tags whole. */
  lemma WordsBinned(C: Chunks, head: Heads, foot: Field, segs: seq<Seg>, top: int, topsize: nat, F: map<int, nat>,
                    live: set<int>,
                    maps: map<int, Region>, B: map<int, nat>, A: map<int, nat>, B': map<int, nat>, d: Bytes, d': Bytes)
    requires WordsOk(C, head, maps, F, B, d) && ViewsOk(C, head, foot, segs, top, topsize, F, live, maps)
    requires OnlyFreeBytes(d, d', A) && Within(A, F) && Within(B', F)
    ensures WordsOk(C, head, maps, F, B', d')
  {
    hide Tags, SegsOk, MapsOk, PoolOk, UsedOk, Touched, HasWord, Reached, Within, OnlyFreeBytes;
    FreeTouched(C, maps, F, A, d, d');
    forall p ensures TagWhole(C, head, d', p) {
      assert TagWhole(C, head, d, p);
      if p in C {
        TagStaysWhole(C, head, C, head, foot, segs, top, topsize, maps, {}, A.Keys, {}, d, d', p);
      }
    }
    forall q ensures MapWhole(maps, d', q) {
      assert MapWhole(maps, d, q);
      if q in maps {
        MapStaysWhole(maps, C, head, foot, segs, top, topsize, maps, {}, A.Keys, {}, d, d', q);
      }
    }
  }
}
