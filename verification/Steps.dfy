/** What each way of cutting a stretch of the heap does to all its views at once. */
module Steps {
  import opened Sizes
  import opened Memory
  import opened BinNet
  import opened Bins
  import opened Layout
  import opened Heap
  import opened System
  import opened Books
  import opened Words

  /** The ghost views: layout, chunks handed out, chunks mapped directly. */
  datatype Ghost = Ghost(C: Chunks, live: set<int>, maps: map<int, Region>)

  ghost predicate DvOk(B: map<int, nat>, dv: int, dvsize: nat) {
    (dvsize == 0 ==> dv == 0) && (dvsize > 0 ==> dv > 0 && dv !in B)
  }

  /** Every chunk in `L` is as it was, bytes included. */
  ghost predicate Undisturbed(g: Ghost, g': Ghost, L: set<int>, d: Bytes, d': Bytes) {
    && g'.maps == g.maps && (forall q | q in L :: q in g.C && q in g'.C && g'.C[q] == g.C[q])
    && Kept(g.C, g.maps, L, d, d')
  }

  /** Every word the heap and the bins rely on is whole: tags, and the links of the chunks in `B`. */
  ghost predicate Whole(g: Ghost, head: Heads, F: map<int, nat>, B: map<int, nat>, ring: map<int, nat>, d: Bytes) {
    WordsOk(g.C, head, g.maps, F, B, d) && LinksWhole(d, B, ring)
  }

  /** Words stay whole when tags are written at up to three chunks, and nowhere else. */
  lemma TagsStay(g: Ghost, head: Heads, F: map<int, nat>, g': Ghost, head': Heads, foot': Field, segs': seq<Seg>,
                 top': int, topsize': nat,
                 F': map<int, nat>, B: map<int, nat>, ring: map<int, nat>, lo: int, mid: int, hi: int, d: Bytes,
                 d': Bytes)
    requires Whole(g, head, F, B, ring, d) && ViewsOk(g'.C, head', foot', segs', top', topsize', F', g'.live, g'.maps)
             && g'.maps == g.maps
    requires TagBytes(d, d', lo, mid, hi) && lo > 0 && mid > 0 && hi > 0 && lo in g'.C && mid in g'.C && hi in g'.C
    requires TagWhole(g'.C, head', d', lo) && TagWhole(g'.C, head', d', mid) && TagWhole(g'.C, head', d', hi)
    requires SameBut(g.C, head, g'.C, head', {lo, mid, hi}) && Within(B, F')
    ensures Whole(g', head', F', B, ring, d')
  {
    hide ViewsOk, WordsOk, LinksWhole, TagBytes, SameBut, Within, TagWhole, Touched;
    TagsTouched(g'.C, g'.maps, lo, mid, hi, d, d');
    WordsStay(g.C, head, g.maps, F, g'.C, head', foot', segs', top', topsize', F', g'.live, g'.maps, B, ring,
              {lo, mid, hi}, {}, {}, d, d');
  }

  lemma WholeWithin(g: Ghost, head: Heads, F: map<int, nat>, B: map<int, nat>, ring: map<int, nat>, d: Bytes)
    requires Whole(g, head, F, B, ring, d)
    ensures Within(B, F)
  {
    hide LinksWhole, TagWhole, MapWhole;
  }

  // ----- a stretch that is a single chunk

  lemma LoneStretch(C: Chunks, head: Heads, foot: Field, p: int)
    requires Tags(C, head, foot) && p in C && !Stops(C[p].kind)
    ensures var n := p + C[p].size; Stretch(C, p, n) && p < n && forall q | q in C && p <= q < n :: q == p
  {
    assert TagOk(C, head, foot, p);
    forall q | q in C && p <= q < p + C[p].size ensures q == p {
      assert InOrder(C, p, q);
    }
  }

  lemma LoneCut(C: Chunks, F: map<int, nat>, segs: seq<Seg>, live: set<int>, p: int, n: int)
    requires PoolOk(C, F) && UsedOk(C, segs, live) && p < n && forall q | q in C && p <= q < n :: q == p
    ensures PoolCut(F, p, n) == F - {p} && LiveCut(live, p, n) == live - {p}
  {
    hide IsRecord;
  }

  /** What is known about a free chunk before it is taken. */
  lemma FreeChunk(C: Chunks, head: Heads, foot: Field, segs: seq<Seg>, top: int, topsize: nat, F: map<int, nat>,
                  live: set<int>, p: int)
    requires Tags(C, head, foot) && SegsOk(C, segs, top, topsize) && PoolOk(C, F) && UsedOk(C, segs, live) && p in F
    ensures p in C && C[p] == Chunk(F[p], Free) && p > 0 && p !in live && F[p] >= MIN_CHUNK && IsAligned(F[p])
    ensures var n := p + F[p];
            n in C && Stretch(C, p, n) && MayCut(C, top, live, p, n, Used) && MayCut(C, top, live, p, n, Free)
    ensures forall q | q in C && p <= q < p + F[p] :: q == p
    ensures head.At(p) == Head(F[p], true, false) && C[p + F[p]].kind == Used && !head.At(p + F[p]).pinuse
            && foot.At(p + F[p]) == F[p]
  {
    hide SegOk, EndOk, Placed, SegsApart, IsRecord;
    assert TagOk(C, head, foot, p);
    LoneStretch(C, head, foot, p);
  }

  lemma TakenTags(C: Chunks, head: Heads, head': Heads, foot: Field, p: int, s: nat)
    requires p in C && p + s in C && C[p + s].kind == Used && s >= MIN_CHUNK && IsAligned(s) && head.At(p).pinuse
    requires head' == head.Set(p, Head(s, true, true)).Set(p + s,
                                                           Head(head.At(p + s).size, true, head.At(p + s).cinuse))
    ensures Tagged1(C, head, foot, head', foot, p, p + s, Used)
  {
  }

  // ----- one cut, with all that it keeps

  ghost function Ghost1(g: Ghost, lo: int, hi: int, k: Kind): Ghost
    requires lo < hi
  {
    Ghost(Cut1(g.C, lo, hi, k), Live1(g.live, lo, hi, k), g.maps)
  }

  ghost function Ghost2(g: Ghost, lo: int, mid: int, hi: int, k1: Kind, k2: Kind): Ghost
    requires lo < mid < hi
  {
    Ghost(Cut2(g.C, lo, mid, hi, k1, k2), Live2(g.live, lo, mid, hi, k1, k2), g.maps)
  }

  lemma Cut1All(g: Ghost, head: Heads, foot: Field, head': Heads, foot': Field, segs: seq<Seg>, top: int, topsize: nat,
                F: map<int, nat>,
                lo: int, hi: int, k: Kind, d: Bytes, d': Bytes, B: map<int, nat>, ring: map<int, nat>)
    requires ViewsOk(g.C, head, foot, segs, top, topsize, F, g.live, g.maps) && MayCut(g.C, top, g.live, lo, hi, k)
    requires Tagged1(g.C, head, foot, head', foot', lo, hi, k) && TagBytes(d, d', lo, hi, hi)
    requires Whole(g, head, F, B, ring, d) && Within(B, Pool1(F, lo, hi, k)) && HasWord(d', lo, HeadW)
             && (k == Free ==> HasWord(d', hi, FootW))
    ensures var g' := Ghost1(g, lo, hi, k);
            && ViewsOk(g'.C, head', foot', segs, if k == Top then lo else top, if k == Top then
               hi - lo else topsize, Pool1(F, lo, hi, k), g'.live, g'.maps)
            && Undisturbed(g, g', LiveCut(g.live, lo, hi), d, d') && Whole(g', head', Pool1(F, lo, hi, k), B, ring, d')
  {
    hide Tags, SegsOk, MapsOk, PoolOk, IsRecord, Stretch, HeadOk, Kept, HasWord, Within, WordsOk, LinksWhole;
    Cut1Views(g.C, head, foot, head', foot', segs, top, topsize, F, g.live, g.maps, lo, hi, k);
    TagBytesKept(g.C, head, foot, segs, top, topsize, g.live, g.maps, lo, hi, hi, d, d');
    Cut1Whole(g.C, head, foot, head', foot', g.maps, F, B, lo, hi, k, d, d');
    hide TagBytes, Tagged1, Cut1;
    TagsTouched(Cut1(g.C, lo, hi, k), g.maps, lo, hi, hi, d, d');
    WordsStay(g.C, head, g.maps, F, Cut1(g.C, lo, hi, k), head', foot', segs, if k == Top then lo else
        top, if k == Top then hi - lo else topsize,
              Pool1(F, lo, hi, k), Live1(g.live, lo, hi, k), g.maps, B, ring, {lo, hi, hi}, {}, {}, d, d');
  }

  /** The tags at the two ends are whole, and no others have changed. */
  lemma Cut1Whole(C: Chunks, head: Heads, foot: Field, head': Heads, foot': Field, maps: map<int, Region>,
                  F: map<int, nat>, B: map<int, nat>,
                  lo: int, hi: int, k: Kind, d: Bytes, d': Bytes)
    requires Tags(C, head, foot) && Stretch(C, lo, hi) && Tagged1(C, head, foot, head', foot', lo, hi, k)
             && TagBytes(d, d', lo, hi, hi)
    requires WordsOk(C, head, maps, F, B, d) && HasWord(d', lo, HeadW) && (k == Free ==> HasWord(d', hi, FootW))
    ensures var C' := Cut1(C, lo, hi, k);
            lo > 0 && hi > 0 && lo in C' && hi in C' && TagWhole(C', head', d', lo) && TagWhole(C', head', d', hi)
            && SameBut(C, head, C', head', {lo, hi, hi})
  {
    assert TagOk(C, head, foot, lo) && TagOk(C, head, foot, hi) && TagWhole(C, head, d, lo) && TagWhole(C, head, d, hi);
    hide HasWord, Tags, WordsOk, SizeOk, AfterFree;
  }

  lemma Cut2Whole(C: Chunks, head: Heads, foot: Field, head': Heads, foot': Field, maps: map<int, Region>,
                  F: map<int, nat>, B: map<int, nat>,
                  lo: int, mid: int, hi: int, k1: Kind, k2: Kind, d: Bytes, d': Bytes)
    requires Tags(C, head, foot) && Stretch(C, lo, hi) && Tagged2(C, head, foot, head', foot', lo, mid, hi, k1, k2)
             && TagBytes(d, d', lo, mid, hi)
    requires WordsOk(C, head, maps, F, B, d) && HasWord(d', lo, HeadW) && HasWord(d', mid, HeadW)
    requires (k1 == Free ==> HasWord(d', mid, FootW)) && (k2 == Free ==> HasWord(d', hi, FootW))
    ensures var C' := Cut2(C, lo, mid, hi, k1, k2);
            && lo > 0 && mid > 0 && hi > 0 && lo in C' && mid in C' && hi in C'
            && SameBut(C, head, C', head', {lo, mid, hi})
            && TagWhole(C', head', d', lo) && TagWhole(C', head', d', mid) && TagWhole(C', head', d', hi)
  {
    assert TagOk(C, head, foot, lo) && TagOk(C, head, foot, hi) && TagWhole(C, head, d, lo) && TagWhole(C, head, d, hi);
    hide HasWord, Tags, WordsOk, SizeOk, AfterFree;
  }

  lemma Cut2All(g: Ghost, head: Heads, foot: Field, head': Heads, foot': Field, segs: seq<Seg>, top: int, topsize: nat,
                F: map<int, nat>,
                lo: int, mid: int, hi: int, k1: Kind, k2: Kind, d: Bytes, d': Bytes, B: map<int, nat>,
                ring: map<int, nat>)
    requires ViewsOk(g.C, head, foot, segs, top, topsize, F, g.live, g.maps) && MayCut(g.C, top, g.live, lo, hi, k2)
             && k1 != Top
    requires Tagged2(g.C, head, foot, head', foot', lo, mid, hi, k1, k2) && TagBytes(d, d', lo, mid, hi)
    requires Whole(g, head, F, B, ring, d) && Within(B, Pool2(F, lo, mid, hi, k1, k2)) && HasWord(d', lo, HeadW)
             && HasWord(d', mid, HeadW)
    requires (k1 == Free ==> HasWord(d', mid, FootW)) && (k2 == Free ==> HasWord(d', hi, FootW))
    ensures var g' := Ghost2(g, lo, mid, hi, k1, k2);
            && ViewsOk(g'.C, head', foot', segs, if k2 == Top then mid else top, if k2 == Top then
               hi - mid else topsize, Pool2(F, lo, mid, hi, k1, k2), g'.live, g'.maps)
            && Undisturbed(g, g', LiveCut(g.live, lo, hi), d, d')
            && Whole(g', head', Pool2(F, lo, mid, hi, k1, k2), B, ring, d')
  {
    hide Tags, SegsOk, MapsOk, PoolOk, IsRecord, Stretch, HeadOk, Kept, HasWord, Within, WordsOk, LinksWhole;
    Cut2Views(g.C, head, foot, head', foot', segs, top, topsize, F, g.live, g.maps, lo, mid, hi, k1, k2);
    TagBytesKept(g.C, head, foot, segs, top, topsize, g.live, g.maps, lo, mid, hi, d, d');
    Cut2Whole(g.C, head, foot, head', foot', g.maps, F, B, lo, mid, hi, k1, k2, d, d');
    hide TagBytes, Tagged2, Cut2;
    TagsTouched(Cut2(g.C, lo, mid, hi, k1, k2), g.maps, lo, mid, hi, d, d');
    WordsStay(g.C, head, g.maps, F, Cut2(g.C, lo, mid, hi, k1, k2), head', foot', segs, if k2 == Top then mid else top,
              if k2 == Top then hi - mid else
                 topsize, Pool2(F, lo, mid, hi, k1, k2), Live2(g.live, lo, mid, hi, k1, k2), g.maps, B, ring,
              {lo, mid, hi}, {}, {}, d, d');
  }

  lemma UndisturbedTrans(g0: Ghost, g1: Ghost, g2: Ghost, L0: set<int>, L1: set<int>, L: set<int>, d0: Bytes, d1: Bytes,
                         d2: Bytes)
    requires Undisturbed(g0, g1, L0, d0, d1) && Undisturbed(g1, g2, L1, d1, d2) && L <= L0 && L <= L1
    ensures Undisturbed(g0, g2, L, d0, d2)
  {
    hide InPayload, Kept;
    KeptElsewhere(g0.C, g0.C, g0.maps, L0, L, d0, d1);
    KeptElsewhere(g1.C, g0.C, g0.maps, L1, L, d1, d2);
    KeptTrans(g0.C, g0.maps, L, d0, d1, d2);
  }

  lemma UndisturbedRefl(g: Ghost, head: Heads, foot: Field, segs: seq<Seg>, top: int, topsize: nat, F: map<int, nat>,
                        d: Bytes)
    requires ViewsOk(g.C, head, foot, segs, top, topsize, F, g.live, g.maps)
    ensures Undisturbed(g, g, g.live, d, d)
  {
    hide Tags, SegsOk, MapsOk, PoolOk, IsRecord;
  }

  /** Bin operations write only inside free chunks. */
  lemma BinsKept(g: Ghost, head: Heads, foot: Field, segs: seq<Seg>, top: int, topsize: nat, F: map<int, nat>,
                 B: map<int, nat>, d: Bytes, d': Bytes,
                 B0: map<int, nat>, B1: map<int, nat>)
    requires ViewsOk(g.C, head, foot, segs, top, topsize, F, g.live, g.maps) && OnlyFreeBytes(d, d', B)
    requires Within(B, F) && WordsOk(g.C, head, g.maps, F, B0, d) && Within(B1, F)
    ensures Undisturbed(g, g, g.live, d, d') && WordsOk(g.C, head, g.maps, F, B1, d')
  {
    hide Tags, SegsOk, MapsOk, OnlyFreeBytes, IsRecord, WordsOk;
    FreeBytesKept(g.C, head, foot, segs, top, topsize, g.live, g.maps, B, d, d');
    hide PoolOk, UsedOk, Within;
    WordsBinned(g.C, head, foot, segs, top, topsize, F, g.live, g.maps, B0, B, B1, d, d');
  }

  /** The heads of free chunks hold their sizes, which the bins can hold. */
  lemma FreeHeads(g: Ghost, head: Heads, foot: Field, segs: seq<Seg>, top: int, topsize: nat, F: map<int, nat>)
    requires ViewsOk(g.C, head, foot, segs, top, topsize, F, g.live, g.maps)
    ensures forall p | p in F :: head.At(p).size == F[p] && p > 0 && IsChunkSize(F[p])
  {
    forall p | p in F ensures head.At(p).size == F[p] && p > 0 && IsChunkSize(F[p]) {
      FreeChunk(g.C, head, foot, segs, top, topsize, F, g.live, p);
      ChunkFits(g.C, head, foot, segs, top, topsize, p);
    }
  }

  lemma ChunkFits(C: Chunks, head: Heads, foot: Field, segs: seq<Seg>, top: int, topsize: nat, p: int)
    requires Tags(C, head, foot) && SegsOk(C, segs, top, topsize) && p in C
    ensures p > 0 && p + C[p].size <= WORD_RANGE && IsAligned(p) && IsAligned(C[p].size) && C[p].size > 0
  {
    hide TopOk, EndOk, SegsApart, KindsOk, HeadOk, AfterFree, MayFollow;
    assert TagOk(C, head, foot, p) && Placed(C, segs, p);
    var i :| 0 <= i < |segs| && segs[i].base <= p && p + C[p].size <= segs[i].End();
    assert SegOk(C, segs[i]);
  }

  lemma SplitTags(C: Chunks, head: Heads, head': Heads, foot: Field, foot': Field, p: int, nb: nat, s: nat)
    requires p in C && p + s in C && C[p + s].kind == Used && MIN_CHUNK <= nb && nb + MIN_CHUNK <= s && IsAligned(nb)
             && IsAligned(s) && head.At(p).pinuse
    requires !head.At(p + s).pinuse
    requires forall a {:trigger head'.At(a)} :: a != p && a != p + nb ==> head'.At(a) == head.At(a)
    requires head'.At(p) == Head(nb, true, true) && head'.At(p + nb) == Head(s - nb, true, false)
    requires foot' == foot.Set(p + s, s - nb)
    ensures Tagged2(C, head, foot, head', foot', p, p + nb, p + s, Used, Free)
  {
  }

  /** The heap after the first `nb` of the `s` bytes of a free chunk have been handed out. */
  ghost predicate FrontTaken(g: Ghost, head': Heads, foot': Field, segs: seq<Seg>, top: int, topsize: nat,
                             F: map<int, nat>,
                             p: int, nb: nat, s: nat, d: Bytes, d': Bytes, B: map<int, nat>, ring: map<int, nat>)
    requires 0 < nb < s
  {
    var g' := Ghost2(g, p, p + nb, p + s, Used, Free);
    && ViewsOk(g'.C, head', foot', segs, top, topsize, (F - {p})[p + nb := s - nb], g'.live, g'.maps)
    && g'.live == g.live + {p} && p in g'.C && g'.C[p] == Chunk(nb, Used) && Undisturbed(g, g', g.live, d, d')
    && Whole(g', head', (F - {p})[p + nb := s - nb], B, ring, d')
  }

  /** The front of a free chunk handed out. */
  lemma TookFront(g: Ghost, head: Heads, head': Heads, foot: Field, foot': Field, segs: seq<Seg>, top: int,
                  topsize: nat, F: map<int, nat>,
                  p: int, nb: nat, s: nat, d: Bytes, d': Bytes, B: map<int, nat>, ring: map<int, nat>)
    requires ViewsOk(g.C, head, foot, segs, top, topsize, F, g.live, g.maps) && p in F && F[p] == s
    requires Whole(g, head, F, B, ring, d) && p !in B && HasWord(d', p, HeadW) && HasWord(d', p + nb, HeadW)
             && HasWord(d', p + s, FootW)
    requires MIN_CHUNK <= nb && nb + MIN_CHUNK <= s && IsAligned(nb)
    requires head' == head.Set(p, Head(nb, true, true)).Set(p + nb, Head(s - nb, true, false))
             && foot' == foot.Set(p + s, s - nb)
    requires TagBytes(d, d', p, p + nb, p + s)
    ensures FrontTaken(g, head', foot', segs, top, topsize, F, p, nb, s, d, d', B, ring)
    ensures p !in g.live && p + nb !in F
  {
    hide Tags, SegsOk, MapsOk, PoolOk, UsedOk, Stretch, MayCut, Tagged2, Undisturbed, Heads.Set, Heads.At, Field.Set,
         Field.At, TagBytes, HasWord,
      LinksWhole, TagWhole, MapWhole;
    FreeChunk(g.C, head, foot, segs, top, topsize, F, g.live, p);
    LoneCut(g.C, F, segs, g.live, p, p + s);
    NothingInside(g.C, F, p, p + s, p + nb);
    assert g.live - {p} == g.live;
    SplitTags(g.C, head, head', foot, foot', p, nb, s);
    Cut2All(g, head, foot, head', foot', segs, top, topsize, F, p, p + nb, p + s, Used, Free, d, d', B, ring);
  }

  /** A free chunk handed out as a whole. */
  lemma TookWhole(g: Ghost, head: Heads, head': Heads, foot: Field, segs: seq<Seg>, top: int, topsize: nat,
                  F: map<int, nat>,
                  p: int, s: nat, d: Bytes, d': Bytes, B: map<int, nat>, ring: map<int, nat>)
    requires ViewsOk(g.C, head, foot, segs, top, topsize, F, g.live, g.maps) && p in F && F[p] == s && s > 0
    requires Whole(g, head, F, B, ring, d) && p !in B && HasWord(d', p, HeadW)
    requires head' == head.Set(p, Head(s, true, true)).Set(p + s,
                                                           Head(head.At(p + s).size, true, head.At(p + s).cinuse))
    requires TagBytes(d, d', p, p + s, p + s)
    ensures var g' := Ghost1(g, p, p + s, Used);
            && ViewsOk(g'.C, head', foot, segs, top, topsize, F - {p}, g'.live, g'.maps)
            && g'.live == g.live + {p} && p in g'.C && g'.C[p] == Chunk(s, Used) && Undisturbed(g, g', g.live, d, d')
            && Whole(g', head', F - {p}, B, ring, d')
    ensures p !in g.live
  {
    hide Tags, SegsOk, MapsOk, PoolOk, UsedOk, Stretch, MayCut, Tagged1, Undisturbed, Heads.Set, Heads.At, Field.Set,
         Field.At, TagBytes, HasWord,
      LinksWhole, TagWhole, MapWhole;
    FreeChunk(g.C, head, foot, segs, top, topsize, F, g.live, p);
    LoneCut(g.C, F, segs, g.live, p, p + s);
    assert g.live - {p} == g.live;
    TakenTags(g.C, head, head', foot, p, s);
    Cut1All(g, head, foot, head', foot, segs, top, topsize, F, p, p + s, Used, d, d', B, ring);
  }

  /** A free chunk is big enough for its tags. */
  lemma FreeIsBig(g: Ghost, head: Heads, foot: Field, segs: seq<Seg>, top: int, topsize: nat, F: map<int, nat>, p: int)
    requires ViewsOk(g.C, head, foot, segs, top, topsize, F, g.live, g.maps) && p in F
    ensures F[p] >= MIN_CHUNK && p > 0
  {
    hide Tags, SegsOk, MapsOk, PoolOk, UsedOk, Stretch, MayCut;
    FreeChunk(g.C, head, foot, segs, top, topsize, F, g.live, p);
  }

  /** What giving `p` back joins is big enough for its tags. */
  lemma JoinIsBig(g: Ghost, head: Heads, foot: Field, segs: seq<Seg>, top: int, topsize: nat, F: map<int, nat>, p: int,
                  lo: int, hi: int, k: Kind)
    requires ViewsOk(g.C, head, foot, segs, top, topsize, F, g.live, g.maps) && p in g.live
             && Joins(g.C, head, foot, p, lo, hi, k)
    ensures hi - lo >= MIN_CHUNK && lo > 0 && p in g.C
  {
    hide Tags, SegsOk, MapsOk, PoolOk, UsedOk, Stretch, MayCut;
    JoinedStretch(g.C, head, foot, segs, top, topsize, F, g.live, p, lo, hi, k);
  }

  /** Free chunks do not overlap. */
  lemma PoolSpaced(g: Ghost, head: Heads, foot: Field, segs: seq<Seg>, top: int, topsize: nat, F: map<int, nat>,
                   B: map<int, nat>)
    requires ViewsOk(g.C, head, foot, segs, top, topsize, F, g.live, g.maps) && Within(B, F)
    ensures Spaced(B)
  {
    hide SegsOk, MapsOk, UsedOk, TagOk;
    forall p, q ensures InTurn(B, p, q) {
      assert InOrder(g.C, p, q);
    }
  }

  /** A heap that holds nothing. */
  lemma NothingYet(head: Heads, foot: Field, d: Bytes, ring: map<int, nat>)
    requires LinksWhole(d, map[], ring)
    ensures ViewsOk(map[], head, foot, [], 0, 0, Pool(map[], 0, 0), {}, map[]) && DvOk(map[], 0, 0)
    ensures Whole(Ghost(map[], {}, map[]), head, Pool(map[], 0, 0), map[], ring, d)
    ensures BooksOk([], map[], [], 0, 0, 0)
  {
    assert Pool(map[], 0, 0) == map[];
    hide LinksWhole;
  }

  lemma NothingInside(C: Chunks, F: map<int, nat>, p: int, n: int, a: int)
    requires PoolOk(C, F) && (forall q | q in C && p <= q < n :: q == p) && p < a < n
    ensures a !in F
  {
  }

  // ----- top

  /** What is known about `top` once there is one. */
  lemma TopChunk(C: Chunks, head: Heads, foot: Field, segs: seq<Seg>, top: int, topsize: nat, F: map<int, nat>,
                 live: set<int>)
    requires Tags(C, head, foot) && SegsOk(C, segs, top, topsize) && PoolOk(C, F) && UsedOk(C, segs, live) && top != 0
    ensures top in C && C[top] == Chunk(topsize, Top) && top > 0 && topsize > 0 && IsAligned(topsize) && IsAligned(top)
            && top !in F && top !in live
    ensures var n := top + topsize;
            n in C && C[n] == Chunk(TOP_FOOT, Foot) && Stretch(C, top, n) && MayCut(C, top, live, top, n, Top)
    ensures forall q | q in C && top <= q < top + topsize :: q == top
    ensures head.At(top) == Head(topsize, true, false) && head.At(top + topsize) == Head(TOP_FOOT, false, false)
  {
    hide SegOk, EndOk, Placed, SegsApart, IsRecord;
    assert TagOk(C, head, foot, top) && TagOk(C, head, foot, top + topsize);
    LoneStretch(C, head, foot, top);
  }

  lemma TopTags(C: Chunks, head: Heads, head': Heads, foot: Field, top: int, topsize: nat, nb: nat)
    requires top in C && top + topsize in C && C[top + topsize] == Chunk(TOP_FOOT, Foot) && MIN_CHUNK <= nb < topsize
             && IsAligned(nb) && IsAligned(topsize)
    requires head.At(top).pinuse && head.At(top + topsize) == Head(TOP_FOOT, false, false)
    requires forall a {:trigger head'.At(a)} :: a != top && a != top + nb ==> head'.At(a) == head.At(a)
    requires head'.At(top) == Head(nb, true, true) && head'.At(top + nb) == Head(topsize - nb, true, false)
    ensures Tagged2(C, head, foot, head', foot, top, top + nb, top + topsize, Used, Top)
  {
  }

  lemma TookFromTop(g: Ghost, head: Heads, head': Heads, foot: Field, segs: seq<Seg>, top: int, topsize: nat,
                    F: map<int, nat>,
                    nb: nat, d: Bytes, d': Bytes, B: map<int, nat>, ring: map<int, nat>)
    requires Whole(g, head, F, B, ring, d) && HasWord(d', top, HeadW) && HasWord(d', top + nb, HeadW)
    requires ViewsOk(g.C, head, foot, segs, top, topsize, F, g.live, g.maps) && top != 0 && MIN_CHUNK <= nb < topsize
             && IsAligned(nb)
    requires head' == head.Set(top + nb, Head(topsize - nb, true, false)).Set(top, Head(nb, true, true))
    requires TagBytes(d, d', top, top + nb, top + topsize)
    ensures var g' := Ghost2(g, top, top + nb, top + topsize, Used, Top);
            && ViewsOk(g'.C, head', foot, segs, top + nb, topsize - nb, F, g'.live, g'.maps)
            && g'.live == g.live + {top} && top in g'.C && g'.C[top] == Chunk(nb, Used)
            && Undisturbed(g, g', g.live, d, d')
            && Whole(g', head', F, B, ring, d')
    ensures top !in g.live
  {
    hide Tags, SegsOk, MapsOk, PoolOk, UsedOk, Stretch, MayCut, Tagged2, Undisturbed, Heads.Set, Heads.At, Field.Set,
         Field.At, TagBytes, HasWord,
      LinksWhole, TagWhole, MapWhole;
    TopChunk(g.C, head, foot, segs, top, topsize, F, g.live);
    LoneCut(g.C, F, segs, g.live, top, top + topsize);
    assert g.live - {top} == g.live && F - {top} == F;
    TopTags(g.C, head, head', foot, top, topsize, nb);
    Cut2All(g, head, foot, head', foot, segs, top, topsize, F, top, top + nb, top + topsize, Used, Top, d, d', B, ring);
  }

  /** A cut of `top` leaves room for the tags behind it. */
  lemma TopAligned(g: Ghost, head: Heads, foot: Field, segs: seq<Seg>, top: int, topsize: nat, F: map<int, nat>,
                   nb: int)
    requires ViewsOk(g.C, head, foot, segs, top, topsize, F, g.live, g.maps) && top != 0 && nb < topsize
             && IsAligned(nb)
    ensures nb + 16 <= topsize
  {
    hide Tags, SegsOk, MapsOk, PoolOk, UsedOk, Stretch, MayCut;
    TopChunk(g.C, head, foot, segs, top, topsize, F, g.live);
  }

  lemma TopNotBinned(g: Ghost, head: Heads, foot: Field, segs: seq<Seg>, top: int, topsize: nat, F: map<int, nat>,
                     B: map<int, nat>, ring: map<int, nat>,
                     d: Bytes)
    requires ViewsOk(g.C, head, foot, segs, top, topsize, F, g.live, g.maps) && top != 0
             && Whole(g, head, F, B, ring, d)
    ensures top !in B
  {
    hide Tags, SegsOk, MapsOk, PoolOk, UsedOk, Stretch, MayCut, LinksWhole, TagWhole, MapWhole;
    TopChunk(g.C, head, foot, segs, top, topsize, F, g.live);
  }

  // ----- a chunk given back

  /** The chunk right after a chunk handed out is no fencepost. */
  lemma NoFenceAfter(C: Chunks, head: Heads, foot: Field, segs: seq<Seg>, top: int, topsize: nat, live: set<int>,
                     p: int)
    requires Tags(C, head, foot) && SegsOk(C, segs, top, topsize) && UsedOk(C, segs, live) && p in live
    ensures p in C && p + C[p].size in C && C[p + C[p].size].kind in {Used, Free, Top}
  {
    hide SegOk, TopOk, Placed, SegsApart, KindsOk;
    assert TagOk(C, head, foot, p);
    var n := p + C[p].size;
    if C[n].kind == Fence { RecordBefore(C, segs, top, topsize, n); }
    assert InOrder(C, p, n - RECORD) && InOrder(C, n - RECORD, p);
  }

  lemma RecordBefore(C: Chunks, segs: seq<Seg>, top: int, topsize: nat, f: int)
    requires SegsOk(C, segs, top, topsize) && f in C && C[f].kind == Fence
    ensures IsRecord(segs, f - RECORD) && f - RECORD in C && C[f - RECORD].size == RECORD
  {
    hide SegOk, TopOk, Placed, SegsApart, KindsOk;
    assert FenceOk(C, segs, f);
    var i :| 1 <= i < |segs| && segs[i].rec == f - RECORD;
  }

  /** A chunk handed out and its two neighbours. */
  lemma Neighbours(C: Chunks, head: Heads, foot: Field, segs: seq<Seg>, top: int, topsize: nat, F: map<int, nat>,
                   live: set<int>, p: int)
    requires Tags(C, head, foot) && SegsOk(C, segs, top, topsize) && PoolOk(C, F) && UsedOk(C, segs, live) && p in live
    ensures p in C && C[p].kind == Used && C[p].size >= MIN_CHUNK && p > 0 && head.At(p).size == C[p].size
            && head.At(p).cinuse && p !in F
    ensures !head.At(p).pinuse ==> foot.At(p) > 0 && p - foot.At(p) in F && F[p - foot.At(p)] == foot.At(p)
    ensures var n := p + C[p].size;
            && n in C && head.At(n).pinuse && C[n].kind in {Used, Free, Top}
            && (head.At(n).cinuse <==> C[n].kind == Used)
            && (C[n].kind == Top <==> n == top) && (C[n].kind == Free <==> n in F)
            && (n in F ==> head.At(n).size == F[n])
  {
    hide SegOk, EndOk, Placed, SegsApart, IsRecord, FenceOk;
    NoFenceAfter(C, head, foot, segs, top, topsize, live, p);
    assert TagOk(C, head, foot, p) && TagOk(C, head, foot, p + C[p].size);
  }

  /** The stretch that giving `p` back joins: `p`, a free chunk before it and a free chunk or `top` after it. */
  ghost predicate Joins(C: Chunks, head: Heads, foot: Field, p: int, lo: int, hi: int, k: Kind) {
    && p in C && p + C[p].size in C && (lo == if head.At(p).pinuse then p else p - foot.At(p))
    && var n := p + C[p].size;
       match C[n].kind
       case Used => hi == n && k == Free
       case Free => hi == n + C[n].size && k == Free
       case Top => hi == n + C[n].size && k == Top
       case _ => false
  }

  lemma JoinedBefore(C: Chunks, head: Heads, foot: Field, F: map<int, nat>, p: int, lo: int)
    requires Tags(C, head, foot) && PoolOk(C, F) && p in C && lo == if head.At(p).pinuse then p else p - foot.At(p)
    requires !head.At(p).pinuse ==> foot.At(p) > 0 && lo in F && F[lo] == foot.At(p)
    ensures lo in C && lo > 0 && head.At(lo).pinuse && lo <= p && IsAligned(lo)
            && (forall q | q in C && lo <= q < p :: q == lo && C[q].kind == Free)
  {
    assert TagOk(C, head, foot, lo);
    if lo != p {
      LoneStretch(C, head, foot, lo);
    }
  }

  lemma JoinedAfter(C: Chunks, head: Heads, foot: Field, p: int, lo: int, hi: int, k: Kind)
    requires Tags(C, head, foot) && p in C && C[p].kind == Used && Joins(C, head, foot, p, lo, hi, k)
    ensures p < hi && hi in C && MayFollow(k, C[hi].kind) && IsAligned(hi) && hi - p >= MIN_CHUNK
            && C[p + C[p].size].size > 0
    ensures forall q | q in C && p <= q < hi ::
            q == p || (q == p + C[p].size && C[q].kind == (if k == Top then Top else Free))
    ensures k == Top ==> p + C[p].size < hi
  {
    hide HeadOk, AfterFree;
    var n := p + C[p].size;
    assert TagOk(C, head, foot, p) && TagOk(C, head, foot, n) && TagOk(C, head, foot, hi);
    LoneStretch(C, head, foot, p);
    if hi != n {
      LoneStretch(C, head, foot, n);
    }
  }

  lemma JoinedStretch(C: Chunks, head: Heads, foot: Field, segs: seq<Seg>, top: int, topsize: nat, F: map<int, nat>,
                      live: set<int>, p: int, lo: int, hi: int, k: Kind)
    requires Tags(C, head, foot) && SegsOk(C, segs, top, topsize) && PoolOk(C, F) && UsedOk(C, segs, live) && p in live
    requires Joins(C, head, foot, p, lo, hi, k)
    ensures lo <= p < hi && lo in C && hi in C && head.At(lo).pinuse && MayFollow(k, C[hi].kind) && IsAligned(hi - lo)
            && hi - lo >= MIN_CHUNK
    ensures forall q | q in C && lo <= q < hi :: q == lo || q == p || q == p + C[p].size
    ensures MayCut(C, top, live, lo, hi, k) && lo > 0 && C[p + C[p].size].size > 0
  {
    hide SegsOk, UsedOk, Tags, PoolOk, MayFollow;
    Neighbours(C, head, foot, segs, top, topsize, F, live, p);
    JoinedBefore(C, head, foot, F, p, lo);
    JoinedAfter(C, head, foot, p, lo, hi, k);
    TopIsTop(C, segs, top, topsize, lo, hi);
  }

  lemma TopIsTop(C: Chunks, segs: seq<Seg>, top: int, topsize: nat, lo: int, hi: int)
    requires SegsOk(C, segs, top, topsize) && lo > 0
    ensures forall q | q in C && lo <= q < hi :: C[q].kind == Top <==> q == top
    ensures lo <= top < hi ==> top in C
  {
    hide SegOk, EndOk, Placed, SegsApart, FenceOk;
  }

  lemma JoinedCut(C: Chunks, head: Heads, foot: Field, segs: seq<Seg>, F: map<int, nat>, live: set<int>, p: int,
                  lo: int, hi: int, k: Kind)
    requires PoolOk(C, F) && UsedOk(C, segs, live) && p in live && Joins(C, head, foot, p, lo, hi, k) && lo <= p < hi
             && C[p + C[p].size].size > 0
    requires forall q | q in C && lo <= q < hi :: q == lo || q == p || q == p + C[p].size
    requires lo != p ==> lo in F
    ensures LiveCut(live, lo, hi) == live - {p}
    ensures PoolCut(F, lo, hi) == F - {lo} - {p + C[p].size}
  {
    hide IsRecord;
  }

  lemma ReleasedTags(C: Chunks, head: Heads, head': Heads, foot: Field, foot': Field, lo: int, hi: int, k: Kind)
    requires lo in C && hi in C && lo < hi && IsAligned(hi - lo) && hi - lo >= MIN_CHUNK && (k == Free || k == Top)
             && MayFollow(k, C[hi].kind)
    requires head.At(lo).pinuse
    requires forall a {:trigger head'.At(a)} :: a != lo && a != hi ==> head'.At(a) == head.At(a)
    requires head'.At(lo) == Head(hi - lo, true, false)
             && head'.At(hi) == Head(head.At(hi).size, false, head.At(hi).cinuse)
    requires foot' == if k == Free then foot.Set(hi, hi - lo) else foot
    ensures Tagged1(C, head, foot, head', foot', lo, hi, k)
  {
  }

  /** The heap after `p` has been given back, as part of a chunk of kind `k` from `lo` to `hi`. */
  ghost predicate IsReleased(g: Ghost, head': Heads, foot': Field, segs: seq<Seg>, top: int, topsize: nat,
                             F: map<int, nat>,
                             p: int, lo: int, hi: int, k: Kind, d: Bytes, d': Bytes, B: map<int, nat>,
                             ring: map<int, nat>)
    requires p in g.C && lo < hi
  {
    var g' := Ghost1(g, lo, hi, k);
    var F1 := F - {lo} - {p + g.C[p].size};
    && ViewsOk(g'.C, head', foot', segs, if k == Top then lo else top, if k == Top then hi - lo else topsize,
               if k == Free then F1[lo := hi - lo] else F1, g'.live, g'.maps)
    && g'.live == g.live - {p} && Undisturbed(g, g', g.live - {p}, d, d')
    && Whole(g', head', if k == Free then F1[lo := hi - lo] else F1, B, ring, d')
  }

  /** Chunk `p` given back and joined with its free neighbours. */
  lemma Released(g: Ghost, head: Heads, head': Heads, foot: Field, foot': Field, segs: seq<Seg>, top: int, topsize: nat,
                 F: map<int, nat>,
                 p: int, lo: int, hi: int, k: Kind, d: Bytes, d': Bytes, B: map<int, nat>, ring: map<int, nat>)
    requires Whole(g, head, F, B, ring, d) && HasWord(d', lo, HeadW) && (k == Free ==> HasWord(d', hi, FootW))
    requires lo !in B && p in g.C && p + g.C[p].size !in B
    requires ViewsOk(g.C, head, foot, segs, top, topsize, F, g.live, g.maps) && p in g.live
             && Joins(g.C, head, foot, p, lo, hi, k) && lo < hi
    requires forall a {:trigger head'.At(a)} :: a != lo && a != hi ==> head'.At(a) == head.At(a)
    requires head'.At(lo) == Head(hi - lo, true, false)
             && head'.At(hi) == Head(head.At(hi).size, false, head.At(hi).cinuse)
    requires foot' == if k == Free then foot.Set(hi, hi - lo) else foot
    requires TagBytes(d, d', lo, hi, hi)
    ensures IsReleased(g, head', foot', segs, top, topsize, F, p, lo, hi, k, d, d', B, ring)
  {
    hide Tags, SegsOk, MapsOk, PoolOk, UsedOk, Stretch, MayCut, Tagged1, Undisturbed, Heads.Set, Heads.At, Field.Set,
         Field.At, TagBytes, IsAligned,
      HasWord, LinksWhole, TagWhole, MapWhole;
    Neighbours(g.C, head, foot, segs, top, topsize, F, g.live, p);
    JoinedStretch(g.C, head, foot, segs, top, topsize, F, g.live, p, lo, hi, k);
    JoinedCut(g.C, head, foot, segs, F, g.live, p, lo, hi, k);
    ReleasedTags(g.C, head, head', foot, foot', lo, hi, k);
    Cut1All(g, head, foot, head', foot', segs, top, topsize, F, lo, hi, k, d, d', B, ring);
  }

  lemma JoinTopFacts(g: Ghost, head: Heads, foot: Field, segs: seq<Seg>, top: int, topsize: nat, F: map<int, nat>,
                     p: int, lo: int)
    requires ViewsOk(g.C, head, foot, segs, top, topsize, F, g.live, g.maps) && p in g.live && top != 0
    requires Joins(g.C, head, foot, p, lo, top + topsize, Top)
    ensures lo < top && p in g.C && p + g.C[p].size == top && top !in F
            && head.At(top + topsize) == Head(TOP_FOOT, false, false) && topsize > 0
    ensures F - {lo} - {top} == F - {lo}
  {
    hide Tags, SegsOk, PoolOk, UsedOk, MapsOk, Stretch, MayCut;
    TopChunk(g.C, head, foot, segs, top, topsize, F, g.live);
    Neighbours(g.C, head, foot, segs, top, topsize, F, g.live, p);
    JoinedStretch(g.C, head, foot, segs, top, topsize, F, g.live, p, lo, top + topsize, Top);
  }

  /** Where the chunk before `p` starts if it is free, `p` itself otherwise. */
  function Before(head: Heads, foot: Field, p: int): int {
    if head.At(p).pinuse then p else p - foot.At(p)
  }

  /** Where a chunk given back ends up. */
  datatype Place = InTop | InVictim | InBin

  /** Where a stretch from `lo` to `n` that is given back ends up: in `top`, in the designated victim on either side, or
      in a bin. */
  ghost function JoinPlace(lo: int, n: int, top: int, dv: int): Place {
    if n == top then InTop else if n == dv || lo == dv then InVictim else InBin
  }

  /** How big it then is, with what comes after it if that is free. */
  ghost function JoinSize(lo: int, n: int, F: map<int, nat>, top: int, topsize: nat): int {
    n - lo + (if n == top then topsize else if n in F then F[n] else 0)
  }

  /** What becomes of `top` and the victim, which stays the victim unless it joins `top`. */
  ghost predicate JoinsInto(lo: int, n: int, F: map<int, nat>, top: int, topsize: nat, dv: int, dvsize: nat,
                            into: Place, size: nat, top': int, topsize': nat, dv': int, dvsize': nat) {
    && into == JoinPlace(lo, n, top, dv) && size == JoinSize(lo, n, F, top, topsize)
    && (if into == InTop then
          && top' == lo && topsize' == size
          && (if lo == dv then dv' == 0 && dvsize' == 0 else dv' == dv && dvsize' == dvsize)
        else
          && top' == top && topsize' == topsize
          && (if into == InVictim then dv' == lo && dvsize' == size else dv' == dv && dvsize' == dvsize))
  }

  /** Chunk `p`, its neighbours, and the stretch that giving it back would join. */
  lemma Surroundings(g: Ghost, head: Heads, foot: Field, segs: seq<Seg>, top: int, topsize: nat, F: map<int, nat>,
                     p: int)
    requires ViewsOk(g.C, head, foot, segs, top, topsize, F, g.live, g.maps) && p in g.live
    ensures p in g.C && g.C[p].kind == Used && head.At(p).size == g.C[p].size > 0 && head.At(p).cinuse && p > 0
            && p !in F
    ensures var lo := Before(head, foot, p);
            && 0 < lo <= p && (lo == p <==> head.At(p).pinuse)
            && (lo != p ==> lo in F && F[lo] == p - lo && lo != p + g.C[p].size)
            && var n := p + g.C[p].size;
               && head.At(n).pinuse && (n == top ==> top != 0 && !head.At(n).cinuse && n !in F)
               && (head.At(n).cinuse ==> n !in F && Joins(g.C, head, foot, p, lo, n, Free))
               && (n == top ==> Joins(g.C, head, foot, p, lo, top + topsize, Top))
               && (n in F ==>
                  !head.At(n).cinuse && head.At(n).size == F[n] > 0 && Joins(g.C, head, foot, p, lo, n + F[n], Free)
                  && !head.At(n + F[n]).pinuse)
               && (!head.At(n).cinuse ==> n == top || n in F)
  {
    hide SegsOk, UsedOk, MapsOk, Tags, PoolOk;
    Neighbours(g.C, head, foot, segs, top, topsize, F, g.live, p);
    SurroundingsKinds(g.C, head, foot, segs, top, topsize, F, g.live, p + g.C[p].size);
    if !head.At(p).pinuse {
      FreeChunk(g.C, head, foot, segs, top, topsize, F, g.live, p - foot.At(p));
    }
  }

  lemma SurroundingsKinds(C: Chunks, head: Heads, foot: Field, segs: seq<Seg>, top: int, topsize: nat, F: map<int, nat>,
                          live: set<int>, n: int)
    requires Tags(C, head, foot) && SegsOk(C, segs, top, topsize) && PoolOk(C, F) && UsedOk(C, segs, live)
    requires n in C
    ensures n == top ==> top != 0 && C[n] == Chunk(topsize, Top)
    ensures n in F ==> C[n] == Chunk(F[n], Free) && F[n] > 0 && !head.At(n + F[n]).pinuse
  {
    hide SegOk, EndOk, Placed, SegsApart, IsRecord, FenceOk;
    assert TagOk(C, head, foot, n);
    if n == top {
      TopChunk(C, head, foot, segs, top, topsize, F, live);
    }
  }

  /** Among the free chunks, all but the one at `p` are in the bins or the designated victim, and `p` is not in the
      bins. */
  ghost predicate Apart(F: map<int, nat>, p: int, B: map<int, nat>, dv: int, dvsize: nat) {
    && DvOk(B, dv, dvsize) && p !in B && (forall q | q != p ::
       (q in F <==> q in Pool(B, dv, dvsize)) && (q in F ==> F[q] == Pool(B, dv, dvsize)[q]))
    && (dvsize > 0 ==> dv in F && F[dv] == dvsize)
  }

  /** Where the chunk at `p` has become one of `s` bytes, and `n`, which the bins do not hold, is gone. */
  lemma ApartJoined(F: map<int, nat>, p: int, s: nat, n: int, B: map<int, nat>, dv: int, dvsize: nat)
    requires Apart(F, p, B, dv, dvsize) && n !in Pool(B, dv, dvsize) && p != dv
    ensures Apart((F - {p} - {n})[p := s], p, B, dv, dvsize)
  {
  }

  lemma PoolInsert(F: map<int, nat>, p: int, s: nat, B: map<int, nat>, dv: int, dvsize: nat)
    requires Apart(F, p, B, dv, dvsize) && p != dv && p > 0 && p in F && F[p] == s
    ensures Pool(B[p := s], dv, dvsize) == F && DvOk(B[p := s], dv, dvsize)
            && (forall q | q in B :: q in F && F[q] == B[q])
  {
    var P := Pool(B, dv, dvsize);
    assert forall q | q in B :: q in P;
    var P' := Pool(B[p := s], dv, dvsize);
    forall q ensures (q in P' <==> q in F) && (q in F ==> P'[q] == F[q]) {
      assert q != p ==> (q in F <==> q in P) && (q in F ==> F[q] == P[q]);
    }
    assert P' == F;
  }

  /** The chunk at `p`, now of `s` bytes, is the designated victim, and `n` is gone. */
  lemma PoolVictim(F: map<int, nat>, p: int, s: nat, n: int, B: map<int, nat>, dv: int, dvsize: nat)
    requires Apart(F, p, B, dv, dvsize) && p > 0 && s > 0 && n !in B && (dvsize > 0 ==> dv == p || dv == n)
    ensures Pool(B, p, s) == (F - {p} - {n})[p := s] && DvOk(B, p, s)
  {
    var P, P', F' := Pool(B, dv, dvsize), Pool(B, p, s), (F - {p} - {n})[p := s];
    forall q ensures (q in P' <==> q in F') && (q in F' ==> P'[q] == F'[q]) {
      assert q != p ==> (q in F <==> q in P) && (q in F ==> F[q] == P[q]);
    }
  }

  /** The chunk at `p` is gone. */
  lemma PoolWithout(F: map<int, nat>, p: int, B: map<int, nat>, dv: int, dvsize: nat)
    requires Apart(F, p, B, dv, dvsize)
    ensures dv != p ==> Pool(B, dv, dvsize) == F - {p}
    ensures dv == p ==> Pool(B, 0, 0) == F - {p}
  {
    var P := Pool(B, dv, dvsize);
    forall q ensures q in F - {p} <==> q in P && q != p {
      assert q != p ==> (q in F <==> q in P);
    }
    forall q | q in F - {p} ensures F[q] == P[q] {
      assert q in F <==> q in P;
    }
  }

  lemma PoolUnlinked(F: map<int, nat>, p: int, B: map<int, nat>, dv: int, dvsize: nat)
    requires F == Pool(B, dv, dvsize) && DvOk(B, dv, dvsize) && (p in B || p !in F || (p == dv && dvsize > 0))
             && (p in B ==> p != dv)
    ensures Apart(F, p, B - {p}, dv, dvsize) && forall q | q in B :: q in F && F[q] == B[q]
    ensures p in F && p != dv ==> p in B && B[p] == F[p]
    ensures p !in B ==> Apart(F, p, B, dv, dvsize)
  {
    assert p !in B ==> B - {p} == B;
  }

  /** A chunk out of the bins besides the one at `p`. */
  lemma ApartUnlinked(F: map<int, nat>, p: int, n: int, B: map<int, nat>, dv: int, dvsize: nat)
    requires Apart(F, p, B, dv, dvsize) && n in B && n != 0
    ensures Apart(F - {n}, p, B - {n}, dv, dvsize) && n in F && F[n] == B[n] && n != p && n != dv
            && n !in Pool(B - {n}, dv, dvsize)
    ensures forall q | q in B :: q in F && F[q] == B[q]
  {
    var P := Pool(B, dv, dvsize);
    assert forall q | q in B :: q in P;
    forall q | q in B ensures q in F && F[q] == B[q] {
      assert q in F <==> q in P;
    }
  }

  // ----- a chunk handed out

  /** Chunk `p` has been handed out for a request of `nb` bytes; the ones handed out before are undisturbed. */
  ghost predicate Gave(g: Ghost, g': Ghost, p: int, nb: nat, d: Bytes, d': Bytes) {
    && g'.live == g.live + {p} && p !in g.live && p in g'.C && g'.C[p].kind == Used
    && nb <= g'.C[p].size < nb + MIN_CHUNK
    && Undisturbed(g, g', g.live, d, d')
  }

  /** Links written before and after do not matter. */
  lemma GaveAround(g: Ghost, g1: Ghost, g': Ghost, p: int, nb: nat, d: Bytes, d1: Bytes, d2: Bytes, d': Bytes)
    requires Undisturbed(g, g, g.live, d, d1) && Gave(g, g1, p, nb, d1, d2) && Undisturbed(g1, g', g1.live, d2, d')
             && g' == g1
    ensures Gave(g, g', p, nb, d, d')
  {
    hide Kept;
    UndisturbedTrans(g, g, g1, g.live, g.live, g.live, d, d1, d2);
    UndisturbedTrans(g, g1, g', g.live, g1.live, g.live, d, d2, d');
  }

  /** The chunk `v` has left the bins and `r` is what remains of it. */
  lemma PoolSplit(F: map<int, nat>, v: int, r: int, rsize: nat, B: map<int, nat>, dv: int, dvsize: nat)
    requires F == Pool(B, dv, dvsize) && DvOk(B, dv, dvsize) && v in B && v > 0 && r !in F && r > 0
    ensures Pool(B - {v}, dv, dvsize) == F - {v}
    ensures Apart((F - {v})[r := rsize], r, B - {v}, dv, dvsize) && r != dv && r !in B && dv != v
    ensures forall q | q in B :: q in F && F[q] == B[q]
  {
    assert dvsize > 0 ==> dv in F;
  }

  /** The old designated victim goes into the bins and `r` takes its place. */
  lemma PoolReplaced(F: map<int, nat>, r: int, rsize: nat, B: map<int, nat>, dv: int, dvsize: nat)
    requires Apart(F, r, B, dv, dvsize) && r in F && F[r] == rsize > 0 && r > 0 && r != dv
    ensures var B' := if dvsize > 0 then B[dv := dvsize] else B;
            Pool(B', r, rsize) == F && DvOk(B', r, rsize)
    ensures forall q | q in B :: q in F && F[q] == B[q]
  {
    var B' := if dvsize > 0 then B[dv := dvsize] else B;
    var P, P' := Pool(B, dv, dvsize), Pool(B', r, rsize);
    assert forall q | q in B :: q in P;
    forall q ensures (q in P' <==> q in F) && (q in F ==> P'[q] == F[q]) {
      assert q != r ==> (q in F <==> q in P) && (q in F ==> F[q] == P[q]);
    }
  }

  lemma PoolHolds(B: map<int, nat>, dv: int, dvsize: nat)
    requires DvOk(B, dv, dvsize)
    ensures forall q | q in B :: q in Pool(B, dv, dvsize) && Pool(B, dv, dvsize)[q] == B[q]
  {
  }

  lemma PoolTaken(F: map<int, nat>, v: int, B: map<int, nat>, dv: int, dvsize: nat)
    requires F == Pool(B, dv, dvsize) && DvOk(B, dv, dvsize) && v in B && v != 0
    ensures v in F && F[v] == B[v] && Pool(B - {v}, dv, dvsize) == F - {v} && DvOk(B - {v}, dv, dvsize)
  {
  }

  lemma PoolVictimTaken(F: map<int, nat>, B: map<int, nat>, dv: int, dvsize: nat)
    requires F == Pool(B, dv, dvsize) && DvOk(B, dv, dvsize) && dvsize > 0
    ensures dv in F && F[dv] == dvsize && Pool(B, 0, 0) == F - {dv} && DvOk(B, 0, 0) && dv > 0
  {
  }

  lemma PoolVictimSplit(F: map<int, nat>, nb: nat, rsize: nat, B: map<int, nat>, dv: int, dvsize: nat)
    requires F == Pool(B, dv, dvsize) && DvOk(B, dv, dvsize) && dvsize > 0 && dv + nb !in F && rsize > 0
    ensures Pool(B, dv + nb, rsize) == (F - {dv})[dv + nb := rsize] && DvOk(B, dv + nb, rsize)
  {
  }

  lemma TopPresent(g: Ghost, head: Heads, foot: Field, segs: seq<Seg>, top: int, topsize: nat, F: map<int, nat>)
    requires ViewsOk(g.C, head, foot, segs, top, topsize, F, g.live, g.maps)
    ensures (top != 0 <==> topsize > 0) && (top != 0 <==> segs != []) && top >= 0 && topsize <= WORD_RANGE - 16
  {
    hide Tags, MapsOk, PoolOk, IsRecord, EndOk, Placed, FenceOk, SegsApart;
    if segs != [] {
      assert SegOk(g.C, segs[0]);
      ChunkPlace(g.C, head, foot, top);
    }
  }

  /** The heads of binned chunks hold their sizes. */
  lemma BinHeads(g: Ghost, head: Heads, foot: Field, segs: seq<Seg>, top: int, topsize: nat, B: map<int, nat>, dv: int,
                 dvsize: nat)
    requires ViewsOk(g.C, head, foot, segs, top, topsize, Pool(B, dv, dvsize), g.live, g.maps) && DvOk(B, dv, dvsize)
    ensures (forall p | p in B :: head.At(p).size == B[p] && p > 0 && IsChunkSize(B[p])) && dvsize <= WORD_RANGE - 16
  {
    hide ViewsOk;
    FreeHeads(g, head, foot, segs, top, topsize, Pool(B, dv, dvsize));
    PoolHolds(B, dv, dvsize);
    assert dvsize > 0 ==> dv in Pool(B, dv, dvsize);
  }

  // ----- which free chunk serves a request

  /** The smallest binned chunk that fits. */
  ghost predicate BestBinned(B: map<int, nat>, nb: nat, p: int) {
    p in B && nb <= B[p] && forall q | q in B && nb <= B[q] :: B[p] <= B[q]
  }

  ghost predicate NoneFits(B: map<int, nat>, nb: nat) {
    forall q | q in B :: B[q] < nb
  }

  ghost predicate NoneOf(B: map<int, nat>, nb: nat) {
    forall q | q in B :: B[q] != nb
  }

  /** Which free chunk serves a request of `nb` bytes: for a small one, a binned chunk of that very size, else
      the designated victim, else the smallest binned chunk that fits; for a large one, the smallest that
      fits among the binned chunks and the designated victim; in either case `top` only if no other fits. */
  ghost predicate ServedFrom(B: map<int, nat>, dv: int, dvsize: nat, top: int, topsize: nat, nb: nat, p: int) {
    if nb < MIN_LARGE then
      if !NoneOf(B, nb) then p in B && B[p] == nb
      else if nb <= dvsize then p == dv
      else if !NoneFits(B, nb) then BestBinned(B, nb, p)
      else nb < topsize && p == top
    else
      if exists q :: q in B && nb <= B[q] && (dvsize < nb || B[q] < dvsize) then
         BestBinned(B, nb, p) && (dvsize < nb || B[p] < dvsize)
      else if nb <= dvsize then p == dv
      else nb < topsize && p == top
  }

  /** How big a chunk becomes that is handed out for `nb` bytes: all of a free chunk whose rest could not be a chunk,
      and `nb` bytes otherwise. */
  ghost function CutTo(F: map<int, nat>, p: int, nb: nat): nat {
    if p in F && F[p] < nb + MIN_CHUNK then F[p] else nb
  }

  /** The designated victim after a binned chunk of `s` bytes at `p` has been handed out for `nb` bytes. */
  ghost predicate LeftOver(toVictim: bool, p: int, s: nat, nb: nat, dv: int, dvsize: nat, dv': int, dvsize': nat) {
    if toVictim && nb + MIN_CHUNK <= s then dv' == p + nb && dvsize' == s - nb else dv' == dv && dvsize' == dvsize
  }

  /** The designated victim after a request has been served from `p`: what is left of a chunk that served a small
      request, or of the victim itself; otherwise it stays the same, unless it was used up. */
  ghost predicate VictimAfter(B: map<int, nat>, dv: int, dvsize: nat, nb: nat, p: int, dv': int, dvsize': nat) {
    if p in B then LeftOver(nb < MIN_LARGE, p, B[p], nb, dv, dvsize, dv', dvsize')
    else if dvsize > 0 && p == dv then if nb + MIN_CHUNK <= dvsize then dv' == p + nb && dvsize' == dvsize - nb
                                       else dv' == 0 == dvsize'
    else dv' == dv && dvsize' == dvsize
  }

  ghost predicate HasSize(g: Ghost, p: int, n: int) {
    p in g.C && g.C[p].size == n
  }

  /** The chunk handed out at `p` has exactly that size; one from new memory has `nb` bytes. */
  ghost predicate SizedFor(g: Ghost, B: map<int, nat>, dv: int, dvsize: nat, topsize: nat, nb: nat, p: int) {
    p in g.live ==>
      HasSize(g, p, if NothingServes(B, dvsize, topsize, nb) then nb else CutTo(Pool(B, dv, dvsize), p, nb))
  }

  lemma SomethingServes(B: map<int, nat>, dv: int, dvsize: nat, top: int, topsize: nat, nb: nat, p: int)
    requires ServedFrom(B, dv, dvsize, top, topsize, nb, p)
    ensures !NothingServes(B, dvsize, topsize, nb)
  {
  }

  lemma TopNotFree(g: Ghost, head: Heads, foot: Field, segs: seq<Seg>, top: int, topsize: nat, F: map<int, nat>)
    requires ViewsOk(g.C, head, foot, segs, top, topsize, F, g.live, g.maps) && segs != []
    ensures top !in F
  {
    hide Tags, MapsOk, IsRecord, EndOk, Placed, FenceOk, SegsApart, SegOk;
  }

  ghost predicate NothingServes(B: map<int, nat>, dvsize: nat, topsize: nat, nb: nat) {
    NoneFits(B, nb) && dvsize < nb && topsize <= nb
  }

  lemma VictimDetached(F: map<int, nat>, B: map<int, nat>, dv: int, dvsize: nat)
    requires F == Pool(B, dv, dvsize) && DvOk(B, dv, dvsize) && dv != 0
    ensures Apart(F, dv, B, 0, 0) && DvOk(B, 0, 0) && Pool(B, 0, 0) == F - {dv}
  {
  }

  lemma VictimIn(F: map<int, nat>, B: map<int, nat>, dv: int, dvsize: nat)
    requires F == Pool(B, dv, dvsize) && DvOk(B, dv, dvsize)
    ensures dv != 0 ==> dvsize > 0 && dv in F && F[dv] == dvsize
    ensures forall q | q in F && q != dv :: q in B && B[q] == F[q]
  {
  }
}
