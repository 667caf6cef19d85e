/** Chunks that change size in place. */
module Resize {
  import opened Sizes
  import opened Memory
  import opened Bins
  import opened Layout
  import opened Heap
  import opened Steps
  import opened Words

  /** Where `p` and what may be joined with it end: at the next chunk, or behind it if it is free or `top`. */
  ghost predicate Reaches(C: Chunks, p: int, hi: int) {
    && p in C && p + C[p].size in C
    && var n := p + C[p].size; (hi == n || (hi == n + C[n].size && C[n].kind in {Kind.Free, Top}))
  }

  lemma ReachedStretch(C: Chunks, head: Heads, foot: Field, segs: seq<Seg>, top: int, topsize: nat, F: map<int, nat>,
                       live: set<int>, p: int, hi: int)
    requires Tags(C, head, foot) && SegsOk(C, segs, top, topsize) && PoolOk(C, F) && UsedOk(C, segs, live) && p in live
             && Reaches(C, p, hi)
    ensures p < hi && hi in C && Stretch(C, p, hi) && p > 0 && IsAligned(p) && IsAligned(hi) && IsAligned(C[p].size)
    ensures forall q | q in C && p <= q < hi :: q == p || (q == p + C[p].size && q != hi)
    ensures var n := p + C[p].size;
            C[n].size > 0 && (hi != n ==> (C[n].kind == Top <==> n == top) && (C[n].kind == Kind.Free <==> n in F))
    ensures var n := p + C[p].size; hi == n ==> C[hi].kind != Foot && C[hi].kind != Fence && head.At(hi).pinuse
    ensures var n := p + C[p].size; hi != n && n in F ==> C[hi].kind == Used && !head.At(hi).pinuse && hi == n + F[n]
    ensures var n := p + C[p].size; hi != n && n == top ==>
            C[hi] == Chunk(TOP_FOOT, Foot) && head.At(hi) == Head(TOP_FOOT, false, false) && hi == top + topsize
  {
    hide UsedOk, PoolOk, SegsOk;
    Neighbours(C, head, foot, segs, top, topsize, F, live, p);
    var n := p + C[p].size;
    assert TagOk(C, head, foot, p) && TagOk(C, head, foot, n) && TagOk(C, head, foot, hi);
    LoneStretch(C, head, foot, p);
    if hi != n {
      LoneStretch(C, head, foot, n);
      SurroundingsKinds(C, head, foot, segs, top, topsize, F, live, n);
    }
  }

  /** The free chunks beyond. */
  ghost function Rest(F: map<int, nat>, C: Chunks, p: int, hi: int): map<int, nat>
    requires p in C
  {
    if hi == p + C[p].size then F else F - {p + C[p].size}
  }

  lemma ReachedCut(C: Chunks, segs: seq<Seg>, F: map<int, nat>, live: set<int>, p: int, hi: int)
    requires PoolOk(C, F) && UsedOk(C, segs, live) && p in live && p < hi && Reaches(C, p, hi)
    requires forall q | q in C && p <= q < hi :: q == p || (q == p + C[p].size && q != hi)
    requires C[p + C[p].size].size > 0
    ensures LiveCut(live, p, hi) == live - {p}
    ensures PoolCut(F, p, hi) == Rest(F, C, p, hi)
  {
    hide IsRecord;
  }

  lemma ReachedMay(C: Chunks, head: Heads, foot: Field, segs: seq<Seg>, top: int, topsize: nat, F: map<int, nat>,
                   live: set<int>, p: int, hi: int, k: Kind)
    requires Tags(C, head, foot) && SegsOk(C, segs, top, topsize) && PoolOk(C, F) && UsedOk(C, segs, live) && p in live
             && Reaches(C, p, hi)
    requires k == Top <==> p + C[p].size == top && hi != top
    ensures MayCut(C, top, live, p, hi, k)
  {
    hide Tags, SegsOk, PoolOk, IsRecord;
    ReachedStretch(C, head, foot, segs, top, topsize, F, live, p, hi);
    Neighbours(C, head, foot, segs, top, topsize, F, live, p);
    TopIsTop(C, segs, top, topsize, p, hi);
  }

  /** Chunk `p` becomes `nb` bytes long, and what is left up to `hi` a chunk of kind `k`. */
  lemma Regrown2(g: Ghost, head: Heads, head': Heads, foot: Field, foot': Field, segs: seq<Seg>, top: int, topsize: nat,
                 F: map<int, nat>,
                 p: int, nb: nat, hi: int, k: Kind, d: Bytes, d': Bytes, B: map<int, nat>, ring: map<int, nat>)
    requires Whole(g, head, F, B, ring, d) && HasWord(d', p, HeadW) && HasWord(d', p + nb, HeadW)
             && (k == Kind.Free ==> HasWord(d', hi, FootW))
    requires ViewsOk(g.C, head, foot, segs, top, topsize, F, g.live, g.maps) && p in g.live && Reaches(g.C, p, hi)
    requires MIN_CHUNK <= nb && IsAligned(nb) && p + nb < hi && (k == Top <==> p + g.C[p].size == top && hi != top)
    requires (k == Used || k == Kind.Free) ==> p + nb + MIN_CHUNK <= hi
    requires hi != p + g.C[p].size ==> p + g.C[p].size !in B
    requires (k == Kind.Free ==> hi != p + g.C[p].size) && k in {Used, Kind.Free, Top}
    requires forall a {:trigger head'.At(a)} :: a != p && a != p + nb && a != hi ==> head'.At(a) == head.At(a)
    requires head'.At(p) == Head(nb, head.At(p).pinuse, true) && head'.At(p + nb) == Head(hi - p - nb, true, k == Used)
             && head'.At(hi) == Head(head.At(hi).size, k == Used, head.At(hi).cinuse)
    requires foot' == if k == Kind.Free then foot.Set(hi, hi - p - nb) else foot
    requires TagBytes(d, d', p, p + nb, hi)
    ensures var g' := Ghost2(g, p, p + nb, hi, Used, k); var F1 := Rest(F, g.C, p, hi);
            && ViewsOk(g'.C, head', foot', segs, if k == Top then p + nb else top, if k == Top then
               hi - p - nb else topsize,
                       if k == Kind.Free then F1[p + nb := hi - p - nb] else F1, g'.live, g'.maps)
            && g'.live == (if k == Used then g.live + {p + nb} else g.live) && p in g'.C && g'.C[p] == Chunk(nb, Used)
            && Undisturbed(g, g', g.live - {p}, d, d')
            && (k == Used ==> p + nb in g'.C && g'.C[p + nb] == Chunk(hi - p - nb, Used) && p + nb !in g.live)
            && Whole(g', head', if k == Kind.Free then F1[p + nb := hi - p - nb] else F1, B, ring, d')
  {
    hide ViewsOk, Whole, MayCut, Tagged2, Undisturbed, TagBytes, IsAligned, HasWord, Rest, Within, PoolCut, LiveCut,
         Stretch;
    Regrown2Ready(g, head, head', foot, foot', segs, top, topsize, F, p, nb, hi, k);
    Regrown2Within(g, head, F, B, ring, d, p, nb, hi, k);
    Cut2All(g, head, foot, head', foot', segs, top, topsize, F, p, p + nb, hi, Used, k, d, d', B, ring);
  }

  lemma Regrown2Ready(g: Ghost, head: Heads, head': Heads, foot: Field, foot': Field, segs: seq<Seg>, top: int,
                      topsize: nat, F: map<int, nat>,
                      p: int, nb: nat, hi: int, k: Kind)
    requires ViewsOk(g.C, head, foot, segs, top, topsize, F, g.live, g.maps) && p in g.live && Reaches(g.C, p, hi)
    requires MIN_CHUNK <= nb && IsAligned(nb) && p + nb < hi && (k == Top <==> p + g.C[p].size == top && hi != top)
    requires (k == Used || k == Kind.Free) ==> p + nb + MIN_CHUNK <= hi
    requires (k == Kind.Free ==> hi != p + g.C[p].size) && k in {Used, Kind.Free, Top}
    requires forall a {:trigger head'.At(a)} :: a != p && a != p + nb && a != hi ==> head'.At(a) == head.At(a)
    requires head'.At(p) == Head(nb, head.At(p).pinuse, true) && head'.At(p + nb) == Head(hi - p - nb, true, k == Used)
             && head'.At(hi) == Head(head.At(hi).size, k == Used, head.At(hi).cinuse)
    requires foot' == if k == Kind.Free then foot.Set(hi, hi - p - nb) else foot
    ensures MayCut(g.C, top, g.live, p, hi, k) && hi in g.C
            && Tagged2(g.C, head, foot, head', foot', p, p + nb, hi, Used, k)
    ensures LiveCut(g.live, p, hi) == g.live - {p} && PoolCut(F, p, hi) == Rest(F, g.C, p, hi) && p + nb !in g.live
  {
    hide Tags, SegsOk, MapsOk, PoolOk, UsedOk, Stretch, MayCut, Tagged2, IsAligned;
    ReachedStretch(g.C, head, foot, segs, top, topsize, F, g.live, p, hi);
    ReachedMay(g.C, head, foot, segs, top, topsize, F, g.live, p, hi, k);
    Neighbours(g.C, head, foot, segs, top, topsize, F, g.live, p);
    ReachedCut(g.C, segs, F, g.live, p, hi);
    assert MayFollow(k, g.C[hi].kind);
    Regrown2Tags(g.C, head, head', foot, foot', p, nb, hi, k);
    assert p + nb in g.live ==> p + nb in LiveCut(g.live, p, hi);
  }

  lemma Regrown2Within(g: Ghost, head: Heads, F: map<int, nat>, B: map<int, nat>, ring: map<int, nat>, d: Bytes, p: int,
                       nb: nat, hi: int, k: Kind)
    requires Whole(g, head, F, B, ring, d) && p in g.C && p < p + nb < hi
             && (hi != p + g.C[p].size ==> p + g.C[p].size !in B)
    requires PoolCut(F, p, hi) == Rest(F, g.C, p, hi)
    ensures Within(B, Pool2(F, p, p + nb, hi, Used, k))
  {
    hide LinksWhole, TagWhole, MapWhole, Rest, PoolCut;
    forall q | q in B ensures q in PoolCut(F, p, hi) && PoolCut(F, p, hi)[q] == B[q] {
      InRest(F, g.C, B, p, hi, q);
    }
    CutWithin(F, B, p, nb, hi, k);
  }

  lemma InRest(F: map<int, nat>, C: Chunks, B: map<int, nat>, p: int, hi: int, q: int)
    requires Within(B, F) && p in C && (hi != p + C[p].size ==> p + C[p].size !in B) && q in B
    ensures q in Rest(F, C, p, hi) && Rest(F, C, p, hi)[q] == B[q]
  {
  }

  lemma CutWithin(F: map<int, nat>, B: map<int, nat>, p: int, nb: nat, hi: int, k: Kind)
    requires p < p + nb < hi && Within(B, PoolCut(F, p, hi))
    ensures Within(B, Pool2(F, p, p + nb, hi, Used, k))
  {
    forall q | q in B ensures !(p <= q < hi) { assert q in PoolCut(F, p, hi); }
  }

  lemma Regrown2Tags(C: Chunks, head: Heads, head': Heads, foot: Field, foot': Field, p: int, nb: nat, hi: int, k: Kind)
    requires p in C && hi in C && MIN_CHUNK <= nb && IsAligned(nb) && IsAligned(p) && IsAligned(hi) && p + nb < hi
             && k in {Used, Kind.Free, Top} && MayFollow(k, C[hi].kind)
    requires (k == Used || k == Kind.Free) ==> p + nb + MIN_CHUNK <= hi
    requires forall a {:trigger head'.At(a)} :: a != p && a != p + nb && a != hi ==> head'.At(a) == head.At(a)
    requires head'.At(p) == Head(nb, head.At(p).pinuse, true) && head'.At(p + nb) == Head(hi - p - nb, true, k == Used)
             && head'.At(hi) == Head(head.At(hi).size, k == Used, head.At(hi).cinuse)
    requires foot' == if k == Kind.Free then foot.Set(hi, hi - p - nb) else foot
    ensures Tagged2(C, head, foot, head', foot', p, p + nb, hi, Used, k)
  {
  }

  /** Chunk `p` takes in the free chunk after it. */
  lemma Regrown1(g: Ghost, head: Heads, head': Heads, foot: Field, segs: seq<Seg>, top: int, topsize: nat,
                 F: map<int, nat>, p: int, hi: int, d: Bytes, d': Bytes,
                 B: map<int, nat>, ring: map<int, nat>)
    requires ViewsOk(g.C, head, foot, segs, top, topsize, F, g.live, g.maps) && p in g.live && Reaches(g.C, p, hi)
             && p + g.C[p].size in F && hi != p + g.C[p].size && p < hi
    requires Whole(g, head, F, B, ring, d) && HasWord(d', p, HeadW) && p + g.C[p].size !in B
    requires forall a {:trigger head'.At(a)} :: a != p && a != hi ==> head'.At(a) == head.At(a)
    requires head'.At(p) == Head(hi - p, head.At(p).pinuse, true)
             && head'.At(hi) == Head(head.At(hi).size, true, head.At(hi).cinuse)
    requires TagBytes(d, d', p, hi, hi)
    ensures var g' := Ghost1(g, p, hi, Used);
            && ViewsOk(g'.C, head', foot, segs, top, topsize, F - {p + g.C[p].size}, g'.live, g'.maps)
            && g'.live == g.live && p in g'.C && g'.C[p] == Chunk(hi - p, Used)
            && Undisturbed(g, g', g.live - {p}, d, d')
            && Whole(g', head', F - {p + g.C[p].size}, B, ring, d')
  {
    hide Tags, SegsOk, MapsOk, PoolOk, UsedOk, Stretch, MayCut, Tagged1, Undisturbed, TagBytes, IsAligned, HasWord,
         LinksWhole, TagWhole, MapWhole;
    ReachedStretch(g.C, head, foot, segs, top, topsize, F, g.live, p, hi);
    Neighbours(g.C, head, foot, segs, top, topsize, F, g.live, p);
    ReachedMay(g.C, head, foot, segs, top, topsize, F, g.live, p, hi, Used);
    ReachedCut(g.C, segs, F, g.live, p, hi);
    Regrown1Tags(g.C, head, head', foot, p, hi);
    Cut1All(g, head, foot, head', foot, segs, top, topsize, F, p, hi, Used, d, d', B, ring);
  }

  lemma Regrown1Tags(C: Chunks, head: Heads, head': Heads, foot: Field, p: int, hi: int)
    requires p in C && hi in C && IsAligned(p) && IsAligned(hi) && C[hi].kind == Used && p + MIN_CHUNK <= hi
    requires forall a {:trigger head'.At(a)} :: a != p && a != hi ==> head'.At(a) == head.At(a)
    requires head'.At(p) == Head(hi - p, head.At(p).pinuse, true)
             && head'.At(hi) == Head(head.At(hi).size, true, head.At(hi).cinuse)
    ensures Tagged1(C, head, foot, head', foot, p, hi, Used)
  {
  }

  // ----- the bytes at the front

  /** The bytes of the block in chunk `p` are the same up to `lim`. */
  ghost predicate FrontKept(p: int, lim: int, d: Bytes, d': Bytes) {
    forall a {:trigger d'.At(a)} | p + 16 <= a < lim :: d'.At(a) == d.At(a)
  }

  lemma FrontOfUndisturbed(g: Ghost, g': Ghost, L: set<int>, p: int, d: Bytes, d': Bytes)
    requires Undisturbed(g, g', L, d, d') && p in L
    ensures p in g.C && p in g'.C && g'.C[p] == g.C[p] && FrontKept(p, p + g.C[p].size + 8, d, d')
  {
    forall a | p + 16 <= a < p + g.C[p].size + 8 ensures d'.At(a) == d.At(a) {
      assert InPayload(g.C, g.maps, L, a);
    }
  }

  lemma FrontTrans(p: int, l0: int, l1: int, l: int, d0: Bytes, d1: Bytes, d2: Bytes)
    requires FrontKept(p, l0, d0, d1) && FrontKept(p, l1, d1, d2) && l <= l0 && l <= l1
    ensures FrontKept(p, l, d0, d2)
  {
  }

  /** The chunk at `p` can have `nb` bytes where it is: it has them, or `top` or a free chunk comes next and has the
      rest. */
  ghost predicate CanStretch(C: Chunks, top: int, topsize: nat, F: map<int, nat>, p: int, nb: nat) {
    && p in C
    && (nb <= C[p].size
        || (p + C[p].size == top && topsize > 0 && nb < C[p].size + topsize)
        || (p + C[p].size in F && nb <= C[p].size + F[p + C[p].size]))
  }

  /** How big it then is: `nb` bytes, or all there is if the rest could not be a chunk. */
  ghost function StretchedTo(C: Chunks, top: int, topsize: nat, F: map<int, nat>, p: int, nb: nat): nat
    requires CanStretch(C, top, topsize, F, p, nb)
  {
    var n := p + C[p].size;
    var all := if nb <= C[p].size then C[p].size else if n in F then C[p].size + F[n] else nb + MIN_CHUNK;
    if all < nb + MIN_CHUNK then all else nb
  }

  /** The chunk at `p`, stretched, has that size. */
  ghost predicate Stretched(C: Chunks, top: int, topsize: nat, F: map<int, nat>, g': Ghost, p: int, nb: nat) {
    CanStretch(C, top, topsize, F, p, nb) ==> HasSize(g', p, StretchedTo(C, top, topsize, F, p, nb))
  }

  /** Chunk `p` now serves a request of `nb` bytes; its bytes are kept as far as both sizes reach, and all other
      chunks handed out are undisturbed. */
  ghost predicate ResizedTo(g: Ghost, g': Ghost, p: int, nb: nat, d: Bytes, d': Bytes) {
    && g'.live == g.live && p in g.live && p in g.C && p in g'.C && g'.C[p].kind == Used
    && nb <= g'.C[p].size < nb + MIN_CHUNK
    && Undisturbed(g, g', g.live - {p}, d, d') && FrontKept(p, p + Min(g.C[p].size, g'.C[p].size) + 8, d, d')
  }

  lemma ReachesNext(g: Ghost, head: Heads, foot: Field, segs: seq<Seg>, top: int, topsize: nat, F: map<int, nat>,
                    p: int)
    requires ViewsOk(g.C, head, foot, segs, top, topsize, F, g.live, g.maps) && p in g.live
    ensures p in g.C && g.C[p].kind == Used && var n := p + g.C[p].size;
            Reaches(g.C, p, n) && (n in F ==> Reaches(g.C, p, n + F[n]))
            && (n == top ==> Reaches(g.C, p, top + topsize))
  {
    hide Tags, SegsOk, MapsOk, PoolOk, UsedOk, IsAligned;
    Neighbours(g.C, head, foot, segs, top, topsize, F, g.live, p);
    SurroundingsKinds(g.C, head, foot, segs, top, topsize, F, g.live, p + g.C[p].size);
  }

  lemma SelfResized(g: Ghost, p: int, d: Bytes)
    requires Undisturbed(g, g, g.live, d, d)
    ensures Undisturbed(g, g, g.live - {p}, d, d) && forall lim :: FrontKept(p, lim, d, d)
  {
    hide Kept;
    KeptElsewhere(g.C, g.C, g.maps, g.live, g.live - {p}, d, d);
  }

  lemma JoinsTop(g: Ghost, head: Heads, foot: Field, segs: seq<Seg>, top: int, topsize: nat, F: map<int, nat>, p: int)
    requires ViewsOk(g.C, head, foot, segs, top, topsize, F, g.live, g.maps) && p in g.live && p in g.C
             && p + g.C[p].size == top
    ensures head.At(p).size == g.C[p].size >= MIN_CHUNK && head.At(top + topsize) == Head(TOP_FOOT, false, false)
            && topsize > 0 && F - {top} == F
  {
    hide Tags, SegsOk, MapsOk, PoolOk, UsedOk, IsAligned;
    Neighbours(g.C, head, foot, segs, top, topsize, F, g.live, p);
    Surroundings(g, head, foot, segs, top, topsize, F, p);
    TopChunk(g.C, head, foot, segs, top, topsize, F, g.live);
  }

  lemma FrontOfHeads(p: int, size: nat, nb: nat, hi: int, d: Bytes, d': Bytes)
    requires HeadBytes(d, d', p, p + nb) && MIN_CHUNK <= size <= nb && (p + nb + 16 <= hi || p + nb == hi)
    ensures FrontKept(p, p + size + 8, d, d') && TagBytes(d, d', p, p + nb, hi)
  {
    TagElsewhere(d, d', p, p + nb, hi);
  }

  lemma TagElsewhere(d: Bytes, d': Bytes, p: int, n: int, hi: int)
    requires HeadBytes(d, d', p, n) && p + 16 <= n && (n + 16 <= hi || n == hi)
    ensures KeepsTag(d, d', hi)
  {
    if n != hi {
      if HasWord(d, hi, HeadW) { WordStaysAt(d, d', hi + 8, HeadW); }
      if HasWord(d, hi, FootW) { WordStaysAt(d, d', hi, FootW); }
    }
  }

  /** Growing into `top` leaves room for the tags of what is left of it. */
  lemma GrownAligned(g: Ghost, head: Heads, foot: Field, segs: seq<Seg>, top: int, topsize: nat, F: map<int, nat>,
                     p: int, nb: nat)
    requires ViewsOk(g.C, head, foot, segs, top, topsize, F, g.live, g.maps) && p in g.live && p in g.C && top != 0
    requires nb < g.C[p].size + topsize && IsAligned(nb)
    ensures nb + 16 <= g.C[p].size + topsize
  {
    hide SegsOk, MapsOk, PoolOk, UsedOk, Stretch, MayCut, HeadOk, AfterFree, MayFollow;
    TopChunk(g.C, head, foot, segs, top, topsize, F, g.live);
    assert TagOk(g.C, head, foot, p);
  }

  lemma FrontOfTwo(p: int, nb: nat, hi: int, d: Bytes, d1: Bytes, d': Bytes)
    requires HeadBytes(d, d1, p, p + nb) && HeadBytes(d1, d', p + nb, hi) && p + nb + MIN_CHUNK <= hi && MIN_CHUNK <= nb
    ensures FrontKept(p, p + nb + 8, d, d')
  {
    hide HasWord;
    assert forall a {:trigger d'.At(a)} | p + 16 <= a < p + nb + 8 :: d'.At(a) == d1.At(a) == d.At(a);
  }

  lemma FrontOfRow(p: int, nb: nat, n: int, d: Bytes, d': Bytes, d1: Bytes)
    requires HeadBytes(d, d1, p, p + nb) && TagBytes(d1, d', p + nb, n, n) && p + nb + MIN_CHUNK <= n && MIN_CHUNK <= nb
    ensures FrontKept(p, p + nb + 8, d, d')
  {
    hide HasWord;
    assert forall a {:trigger d'.At(a)} | p + 16 <= a < p + nb + 8 :: d'.At(a) == d1.At(a) == d.At(a);
  }

  lemma FrontFewer(p: int, lim: int, lim': int, d: Bytes, d': Bytes)
    requires FrontKept(p, lim, d, d') && lim' <= lim
    ensures FrontKept(p, lim', d, d')
  {
  }

  /** A used chunk, and the free chunk behind it if there is one. */
  lemma UsedAligned(g: Ghost, head: Heads, foot: Field, segs: seq<Seg>, top: int, topsize: nat, F: map<int, nat>,
                    p: int)
    requires ViewsOk(g.C, head, foot, segs, top, topsize, F, g.live, g.maps) && p in g.live
    ensures p in g.C && IsAligned(g.C[p].size) && IsAligned(p) && p > 0
  {
    hide SegsOk, MapsOk, PoolOk;
    assert TagOk(g.C, head, foot, p);
  }

  lemma UsedIsBig(g: Ghost, head: Heads, foot: Field, segs: seq<Seg>, top: int, topsize: nat, F: map<int, nat>, p: int)
    requires ViewsOk(g.C, head, foot, segs, top, topsize, F, g.live, g.maps) && p in g.live
    ensures p in g.C && head.At(p).size == g.C[p].size >= MIN_CHUNK && p > 0
    ensures var n := p + g.C[p].size; n in F ==>
            n != top && head.At(n).size == F[n] && MIN_CHUNK <= F[n] && !head.At(n + F[n]).pinuse
  {
    hide Tags, SegsOk, MapsOk, PoolOk, UsedOk, IsAligned;
    Neighbours(g.C, head, foot, segs, top, topsize, F, g.live, p);
    var n := p + g.C[p].size;
    if n in F {
      FreeChunk(g.C, head, foot, segs, top, topsize, F, g.live, n);
    }
  }

  /** The designated victim moved to what is left of it. */
  lemma VictimMoved(g: Ghost, head: Heads, foot: Field, segs: seq<Seg>, top: int, topsize: nat, F: map<int, nat>,
                    p: int, nb: nat, hi: int, B: map<int, nat>, dv: int, dvsize: nat)
    requires ViewsOk(g.C, head, foot, segs, top, topsize, F, g.live, g.maps) && p in g.live && p in g.C
             && F == Pool(B, dv, dvsize) && DvOk(B, dv, dvsize) && dvsize > 0
    requires p + g.C[p].size == dv && hi == dv + dvsize && g.C[p].size <= nb && p + nb < hi
    ensures Pool(B, p + nb, hi - p - nb) == (F - {dv})[p + nb := hi - p - nb] && DvOk(B, p + nb, hi - p - nb)
  {
    hide ViewsOk;
    BeyondVictim(g, head, foot, segs, top, topsize, F, p, nb, hi, B, dv, dvsize);
  }

  lemma BeyondVictim(g: Ghost, head: Heads, foot: Field, segs: seq<Seg>, top: int, topsize: nat, F: map<int, nat>,
                     p: int, nb: nat, hi: int, B: map<int, nat>, dv: int, dvsize: nat)
    requires ViewsOk(g.C, head, foot, segs, top, topsize, F, g.live, g.maps) && p in g.live && p in g.C
             && F == Pool(B, dv, dvsize) && DvOk(B, dv, dvsize) && dvsize > 0
    requires p + g.C[p].size == dv && hi == dv + dvsize && g.C[p].size <= nb && p + nb < hi
    ensures p > 0 && (p + nb != dv ==> p + nb !in F)
  {
    hide Tags, SegsOk, MapsOk, UsedOk;
    UsedIsBig(g, head, foot, segs, top, topsize, F, p);
    ReachesNext(g, head, foot, segs, top, topsize, F, p);
    ReachedStretch(g.C, head, foot, segs, top, topsize, F, g.live, p, hi);
  }

  // ----- two used neighbours become one chunk

  lemma MergedStretch(C: Chunks, head: Heads, foot: Field, segs: seq<Seg>, top: int, topsize: nat, F: map<int, nat>,
                      live: set<int>, p: int, hi: int)
    requires Tags(C, head, foot) && SegsOk(C, segs, top, topsize) && PoolOk(C, F) && UsedOk(C, segs, live) && p in live
             && p in C
    requires var n := p + C[p].size; n in live && n in C && hi == n + C[n].size
    ensures p + MIN_CHUNK <= hi && hi in C && MayCut(C, top, live, p, hi, Used) && p > 0 && IsAligned(p)
            && IsAligned(hi) && C[hi].kind != Foot && head.At(hi).pinuse
    ensures LiveCut(live, p, hi) == live - {p} - {p + C[p].size} && PoolCut(F, p, hi) == F
  {
    hide SegsOk, IsRecord;
    var n := p + C[p].size;
    Neighbours(C, head, foot, segs, top, topsize, F, live, p);
    Neighbours(C, head, foot, segs, top, topsize, F, live, n);
    assert TagOk(C, head, foot, p) && TagOk(C, head, foot, n) && TagOk(C, head, foot, hi);
    LoneStretch(C, head, foot, p);
    LoneStretch(C, head, foot, n);
    TopIsTop(C, segs, top, topsize, p, hi);
  }

  lemma MergedUsed(g: Ghost, head: Heads, head': Heads, foot: Field, segs: seq<Seg>, top: int, topsize: nat,
                   F: map<int, nat>, p: int, hi: int, d: Bytes, d': Bytes,
                   B: map<int, nat>, ring: map<int, nat>)
    requires ViewsOk(g.C, head, foot, segs, top, topsize, F, g.live, g.maps) && p in g.live && p in g.C && p < hi
    requires Whole(g, head, F, B, ring, d) && HasWord(d', p, HeadW)
    requires var n := p + g.C[p].size; n in g.live && n in g.C && hi == n + g.C[n].size
    requires forall a {:trigger head'.At(a)} :: a != p && a != hi ==> head'.At(a) == head.At(a)
    requires head'.At(p) == Head(hi - p, head.At(p).pinuse, true)
             && head'.At(hi) == Head(head.At(hi).size, true, head.At(hi).cinuse)
    requires TagBytes(d, d', p, hi, hi)
    ensures var g' := Ghost1(g, p, hi, Used);
            && ViewsOk(g'.C, head', foot, segs, top, topsize, F, g'.live, g'.maps)
            && g'.live == g.live - {p + g.C[p].size} && p in g'.C && g'.C[p] == Chunk(hi - p, Used)
            && Undisturbed(g, g', g.live - {p} - {p + g.C[p].size}, d, d')
            && Whole(g', head', F, B, ring, d')
  {
    hide Tags, SegsOk, MapsOk, PoolOk, UsedOk, Stretch, MayCut, Tagged1, Undisturbed, TagBytes, IsAligned, HasWord,
         LinksWhole, TagWhole, MapWhole;
    var n := p + g.C[p].size;
    MergedStretch(g.C, head, foot, segs, top, topsize, F, g.live, p, hi);
    UsedIsBig(g, head, foot, segs, top, topsize, F, p);
    MergedTags(g.C, head, head', foot, p, hi);
    Cut1All(g, head, foot, head', foot, segs, top, topsize, F, p, hi, Used, d, d', B, ring);
    assert g.live - {p} - {n} + {p} == g.live - {n};
  }

  lemma MergedTags(C: Chunks, head: Heads, head': Heads, foot: Field, p: int, hi: int)
    requires p in C && hi in C && IsAligned(p) && IsAligned(hi) && C[hi].kind != Foot && p + MIN_CHUNK <= hi
    requires forall a {:trigger head'.At(a)} :: a != p && a != hi ==> head'.At(a) == head.At(a)
    requires head'.At(p) == Head(hi - p, head.At(p).pinuse, true)
             && head'.At(hi) == Head(head.At(hi).size, true, head.At(hi).cinuse)
    ensures Tagged1(C, head, foot, head', foot, p, hi, Used)
  {
  }
}
