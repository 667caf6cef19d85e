/** The heap as a layout of chunks, and the boundary tags that encode it.

    The layout `C` maps the address of each chunk to its size and kind.  Chunks tile every segment; the
    segment that holds `top` ends in a foot of 80 bytes, every other one in fenceposts. */
module Layout {
  import opened Sizes
  import opened Memory

  datatype Kind = Used | Free | Top | Fence | Foot
  datatype Chunk = Chunk(size: nat, kind: Kind)
  type Chunks = map<int, Chunk>

  const TOP_FOOT: nat := 80

  /** What comes right after a chunk of kind `k`. */
  predicate MayFollow(k: Kind, next: Kind) {
    match k
    case Used => next != Foot
    case Free => next == Used
    case Top => next == Foot
    case _ => false
  }

  ghost predicate IsAligned(n: int) {
    n % 16 == 0
  }

  ghost predicate SizeOk(c: Chunk) {
    IsAligned(c.size) &&
    match c.kind
    case Used => c.size >= MIN_CHUNK
    case Free => c.size >= MIN_CHUNK
    case Top => c.size > 0
    case Fence => c.size > 0
    case Foot => c.size == TOP_FOOT
  }

  /** The head word of a chunk; whether the chunk before it is in use is not fixed by the chunk itself. */
  ghost predicate HeadOk(c: Chunk, h: Head) {
    match c.kind
    case Used => h.size == c.size && h.cinuse
    case Free => h == Head(c.size, true, false)
    case Top => h == Head(c.size, true, false)
    case Fence => h == Head(8, true, true)
    case Foot => h == Head(TOP_FOOT, false, false)
  }

  /** The chunk right before `p` is free, and `_prev_foot` leads to it. */
  ghost predicate AfterFree(C: Chunks, foot: Field, p: int) {
    foot.At(p) > 0 && p - foot.At(p) in C && C[p - foot.At(p)] == Chunk(foot.At(p), Free)
  }

  ghost predicate Stops(k: Kind) {
    k == Fence || k == Foot
  }

  /** The tags around chunk `p`: its head, and the PINUSE bit and foot it leaves with the next chunk. */
  ghost predicate TagOk(C: Chunks, head: Heads, foot: Field, p: int) {
    p in C ==>
      && p > 0 && IsAligned(p) && SizeOk(C[p]) && HeadOk(C[p], head.At(p))
      && (C[p].kind == Used && !head.At(p).pinuse ==> AfterFree(C, foot, p))
      && (!Stops(C[p].kind) ==>
            var n := p + C[p].size;
            n in C && MayFollow(C[p].kind, C[n].kind) && head.At(n).pinuse == (C[p].kind == Used) &&
            (C[p].kind == Free ==> foot.At(n) == C[p].size))
  }

  /** Chunk `p` ends before chunk `q` begins. */
  ghost predicate InOrder(C: Chunks, p: int, q: int) {
    p in C && q in C && p < q ==> p + C[p].size <= q
  }

  ghost predicate Tags(C: Chunks, head: Heads, foot: Field) {
    && (forall p {:trigger TagOk(C, head, foot, p)} :: TagOk(C, head, foot, p))
    && (forall p, q {:trigger InOrder(C, p, q)} :: InOrder(C, p, q))
  }

  // ----- cutting a stretch of the layout anew

  /** The stretch from `lo` to `hi` becomes one chunk. */
  ghost function Cut1(C: Chunks, lo: int, hi: int, k: Kind): Chunks
    requires lo < hi
  {
    (map p | p in C && !(lo <= p < hi) :: C[p])[lo := Chunk(hi - lo, k)]
  }

  /** The stretch from `lo` to `hi` becomes two chunks that meet at `mid`. */
  ghost function Cut2(C: Chunks, lo: int, mid: int, hi: int, k1: Kind, k2: Kind): Chunks
    requires lo < mid < hi
  {
    (map p | p in C && !(lo <= p < hi) :: C[p])[lo := Chunk(mid - lo, k1)][mid := Chunk(hi - mid, k2)]
  }

  /** `lo` and `hi` are chunk boundaries inside one segment. */
  ghost predicate Stretch(C: Chunks, lo: int, hi: int) {
    lo in C && hi in C && lo < hi && forall p | p in C && lo <= p < hi :: !Stops(C[p].kind)
  }

  /** The layouts agree outside the stretch, and inside it `C'` has chunks that stay there. */
  ghost predicate Recut(C: Chunks, C': Chunks, lo: int, hi: int) {
    && Stretch(C, lo, hi) && lo in C'
    && (forall p | p in C && !(lo <= p < hi) :: p in C' && C'[p] == C[p])
    && (forall p | p in C' && !(lo <= p < hi) :: p in C)
    && (forall p | p in C' && lo <= p < hi :: p + C'[p].size <= hi)
  }

  lemma Cut1IsRecut(C: Chunks, lo: int, hi: int, k: Kind)
    requires Stretch(C, lo, hi)
    ensures Recut(C, Cut1(C, lo, hi, k), lo, hi)
  {
  }

  lemma Cut2IsRecut(C: Chunks, lo: int, mid: int, hi: int, k1: Kind, k2: Kind)
    requires Stretch(C, lo, hi) && lo < mid < hi
    ensures Recut(C, Cut2(C, lo, mid, hi, k1, k2), lo, hi)
  {
  }

  /** Chunks outside the stretch end before it or begin at or after its end. */
  lemma Outside(C: Chunks, head: Heads, foot: Field, lo: int, hi: int, p: int)
    requires Tags(C, head, foot) && Stretch(C, lo, hi) && p in C && !(lo <= p < hi)
    ensures p + C[p].size <= lo || p >= hi
    ensures C[p].size > 0
  {
    assert InOrder(C, p, lo) && TagOk(C, head, foot, p);
  }

  lemma RecutOrder(C: Chunks, head: Heads, foot: Field, C': Chunks, lo: int, hi: int, p: int, q: int)
    requires Tags(C, head, foot) && Recut(C, C', lo, hi)
    requires lo <= p < hi && lo <= q < hi ==> InOrder(C', p, q)
    ensures InOrder(C', p, q)
  {
    assert InOrder(C, p, q);
    if p in C && !(lo <= p < hi) { Outside(C, head, foot, lo, hi, p); }
    if q in C && !(lo <= q < hi) { Outside(C, head, foot, lo, hi, q); }
  }

  /** Head and foot words agree outside the stretch; at its two ends they change only as they may. */
  ghost predicate TagsRecut(head: Heads, foot: Field, head': Heads, foot': Field, lo: int, hi: int) {
    && (forall a {:trigger head'.At(a)} :: !(lo <= a <= hi) ==> head'.At(a) == head.At(a))
    && (forall a {:trigger foot'.At(a)} :: !(lo < a <= hi) ==> foot'.At(a) == foot.At(a))
    && head'.At(lo).pinuse == head.At(lo).pinuse
  }

  lemma RecutTag(C: Chunks, head: Heads, foot: Field, C': Chunks, head': Heads, foot': Field, lo: int, hi: int, p: int)
    requires Tags(C, head, foot) && Recut(C, C', lo, hi) && TagsRecut(head, foot, head', foot', lo, hi)
    requires !Stops(C'[lo].kind) && (!head.At(lo).pinuse ==> C'[lo].kind == Used)
    requires !(lo <= p <= hi)
    ensures TagOk(C', head', foot', p)
  {
    assert TagOk(C, head, foot, p);
    if p in C {
      Outside(C, head, foot, lo, hi, p);
      assert TagOk(C, head, foot, lo);
      if C[p].kind == Used && !head.At(p).pinuse {
        assert InOrder(C, p - foot.At(p), hi);
      }
    }
  }

  // ----- one chunk

  /** The tags that make the stretch one chunk of kind `k`. */
  ghost predicate Tagged1(C: Chunks, head: Heads, foot: Field, head': Heads, foot': Field, lo: int, hi: int, k: Kind)
    requires hi in C
  {
    && lo < hi && !Stops(k) && SizeOk(Chunk(hi - lo, k))
    && (forall a {:trigger head'.At(a)} :: a != lo && a != hi ==> head'.At(a) == head.At(a))
    && (forall a {:trigger foot'.At(a)} :: a != hi ==> foot'.At(a) == foot.At(a))
    && head'.At(lo) == Head(hi - lo, head.At(lo).pinuse, k == Used)
    && head'.At(hi) == Head(head.At(hi).size, k == Used, head.At(hi).cinuse)
    && (k == Free ==> foot'.At(hi) == hi - lo) && (k != Used ==> head.At(lo).pinuse) && MayFollow(k, C[hi].kind)
  }

  lemma Cut1Ends(C: Chunks, head: Heads, foot: Field, head': Heads, foot': Field, lo: int, hi: int, k: Kind)
    requires Tags(C, head, foot) && Stretch(C, lo, hi) && Tagged1(C, head, foot, head', foot', lo, hi, k)
    ensures TagOk(Cut1(C, lo, hi, k), head', foot', lo) && TagOk(Cut1(C, lo, hi, k), head', foot', hi)
  {
    var C' := Cut1(C, lo, hi, k);
    assert TagOk(C, head, foot, lo) && TagOk(C, head, foot, hi);
    Cut1IsRecut(C, lo, hi, k);
    if C[lo].kind == Used && !head.At(lo).pinuse {
      assert lo - foot.At(lo) < lo;
    }
  }

  /** Rewriting the tags of a stretch as one chunk leaves a well tagged layout. */
  lemma Cut1Tags(C: Chunks, head: Heads, foot: Field, head': Heads, foot': Field, lo: int, hi: int, k: Kind)
    requires Tags(C, head, foot) && Stretch(C, lo, hi) && Tagged1(C, head, foot, head', foot', lo, hi, k)
    ensures Tags(Cut1(C, lo, hi, k), head', foot')
  {
    var C' := Cut1(C, lo, hi, k);
    Cut1IsRecut(C, lo, hi, k);
    Cut1Ends(C, head, foot, head', foot', lo, hi, k);
    forall p ensures TagOk(C', head', foot', p) {
      if !(lo <= p <= hi) {
        RecutTag(C, head, foot, C', head', foot', lo, hi, p);
      }
    }
    forall p, q ensures InOrder(C', p, q) {
      RecutOrder(C, head, foot, C', lo, hi, p, q);
    }
  }

  // ----- two chunks

  ghost predicate Tagged2(C: Chunks, head: Heads, foot: Field, head': Heads, foot': Field, lo: int, mid: int, hi: int,
                          k1: Kind, k2: Kind)
    requires hi in C
  {
    && lo < mid < hi && !Stops(k1) && !Stops(k2) && SizeOk(Chunk(mid - lo, k1)) && SizeOk(Chunk(hi - mid, k2))
    && (forall a {:trigger head'.At(a)} :: a != lo && a != mid && a != hi ==> head'.At(a) == head.At(a))
    && (forall a {:trigger foot'.At(a)} :: a != mid && a != hi ==> foot'.At(a) == foot.At(a))
    && head'.At(lo) == Head(mid - lo, head.At(lo).pinuse, k1 == Used)
    && head'.At(mid) == Head(hi - mid, k1 == Used, k2 == Used)
    && head'.At(hi) == Head(head.At(hi).size, k2 == Used, head.At(hi).cinuse)
    && (k1 == Free ==> foot'.At(mid) == mid - lo) && (k2 == Free ==> foot'.At(hi) == hi - mid)
    && (k1 != Used ==> head.At(lo).pinuse) && MayFollow(k1, k2) && MayFollow(k2, C[hi].kind)
  }

  lemma Cut2Ends(C: Chunks, head: Heads, foot: Field, head': Heads, foot': Field, lo: int, mid: int, hi: int, k1: Kind,
                 k2: Kind)
    requires Tags(C, head, foot) && Stretch(C, lo, hi) && Tagged2(C, head, foot, head', foot', lo, mid, hi, k1, k2)
    ensures var C' := Cut2(C, lo, mid, hi, k1, k2); TagOk(C', head', foot', lo) && TagOk(C', head', foot', mid)
  {
    assert TagOk(C, head, foot, lo) && TagOk(C, head, foot, hi);
  }

  lemma Cut2End(C: Chunks, head: Heads, foot: Field, head': Heads, foot': Field, lo: int, mid: int, hi: int, k1: Kind,
                k2: Kind)
    requires Tags(C, head, foot) && Stretch(C, lo, hi) && Tagged2(C, head, foot, head', foot', lo, mid, hi, k1, k2)
    ensures TagOk(Cut2(C, lo, mid, hi, k1, k2), head', foot', hi)
  {
    assert TagOk(C, head, foot, hi);
  }

  /** Rewriting the tags of a stretch as two chunks leaves a well tagged layout. */
  lemma Cut2Tags(C: Chunks, head: Heads, foot: Field, head': Heads, foot': Field, lo: int, mid: int, hi: int, k1: Kind,
                 k2: Kind)
    requires Tags(C, head, foot) && Stretch(C, lo, hi) && Tagged2(C, head, foot, head', foot', lo, mid, hi, k1, k2)
    ensures Tags(Cut2(C, lo, mid, hi, k1, k2), head', foot')
  {
    hide TagOk, InOrder;
    var C' := Cut2(C, lo, mid, hi, k1, k2);
    Cut2IsRecut(C, lo, mid, hi, k1, k2);
    Cut2Ends(C, head, foot, head', foot', lo, mid, hi, k1, k2);
    Cut2End(C, head, foot, head', foot', lo, mid, hi, k1, k2);
    forall p ensures TagOk(C', head', foot', p) {
      if !(lo <= p <= hi) {
        RecutTag(C, head, foot, C', head', foot', lo, hi, p);
      } else if p !in C' {
        AbsentTag(C', head', foot', p);
      }
    }
    forall p, q ensures InOrder(C', p, q) {
      if lo <= p < hi && lo <= q < hi { Cut2Order(C, lo, mid, hi, k1, k2, p, q); }
      RecutOrder(C, head, foot, C', lo, hi, p, q);
    }
  }

  lemma AbsentTag(C: Chunks, head: Heads, foot: Field, p: int)
    ensures p !in C ==> TagOk(C, head, foot, p)
  {
  }

  lemma Cut2Order(C: Chunks, lo: int, mid: int, hi: int, k1: Kind, k2: Kind, p: int, q: int)
    requires lo < mid < hi && lo <= p < hi && lo <= q < hi
    ensures InOrder(Cut2(C, lo, mid, hi, k1, k2), p, q)
  {
  }
}
