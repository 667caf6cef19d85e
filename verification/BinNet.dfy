/** The linked structure behind the bins: circular lists of equal-sized chunks and the forest of tries.

    Beside the link fields stand ghost views of them: `ring` gives the size of each list member, which is
    a chunk or the header of a non-empty small bin; `anchor` gives, for each size held, the member its
    ring hangs from (the header, or the chunk that is the tree node); `rank` orders the members by the
    time they came in, so that going back along a ring leads to the anchor; `trie` gives the chunk that
    stands at a slot of the forest and `pos` the slot of such a chunk. */
module BinNet {
  import opened Bitmap
  import opened Sizes
  import opened Slots
  import opened Memory

  /** Addresses inside the allocator's own record: the header of a small bin, the slot of a tree bin. */
  function Header(i: nat): int {
    -64 * (i + 1)
  }

  function TreeBin(i: nat): int {
    -4096 - 8 * i
  }

  predicate IsChunkSize(s: nat) {
    MIN_CHUNK <= s < WORD_RANGE && s % ALIGNMENT == 0
  }

  /** Every member belongs to the ring of its size, and only anchors can be headers. */
  ghost predicate MembersOk(ring: map<int, nat>, anchor: map<nat, int>) {
    && (forall a | a in ring :: ring[a] in anchor && (a > 0 || a == anchor[ring[a]]))
    && (forall s | s in anchor :: anchor[s] in ring && ring[anchor[s]] == s && IsChunkSize(s))
    && (forall s | s in anchor :: if s < MIN_LARGE then anchor[s] == Header(s / 8) else anchor[s] > 0)
  }

  /** `a` is linked both ways to members of its own ring. */
  ghost predicate LinkedAt(fd: Field, bk: Field, ring: map<int, nat>, a: int) {
    a in ring ==>
      fd.At(a) in ring && ring[fd.At(a)] == ring[a] && bk.At(fd.At(a)) == a &&
      bk.At(a) in ring && ring[bk.At(a)] == ring[a] && fd.At(bk.At(a)) == a
  }

  /** Going back from `a` leads to the anchor, or to a member that came in later. */
  ghost predicate OrderedAt(bk: Field, ring: map<int, nat>, anchor: map<nat, int>, rank: map<int, int>, a: int) {
    a in ring && ring[a] in anchor && a != anchor[ring[a]] ==>
      bk.At(a) == anchor[ring[a]] || (a in rank && bk.At(a) in rank && rank[a] < rank[bk.At(a)])
  }

  ghost predicate RanksOk(ring: map<int, nat>, rank: map<int, int>, clock: int) {
    forall a | a in ring :: a in rank && rank[a] < clock
  }

  /** Of the large chunks of one size the tree node is the one that came in first. */
  ghost predicate OldestOk(ring: map<int, nat>, anchor: map<nat, int>, rank: map<int, int>) {
    forall a | a in ring && ring[a] >= MIN_LARGE :: NotBefore(ring, anchor, rank, a)
  }

  ghost predicate NotBefore(ring: map<int, nat>, anchor: map<nat, int>, rank: map<int, int>, a: int) {
    a in ring && ring[a] in anchor && a in rank && anchor[ring[a]] in rank ==> rank[anchor[ring[a]]] <= rank[a]
  }

  /** Equal-sized chunks form one doubly linked circle through their anchor, with at least one chunk. */
  ghost predicate RingsOk(fd: Field, bk: Field, ring: map<int, nat>, anchor: map<nat, int>, rank: map<int, int>) {
    && (forall a {:trigger LinkedAt(fd, bk, ring, a)} :: LinkedAt(fd, bk, ring, a))
    && (forall a {:trigger OrderedAt(bk, ring, anchor, rank, a)} :: OrderedAt(bk, ring, anchor, rank, a))
    && (forall s | s in anchor && s < MIN_LARGE :: fd.At(anchor[s]) != anchor[s])
  }

  /** The small map marks the bins of the sizes held. */
  ghost predicate SmallMapOk(m: nat, anchor: map<nat, int>) {
    m < Pow2(NBINS) && forall i: nat {:trigger Bit(m, i)} :: Bit(m, i) <==> i < NBINS && 8 * i in anchor
  }

  /** Large chunks record their bin; those beside the tree node have no tree links. */
  ghost predicate TagsOk(left: Field, right: Field, parent: Field, index: Field, ring: map<int, nat>,
                         anchor: map<nat, int>) {
    && (forall a {:trigger index.At(a)} :: a in ring && ring[a] >= MIN_LARGE ==> index.At(a) == TreeIndex(ring[a]))
    && (forall a {:trigger left.At(a)} {:trigger right.At(a)} {:trigger parent.At(a)} ::
          a in ring && ring[a] >= MIN_LARGE && ring[a] in anchor && a != anchor[ring[a]] ==>
            left.At(a) == 0 && right.At(a) == 0 && parent.At(a) == 0)
  }

  /** Slot `k` is used by the tree node of a size whose bits fit there, and its parent slot is used. */
  ghost predicate SlotOk(trie: map<nat, int>, ring: map<int, nat>, anchor: map<nat, int>, k: nat) {
    k in trie ==>
      && IsSlot(k) && (k >= 64 ==> k / 2 in trie) && FreeBits(k) >= 4
      && trie[k] in ring && ring[trie[k]] in anchor && anchor[ring[trie[k]]] == trie[k]
      && IsTreeSize(ring[trie[k]]) && InSlot(ring[trie[k]], k)
  }

  /** `pos` inverts `trie`. */
  ghost predicate PosOk(trie: map<nat, int>, pos: map<int, nat>) {
    forall k | k in trie :: IsSlot(k) && trie[k] > 0 && trie[k] in pos && pos[trie[k]] == k
  }

  /** Every large size in the bins stands at exactly one slot. */
  ghost predicate TrieOk(trie: map<nat, int>, pos: map<int, nat>, ring: map<int, nat>, anchor: map<nat, int>) {
    && (forall k {:trigger SlotOk(trie, ring, anchor, k)} :: SlotOk(trie, ring, anchor, k))
    && PosOk(trie, pos)
    && (forall s | s in anchor && s >= MIN_LARGE ::
          anchor[s] in pos && pos[anchor[s]] in trie && trie[pos[anchor[s]]] == anchor[s])
  }

  /** The chunk at slot `k`, or null. */
  ghost function NodeAt(trie: map<nat, int>, k: nat): int {
    if k in trie then trie[k] else 0
  }

  ghost function ParentAt(trie: map<nat, int>, k: nat): int {
    if k < 32 then 0 else if k < 64 then TreeBin(k - 32) else NodeAt(trie, k / 2)
  }

  ghost predicate LeftOk(left: Field, trie: map<nat, int>, k: nat) {
    k in trie ==> left.At(trie[k]) == NodeAt(trie, 2 * k)
  }

  ghost predicate RightOk(right: Field, trie: map<nat, int>, k: nat) {
    k in trie ==> right.At(trie[k]) == NodeAt(trie, 2 * k + 1)
  }

  ghost predicate UpOk(parent: Field, trie: map<nat, int>, k: nat) {
    k in trie ==> parent.At(trie[k]) == ParentAt(trie, k)
  }

  ghost predicate NodeOk(left: Field, right: Field, parent: Field, trie: map<nat, int>, k: nat) {
    LeftOk(left, trie, k) && RightOk(right, trie, k) && UpOk(parent, trie, k)
  }

  /** Parent and child links are mutual and follow the slots. */
  ghost predicate NodesOk(left: Field, right: Field, parent: Field, trie: map<nat, int>) {
    forall k {:trigger NodeOk(left, right, parent, trie, k)} :: NodeOk(left, right, parent, trie, k)
  }

  ghost predicate RootsOk(roots: seq<int>, trie: map<nat, int>) {
    |roots| == NBINS && forall i | 0 <= i < NBINS :: roots[i] == NodeAt(trie, 32 + i)
  }

  /** The tree map marks the bins with a root. */
  ghost predicate TreeMapOk(m: nat, trie: map<nat, int>) {
    m < Pow2(NBINS) && forall i: nat {:trigger Bit(m, i)} :: Bit(m, i) <==> i < NBINS && 32 + i in trie
  }

  lemma {:induction false} TrieClosed(trie: map<nat, int>, pos: map<int, nat>, ring: map<int, nat>,
                                      anchor: map<nat, int>, j: nat, k: nat)
    requires TrieOk(trie, pos, ring, anchor) && IsSlot(k) && j in trie && Under(j, k)
    ensures k in trie
  {
    assert SlotOk(trie, ring, anchor, j);
    if j != k {
      if j < 64 {
        RootIsTop(j, k);
      }
      TrieClosed(trie, pos, ring, anchor, j / 2, k);
    }
  }

  /** A ring that does not reach beyond its anchor has no other member. */
  lemma {:induction false} LoneAnchor(fd: Field, bk: Field, ring: map<int, nat>, anchor: map<nat, int>,
                                      rank: map<int, int>, clock: int, a: int)
    requires MembersOk(ring, anchor) && RanksOk(ring, rank, clock) && RingsOk(fd, bk, ring, anchor, rank) && a in ring
    requires fd.At(anchor[ring[a]]) == anchor[ring[a]]
    ensures a == anchor[ring[a]]
    decreases clock - rank[a]
  {
    var t := anchor[ring[a]];
    if a != t {
      assert LinkedAt(fd, bk, ring, a) && OrderedAt(bk, ring, anchor, rank, a);
      if bk.At(a) != t {
        LoneAnchor(fd, bk, ring, anchor, rank, clock, bk.At(a));
      }
    }
  }

  // ----- linking in and out of a circle

  lemma JoinedFields(fd: Field, bk: Field, t: int, x: int, a: int)
    requires bk.At(fd.At(t)) == t && bk.At(fd.At(a)) == a && fd.At(bk.At(a)) == a
    requires x != t && x != fd.At(t) && x != a && x != fd.At(a) && x != bk.At(a)
    ensures var fd', bk' := fd.Set(t, x).Set(x, fd.At(t)), bk.Set(fd.At(t), x).Set(x, t);
            && bk'.At(fd'.At(a)) == a && fd'.At(bk'.At(a)) == a
            && bk'.At(fd'.At(x)) == x && fd'.At(bk'.At(x)) == x
            && fd'.At(a) == (if a == t then x else fd.At(a)) && bk'.At(a) == (if a == fd.At(t) then x else bk.At(a))
            && fd'.At(x) == fd.At(t) && bk'.At(x) == t
  {
  }

  lemma JoinedLinks(fd: Field, bk: Field, ring: map<int, nat>, t: int, x: int, a: int)
    requires LinkedAt(fd, bk, ring, t) && LinkedAt(fd, bk, ring, a) && t in ring && x !in ring
    ensures LinkedAt(fd.Set(t, x).Set(x, fd.At(t)), bk.Set(fd.At(t), x).Set(x, t), ring[x := ring[t]], a)
  {
    if a in ring {
      JoinedFields(fd, bk, t, x, a);
    } else if a == x {
      JoinedFields(fd, bk, t, x, t);
    }
  }

  lemma LeftFields(fd: Field, bk: Field, x: int, a: int)
    requires bk.At(fd.At(x)) == x && fd.At(bk.At(x)) == x && bk.At(fd.At(a)) == a && fd.At(bk.At(a)) == a
    requires a != x
    ensures var fd', bk' := fd.Set(bk.At(x), fd.At(x)), bk.Set(fd.At(x), bk.At(x));
            && bk'.At(fd'.At(a)) == a && fd'.At(bk'.At(a)) == a && fd'.At(a) != x && bk'.At(a) != x
            && fd'.At(a) == (if a == bk.At(x) then fd.At(x) else fd.At(a))
            && bk'.At(a) == (if a == fd.At(x) then bk.At(x) else bk.At(a))
  {
  }

  lemma LeftLinks(fd: Field, bk: Field, ring: map<int, nat>, x: int, a: int)
    requires LinkedAt(fd, bk, ring, x) && LinkedAt(fd, bk, ring, a) && x in ring
    ensures LinkedAt(fd.Set(bk.At(x), fd.At(x)), bk.Set(fd.At(x), bk.At(x)), ring - {x}, a)
  {
    if a in ring && a != x {
      LeftFields(fd, bk, x, a);
    }
  }

  // ----- a chunk of a size already held

  lemma JoinedOrder(fd: Field, bk: Field, ring: map<int, nat>, anchor: map<nat, int>, rank: map<int, int>, clock: int,
                    x: int, s: nat, a: int)
    requires MembersOk(ring, anchor) && RanksOk(ring, rank, clock) && s in anchor && x !in ring
    requires LinkedAt(fd, bk, ring, anchor[s]) && LinkedAt(fd, bk, ring, a) && OrderedAt(bk, ring, anchor, rank, a)
    ensures var t := anchor[s]; OrderedAt(bk.Set(fd.At(t), x).Set(x, t), ring[x := s], anchor, rank[x := clock], a)
  {
    if a in ring {
      JoinedFields(fd, bk, anchor[s], x, a);
    }
  }

  /** `x` linked in right behind the anchor of its size. */
  lemma JoinedRings(fd: Field, bk: Field, ring: map<int, nat>, anchor: map<nat, int>, rank: map<int, int>, clock: int,
                    x: int, s: nat)
    requires MembersOk(ring, anchor) && RanksOk(ring, rank, clock) && RingsOk(fd, bk, ring, anchor, rank)
    requires s in anchor && x > 0 && x !in ring
    ensures var t := anchor[s]; var f := fd.At(t);
            RingsOk(fd.Set(t, x).Set(x, f), bk.Set(f, x).Set(x, t), ring[x := s], anchor, rank[x := clock])
  {
    var t := anchor[s];
    var f := fd.At(t);
    var fd', bk', ring', rank' := fd.Set(t, x).Set(x, f), bk.Set(f, x).Set(x, t), ring[x := s], rank[x := clock];
    assert LinkedAt(fd, bk, ring, t);
    forall a ensures LinkedAt(fd', bk', ring', a) && OrderedAt(bk', ring', anchor, rank', a) {
      assert LinkedAt(fd, bk, ring, a) && OrderedAt(bk, ring, anchor, rank, a);
      JoinedLinks(fd, bk, ring, t, x, a);
      JoinedOrder(fd, bk, ring, anchor, rank, clock, x, s, a);
    }
  }

  // ----- a chunk that leaves others of its size behind

  lemma LeftOrder(fd: Field, bk: Field, ring: map<int, nat>, anchor: map<nat, int>, rank: map<int, int>, x: int, a: int)
    requires MembersOk(ring, anchor) && x in ring && bk.At(x) != x
    requires LinkedAt(fd, bk, ring, x) && LinkedAt(fd, bk, ring, a)
    requires OrderedAt(bk, ring, anchor, rank, a) && OrderedAt(bk, ring, anchor, rank, x)
    ensures OrderedAt(bk.Set(fd.At(x), bk.At(x)), ring - {x}, Heir(fd, bk, ring, anchor, x), rank, a)
  {
    if a in ring && a != x {
      LeftFields(fd, bk, x, a);
    }
  }

  /** The anchors after `x` has gone: its predecessor takes the place of an anchor. */
  ghost function Heir(fd: Field, bk: Field, ring: map<int, nat>, anchor: map<nat, int>, x: int): map<nat, int>
    requires x in ring && ring[x] in anchor
  {
    if x == anchor[ring[x]] then anchor[ring[x] := bk.At(x)] else anchor
  }

  lemma LeftMembers(fd: Field, bk: Field, ring: map<int, nat>, anchor: map<nat, int>, x: int)
    requires MembersOk(ring, anchor) && x > 0 && x in ring && LinkedAt(fd, bk, ring, x) && bk.At(x) != x
    ensures MembersOk(ring - {x}, Heir(fd, bk, ring, anchor, x))
  {
  }

  lemma LeftRings(fd: Field, bk: Field, ring: map<int, nat>, anchor: map<nat, int>, rank: map<int, int>, x: int)
    requires MembersOk(ring, anchor) && RingsOk(fd, bk, ring, anchor, rank) && x > 0 && x in ring
    requires bk.At(x) != x && (ring[x] < MIN_LARGE ==> bk.At(x) != fd.At(x))
    ensures RingsOk(fd.Set(bk.At(x), fd.At(x)), bk.Set(fd.At(x), bk.At(x)), ring - {x}, Heir(fd, bk, ring, anchor, x),
                    rank)
  {
    var f, b, anchor' := fd.At(x), bk.At(x), Heir(fd, bk, ring, anchor, x);
    var fd', bk', ring' := fd.Set(b, f), bk.Set(f, b), ring - {x};
    assert LinkedAt(fd, bk, ring, x) && OrderedAt(bk, ring, anchor, rank, x);
    forall a ensures LinkedAt(fd', bk', ring', a) && OrderedAt(bk', ring', anchor', rank, a) {
      assert LinkedAt(fd, bk, ring, a) && OrderedAt(bk, ring, anchor, rank, a);
      LeftLinks(fd, bk, ring, x, a);
      LeftOrder(fd, bk, ring, anchor, rank, x, a);
    }
  }

  // ----- the first chunk of a small size, and the last

  lemma OpenedMembers(ring: map<int, nat>, anchor: map<nat, int>, x: int, s: nat)
    requires MembersOk(ring, anchor) && IsChunkSize(s) && s < MIN_LARGE && s !in anchor && x > 0 && x !in ring
    ensures Header(s / 8) !in ring
    ensures MembersOk(ring[Header(s / 8) := s][x := s], anchor[s := Header(s / 8)])
  {
  }

  lemma OpenedLinks(fd: Field, bk: Field, ring: map<int, nat>, h: int, x: int, s: nat, a: int)
    requires LinkedAt(fd, bk, ring, a) && h !in ring && x !in ring && h != x
    ensures LinkedAt(fd.Set(h, x).Set(x, h), bk.Set(h, x).Set(x, h), ring[h := s][x := s], a)
  {
  }

  lemma OpenedRing(fd: Field, bk: Field, ring: map<int, nat>, anchor: map<nat, int>, rank: map<int, int>, clock: int,
                   h: int, x: int, s: nat)
    requires RingsOk(fd, bk, ring, anchor, rank) && MembersOk(ring, anchor)
    requires s !in anchor && h !in ring && x !in ring && h != x
    ensures RingsOk(fd.Set(h, x).Set(x, h), bk.Set(h, x).Set(x, h), ring[h := s][x := s], anchor[s := h],
                    rank[h := clock][x := clock])
  {
    var ring', anchor', rank' := ring[h := s][x := s], anchor[s := h], rank[h := clock][x := clock];
    var fd', bk' := fd.Set(h, x).Set(x, h), bk.Set(h, x).Set(x, h);
    forall a ensures LinkedAt(fd', bk', ring', a) {
      assert LinkedAt(fd, bk, ring, a);
      OpenedLinks(fd, bk, ring, h, x, s, a);
    }
    forall a ensures OrderedAt(bk', ring', anchor', rank', a) {
      assert LinkedAt(fd, bk, ring, a) && OrderedAt(bk, ring, anchor, rank, a);
    }
  }

  lemma ClosedRing(fd: Field, bk: Field, ring: map<int, nat>, anchor: map<nat, int>, rank: map<int, int>, clock: int,
                   x: int)
    requires MembersOk(ring, anchor) && RanksOk(ring, rank, clock) && RingsOk(fd, bk, ring, anchor, rank)
    requires x > 0 && x in ring && ring[x] < MIN_LARGE && fd.At(x) == bk.At(x)
    ensures var h := Header(ring[x] / 8); var ring', anchor' := ring - {x, h}, anchor - {ring[x]};
            && fd.At(x) == h && h in ring
            && MembersOk(ring', anchor') && RanksOk(ring', rank, clock) && RingsOk(fd, bk, ring', anchor', rank)
  {
    var h := Header(ring[x] / 8);
    var ring', anchor' := ring - {x, h}, anchor - {ring[x]};
    assert LinkedAt(fd, bk, ring, x) && OrderedAt(bk, ring, anchor, rank, x);
    assert OrderedAt(bk, ring, anchor, rank, fd.At(x));
    assert fd.At(x) == h;
    assert LinkedAt(fd, bk, ring, h);
    forall a ensures LinkedAt(fd, bk, ring', a) && OrderedAt(bk, ring', anchor', rank, a) {
      assert LinkedAt(fd, bk, ring, a) && OrderedAt(bk, ring, anchor, rank, a);
    }
    forall a | a in ring' ensures ring'[a] in anchor' {
      if ring[a] == ring[x] {
        Pair(fd, bk, ring, anchor, rank, clock, x, a);
      }
    }
  }

  /** A small chunk whose two neighbours are one and the same header is alone behind it. */
  lemma {:induction false} Pair(fd: Field, bk: Field, ring: map<int, nat>, anchor: map<nat, int>, rank: map<int, int>,
                                clock: int, x: int, a: int)
    requires MembersOk(ring, anchor) && RanksOk(ring, rank, clock) && RingsOk(fd, bk, ring, anchor, rank)
    requires x in ring && fd.At(x) == bk.At(x) == anchor[ring[x]] && a in ring && ring[a] == ring[x]
    ensures a == x || a == anchor[ring[x]]
    decreases clock - rank[a]
  {
    var h := anchor[ring[x]];
    if a != x && a != h {
      assert LinkedAt(fd, bk, ring, a) && OrderedAt(bk, ring, anchor, rank, a) && LinkedAt(fd, bk, ring, x);
      if bk.At(a) != h {
        Pair(fd, bk, ring, anchor, rank, clock, x, bk.At(a));
      }
    }
  }
}
