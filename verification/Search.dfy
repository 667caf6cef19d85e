/** Finding the smallest tree chunk that fits: the search half of `tmalloc_large` and `tmalloc_small`. */
module Search {
  import opened Bitmap
  import opened Sizes
  import opened Slots
  import opened Memory
  import opened BinNet
  import opened TrieNet
  import opened Bins

  /** Size `s` is too small for the request, or no better than the best fit so far. */
  predicate Settled(nb: nat, rsize: nat, s: nat) {
    s < nb || s - nb >= rsize
  }

  /** Size `s` is settled, or stands under slot `k`, or is beaten by the node there. */
  ghost predicate SettledBut(net: Net, nb: nat, rsize: nat, k: nat, s: nat) {
    s in net.anchor && s >= MIN_LARGE ==>
      || Settled(nb, rsize, s)
      || (net.anchor[s] in net.pos && IsSlot(k) && Under(net.pos[net.anchor[s]], k))
      || (k in net.trie && net.trie[k] in net.ring && net.ring[net.trie[k]] < s)
  }

  ghost predicate AllSettledBut(net: Net, nb: nat, rsize: nat, k: nat) {
    forall s: nat {:trigger SettledBut(net, nb, rsize, k, s)} :: SettledBut(net, nb, rsize, k, s)
  }

  ghost predicate AllSettled(net: Net, nb: nat, rsize: nat) {
    forall s | s in net.anchor && s >= MIN_LARGE :: Settled(nb, rsize, s)
  }

  /** Whatever fits slot `k` is big enough for the request. */
  ghost predicate AllAbove(nb: nat, k: nat)
    requires IsSlot(k)
  {
    forall u: nat {:trigger InSlot(u, k)} :: InSlot(u, k) && IsTreeSize(u) ==> nb <= u
  }

  /** The slots of the forest, as the search needs them. */
  ghost predicate Forest(net: Net) {
    MembersOk(net.ring, net.anchor) && TrieOk(net.trie, net.pos, net.ring, net.anchor)
  }

  lemma SizeAt(net: Net, k: nat)
    requires Forest(net) && k in net.trie
    ensures IsSlot(k) && net.trie[k] in net.ring && IsTreeSize(net.ring[net.trie[k]])
            && InSlot(net.ring[net.trie[k]], k) && FreeBits(k) >= 4
    ensures net.ring[net.trie[k]] in net.anchor && net.anchor[net.ring[net.trie[k]]] == net.trie[k]
            && net.trie[k] in net.pos && net.pos[net.trie[k]] == k
  {
    hide InSlot, FreeBits, MembersOk;
    assert SlotOk(net.trie, net.ring, net.anchor, k);
  }

  lemma SlotOfSize(net: Net, s: nat)
    requires Forest(net) && s in net.anchor && s >= MIN_LARGE
    ensures var k := net.pos[net.anchor[s]];
            net.anchor[s] in net.pos && k in net.trie && net.trie[k] == net.anchor[s] && net.ring[net.anchor[s]] == s
            && IsSlot(k) && InSlot(s, k) && IsTreeSize(s)
  {
    hide InSlot, FreeBits;
    assert SlotOk(net.trie, net.ring, net.anchor, net.pos[net.anchor[s]]);
  }

  // ----- the walk along leftmost children

  /** After the node at `k` has been looked at, the search can go on at its leftmost child. */
  lemma LeftmostStep(net: Net, nb: nat, rsize: nat, k: nat, s: nat)
    requires Forest(net) && k in net.trie && IsSlot(k) && SettledBut(net, nb, rsize, k, s) && net.trie[k] in net.ring
    requires Settled(nb, rsize, net.ring[net.trie[k]]) && net.ring[net.trie[k]] >= nb
    ensures 2 * k in net.trie ==> SettledBut(net, nb, rsize, 2 * k, s)
    ensures 2 * k !in net.trie && 2 * k + 1 in net.trie ==> SettledBut(net, nb, rsize, 2 * k + 1, s)
    ensures 2 * k !in net.trie && 2 * k + 1 !in net.trie && s in net.anchor && s >= MIN_LARGE ==> Settled(nb, rsize, s)
  {
    if s in net.anchor && s >= MIN_LARGE && !Settled(nb, rsize, s) {
      SlotOfSize(net, s);
      SizeAt(net, k);
      var j := net.pos[net.anchor[s]];
      UnderSplit(j, k);
      if Under(j, 2 * k) {
        TrieClosed(net.trie, net.pos, net.ring, net.anchor, j, 2 * k);
      } else if Under(j, 2 * k + 1) {
        TrieClosed(net.trie, net.pos, net.ring, net.anchor, j, 2 * k + 1);
        if 2 * k in net.trie {
          SizeAt(net, 2 * k);
          UnderFits(s, j, 2 * k + 1);
          LeftBelowRight(net.ring[net.trie[2 * k]], s, k);
        }
      }
    }
  }

  // ----- the walk towards the requested size

  /** The walk stands at slot `k`, where size `nb` itself would fit; `kr` is the deepest right subtree
      passed by on the left, or 0. */
  ghost predicate Walk(net: Net, nb: nat, k: nat, kr: nat) {
    && IsSlot(k) && k in net.trie && InSlot(nb, k) && IsTreeSize(nb) && 0 <= FreeBits(k) <= 64
    && (kr != 0 ==> kr in net.trie && PassedBy(nb, k, kr))
  }

  /** `kr` is a right child, and both `nb` and slot `k` belong to its left sibling. */
  ghost predicate PassedBy(nb: nat, k: nat, kr: nat) {
    kr >= 64 && kr % 2 == 1 && InSlot(nb, kr - 1) && Under(k, kr - 1)
  }

  ghost predicate Searching(net: Net, nb: nat, rsize: nat, k: nat, kr: nat, s: nat) {
    s in net.anchor && s >= MIN_LARGE && TreeIndex(s) == TreeIndex(nb) && net.anchor[s] in net.pos ==>
      || Settled(nb, rsize, s)
      || (IsSlot(k) && Under(net.pos[net.anchor[s]], k))
      || Beyond(net, kr, s)
  }

  /** Size `s` stands in the subtree passed by, or is beaten by its root. */
  ghost predicate Beyond(net: Net, kr: nat, s: nat) {
    kr in net.trie && IsSlot(kr) && net.trie[kr] in net.ring && s in net.anchor && net.anchor[s] in net.pos &&
    (Under(net.pos[net.anchor[s]], kr) || net.ring[net.trie[kr]] < s)
  }

  /** What lies beyond the old subtree passed by is beaten by the root of a new one further down. */
  lemma BeyondStep(net: Net, nb: nat, k: nat, kr: nat, s: nat)
    requires Forest(net) && Walk(net, nb, k, kr) && kr != 0 && 2 * k + 1 in net.trie && s >= MIN_LARGE
             && Beyond(net, kr, s)
    ensures Beyond(net, 2 * k + 1, s)
  {
    SlotOfSize(net, s);
    SizeAt(net, 2 * k + 1);
    SizeAt(net, kr);
    var u := net.ring[net.trie[2 * k + 1]];
    ChildInParent(u, 2 * k + 1);
    UnderFits(u, k, kr - 1);
    var j := kr / 2;
    assert kr == 2 * j + 1;
    if Under(net.pos[net.anchor[s]], kr) {
      UnderFits(s, net.pos[net.anchor[s]], kr);
      LeftBelowRight(u, s, j);
    } else {
      LeftBelowRight(u, net.ring[net.trie[kr]], j);
    }
  }

  /** One level down towards `nb`, on side `side`: where each size of the bin then stands. */
  lemma WalkStep(net: Net, nb: nat, rsize: nat, k: nat, kr: nat, side: nat, kr': nat, s: nat)
    requires Forest(net) && Walk(net, nb, k, kr) && Searching(net, nb, rsize, k, kr, s)
    requires net.trie[k] in net.ring && Settled(nb, rsize, net.ring[net.trie[k]])
    requires side <= 1 && FreeBits(k) > 4 && InSlot(nb, 2 * k + side)
    requires kr' == if side == 0 && 2 * k + 1 in net.trie then 2 * k + 1 else kr
    ensures Searching(net, nb, rsize, 2 * k + side, kr', s)
    ensures 2 * k + side !in net.trie && s in net.anchor && s >= MIN_LARGE && TreeIndex(s) == TreeIndex(nb)
            && net.anchor[s] in net.pos ==>
              Settled(nb, rsize, s) || Beyond(net, kr', s)
  {
    hide TreeIndex, MembersOk, TrieOk, InSlot, FreeBits, PassedBy;
    if s in net.anchor && s >= MIN_LARGE && TreeIndex(s) == TreeIndex(nb) && !Settled(nb, rsize, s) {
      SlotOfSize(net, s);
      SizeAt(net, k);
      var j := net.pos[net.anchor[s]];
      if Under(j, k) {
        UnderSplit(j, k);
        if Under(j, 2 * k) {
          TrieClosed(net.trie, net.pos, net.ring, net.anchor, j, 2 * k);
          if side == 1 {
            UnderFits(s, j, 2 * k);
            LeftBelowRight(s, nb, k);
          }
        } else if Under(j, 2 * k + 1) {
          TrieClosed(net.trie, net.pos, net.ring, net.anchor, j, 2 * k + 1);
          SizeAt(net, 2 * k + 1);
        }
      } else if kr' != kr {
        BeyondStep(net, nb, k, kr, s);
      }
    }
  }

  /** The walk itself goes on. */
  lemma WalkOn(net: Net, nb: nat, k: nat, kr: nat, side: nat, kr': nat)
    requires Forest(net) && Walk(net, nb, k, kr) && net.trie[k] in net.ring && net.ring[net.trie[k]] != nb
    requires side == SignBit(ShiftedAt(nb, k)) && kr' == if side == 0 && 2 * k + 1 in net.trie then 2 * k + 1 else kr
    ensures FreeBits(k) > 4 && InSlot(nb, 2 * k + side) && FreeBits(2 * k + side) == FreeBits(k) - 1
    ensures ShiftedAt(nb, 2 * k + side) == ShiftOnce(ShiftedAt(nb, k))
    ensures 2 * k + side in net.trie ==> Walk(net, nb, 2 * k + side, kr')
    ensures kr' != 0 ==> kr' in net.trie && PassedBy(nb, 2 * k + side, kr')
  {
    hide TreeIndex, Forest, InSlot, FreeBits, ShiftedAt, ShiftOnce, SignBit, PassedBy;
    SizeAt(net, k);
    DescentFits(nb, net.ring[net.trie[k]], k);
    if kr' == kr {
      if kr != 0 { StillPassed(nb, k, kr, side); }
    } else {
      JustPassed(nb, k);
    }
  }

  lemma StillPassed(nb: nat, k: nat, kr: nat, side: nat)
    requires IsSlot(k) && side <= 1 && PassedBy(nb, k, kr)
    ensures PassedBy(nb, 2 * k + side, kr)
  {
    hide InSlot, Under;
    ChildUnder(k, side);
    UnderTrans(2 * k + side, k, kr - 1);
  }

  lemma JustPassed(nb: nat, k: nat)
    requires IsSlot(k) && InSlot(nb, 2 * k)
    ensures PassedBy(nb, 2 * k, 2 * k + 1)
  {
    hide InSlot, Under;
    ChildUnder(k, 0);
  }

  lemma ChildUnder(k: nat, side: nat)
    requires IsSlot(k) && side <= 1
    ensures Under(2 * k + side, k) && Under(2 * k + side, 2 * k + side)
  {
  }

  // ----- the loops

  /** `v` is the best fit so far, with `rsize` bytes to spare; null while nothing fits. */
  ghost predicate BestSoFar(chunks: map<int, nat>, nb: nat, v: int, rsize: nat) {
    && nb < WORD_RANGE
    && (v == 0 ==> rsize == WORD_RANGE - nb)
    && (v != 0 ==> v in chunks && chunks[v] == nb + rsize && IsTreeSize(chunks[v]))
  }

  /** `v` is null or a tree node. */
  ghost predicate IsNode(net: Net, v: int) {
    v == 0 || (v in net.ring && net.ring[v] in net.anchor && net.anchor[net.ring[v]] == v)
  }

  /** So the best fit is the chunk of its size that came in first. */
  lemma FitIsOldest(b: Bins, v: int, rsize: nat, nb: nat)
    requires b.Valid() && IsNode(b.net, v) && BestSoFar(b.chunks, nb, v, rsize)
    ensures v != 0 ==> Oldest(b.chunks, b.net.rank, v)
  {
    hide ListsOk, TreesOk, RootsOk, SmallMapOk, TreeMapOk, Oldest;
    if v != 0 {
      NodeIsOldest(b.mem.fd, b.mem.bk, b.chunks, b.net.ring, b.net.anchor, b.net.rank, b.net.clock, v);
    }
  }

  /** Where the walk along leftmost children stands: at the node of slot `k`, or at the end. */
  ghost predicate AtNode(net: Net, nb: nat, rsize: nat, t: int, k: nat) {
    if t == 0 then AllSettled(net, nb, rsize)
    else
      k in net.trie && net.trie[k] == t && IsSlot(k) && AllSettledBut(net, nb, rsize, k)
      && (rsize == 0 || AllAbove(nb, k))
  }

  lemma LeftmostNext(net: Net, nb: nat, rsize: nat, t: int, k: nat, t': int, k': nat)
    requires Forest(net) && k in net.trie && IsSlot(k) && AllSettledBut(net, nb, rsize, k)
             && (rsize == 0 || AllAbove(nb, k))
    requires net.trie[k] in net.ring && (rsize == 0 || Settled(nb, rsize, net.ring[net.trie[k]]))
    requires t' == if 2 * k in net.trie then net.trie[2 * k] else NodeAt(net.trie, 2 * k + 1)
    requires k' == if 2 * k in net.trie then 2 * k else 2 * k + 1
    ensures AtNode(net, nb, rsize, t', k')
  {
    hide InSlot, FreeBits, MembersOk, TreeIndex;
    SizeAt(net, k);
    NullIsFree(net.ring, net.anchor, net.trie, net.pos, 2 * k);
    NullIsFree(net.ring, net.anchor, net.trie, net.pos, 2 * k + 1);
    if rsize == 0 {
      assert forall s: nat :: Settled(nb, rsize, s);
    } else {
      forall s: nat
        ensures t' != 0 ==> SettledBut(net, nb, rsize, k', s)
        ensures t' == 0 && s in net.anchor && s >= MIN_LARGE ==> Settled(nb, rsize, s)
      {
        assert SettledBut(net, nb, rsize, k, s);
        LeftmostStep(net, nb, rsize, k, s);
      }
      forall u: nat | InSlot(u, k') ensures InSlot(u, k) {
        ChildInParent(u, k');
      }
    }
  }

  /** The smallest fitting size under slot `k`, found along leftmost children. */
  method WalkLeftmost(b: Bins, nb: nat, t0: int, v0: int, rsize0: nat, ghost k0: nat) returns (v: int, rsize: nat)
    requires b.Valid() && b.HeadsAgree() && nb < WORD_RANGE
    requires BestSoFar(b.chunks, nb, v0, rsize0) && AtNode(b.net, nb, rsize0, t0, k0)
    requires IsNode(b.net, v0)
    ensures BestSoFar(b.chunks, nb, v, rsize) && AllSettled(b.net, nb, rsize)
    ensures IsNode(b.net, v)
  {
    hide ListsOk, TreesOk, RootsOk, SmallMapOk, TreeMapOk, ChunksOk, MembersOk, RanksOk, RingsOk, TagsOk, TrieOk,
         NodesOk,
      InSlot, FreeBits, TreeIndex, AllSettled, AllSettledBut;
    ghost var ring, anchor, trie, pos := b.net.ring, b.net.anchor, b.net.trie, b.net.pos;
    Parts(b.mem.fd, b.mem.bk, b.mem.left, b.mem.right, b.mem.parent, b.mem.index, b.chunks, ring, anchor, b.net.rank,
          b.net.clock, trie, pos, 0);
    var t := t0;
    ghost var k := k0;
    v, rsize := v0, rsize0;
    while t != 0
      invariant BestSoFar(b.chunks, nb, v, rsize) && AtNode(b.net, nb, rsize, t, k) && IsNode(b.net, v)
      decreases if t != 0 then FreeBits(k) + 1 else 0
    {
      NodeFacts(b.chunks, ring, anchor, trie, pos, k);
      NodeLinks(b.mem.left, b.mem.right, b.mem.parent, trie, k);
      SizeAt(b.net, k);
      var trem := Minus(b.mem.head.At(t).size, nb);
      ghost var rsize1 := rsize;
      if trem < rsize {
        rsize, v := trem, t;
      }
      SettledLess(b.net, nb, rsize1, rsize, k);
      NullIsFree(ring, anchor, trie, pos, 2 * k);
      NullIsFree(ring, anchor, trie, pos, 2 * k + 1);
      var left := b.mem.left.At(t);
      t := if left != 0 then left else b.mem.right.At(t);
      ghost var k' := if 2 * k in trie then 2 * k else 2 * k + 1;
      LeftmostNext(b.net, nb, rsize, trie[k], k, t, k');
      if t != 0 {
        StepFree(b.net, k, k');
      }
      k := k';
    }
  }

  lemma StepFree(net: Net, k: nat, k': nat)
    requires Forest(net) && IsSlot(k) && k' in net.trie && k' / 2 == k
    ensures FreeBits(k') == FreeBits(k) - 1 && FreeBits(k') >= 4
  {
    assert SlotOk(net.trie, net.ring, net.anchor, k');
  }

  /** A better fit settles no less. */
  lemma SettledLess(net: Net, nb: nat, rsize: nat, rsize': nat, k: nat)
    requires AllSettledBut(net, nb, rsize, k) && rsize' <= rsize
    ensures AllSettledBut(net, nb, rsize', k)
  {
    forall s: nat ensures SettledBut(net, nb, rsize', k, s) {
      assert SettledBut(net, nb, rsize, k, s);
    }
  }

  ghost predicate AllSearching(net: Net, nb: nat, rsize: nat, k: nat, kr: nat) {
    forall s: nat {:trigger Searching(net, nb, rsize, k, kr, s)} :: Searching(net, nb, rsize, k, kr, s)
  }

  /** As `AtNode`, for the sizes of the bin of `nb` only; the node belongs to that bin. */
  ghost predicate AtNodeOfBin(net: Net, nb: nat, rsize: nat, t: int, k: nat) {
    && (t != 0 ==> k in net.trie && net.trie[k] == t && IsSlot(k) && (rsize == 0 || AllAbove(nb, k)) &&
                   t in net.ring && TreeIndex(net.ring[t]) == TreeIndex(nb))
    && (forall s: nat {:trigger SettledBut(net, nb, rsize, k, s)} :: InBin(net, nb, s) ==>
          if t == 0 then Settled(nb, rsize, s) else SettledBut(net, nb, rsize, k, s))
  }

  ghost predicate InBin(net: Net, nb: nat, s: nat) {
    s in net.anchor && s >= MIN_LARGE && TreeIndex(s) == TreeIndex(nb) && net.anchor[s] in net.pos
  }

  lemma WalkStart(net: Net, nb: nat, rsize: nat)
    requires Forest(net) && IsTreeSize(nb) && TreeIndex(nb) < NBINS && 32 + TreeIndex(nb) in net.trie
    ensures var k := 32 + TreeIndex(nb);
            Walk(net, nb, k, 0) && AllSearching(net, nb, rsize, k, 0)
            && ShiftedAt(nb, k) == ShiftedSize(nb, TreeIndex(nb))
  {
    var k := 32 + TreeIndex(nb);
    RootFits(nb);
    StartOfTheWay(net.trie, net.pos, net.ring, net.anchor, nb);
    forall s: nat ensures Searching(net, nb, rsize, k, 0, s) {
      if InBin(net, nb, s) {
        SlotOfSize(net, s);
        UnderRoot(net.pos[net.anchor[s]]);
      }
    }
  }

  lemma WalkNext(net: Net, nb: nat, rsize: nat, k: nat, kr: nat, side: nat, kr': nat)
    requires Forest(net) && Walk(net, nb, k, kr) && AllSearching(net, nb, rsize, k, kr)
    requires net.trie[k] in net.ring && Settled(nb, rsize, net.ring[net.trie[k]])
    requires side <= 1 && FreeBits(k) > 4 && InSlot(nb, 2 * k + side)
    requires kr' == if side == 0 && 2 * k + 1 in net.trie then 2 * k + 1 else kr
    requires kr' != 0 ==> kr' in net.trie && PassedBy(nb, 2 * k + side, kr')
    ensures AllSearching(net, nb, rsize, 2 * k + side, kr')
    ensures 2 * k + side !in net.trie ==> AtNodeOfBin(net, nb, rsize, NodeAt(net.trie, kr'), kr')
  {
    hide TreeIndex, MembersOk, TrieOk, InSlot, FreeBits;
    forall s: nat
      ensures Searching(net, nb, rsize, 2 * k + side, kr', s)
      ensures 2 * k + side !in net.trie && InBin(net, nb, s) ==> Settled(nb, rsize, s) || Beyond(net, kr', s)
    {
      assert Searching(net, nb, rsize, k, kr, s);
      WalkStep(net, nb, rsize, k, kr, side, kr', s);
    }
    if kr' in net.trie {
      SizeAt(net, kr');
      NullIsFree(net.ring, net.anchor, net.trie, net.pos, kr');
      PassedByAbove(net, nb, 2 * k + side, kr');
    }
  }

  /** Everything in the subtree passed by is above `nb`, and in its bin. */
  lemma PassedByAbove(net: Net, nb: nat, k: nat, kr: nat)
    requires PassedBy(nb, k, kr) && Forest(net) && kr in net.trie && net.trie[kr] in net.ring
    ensures IsSlot(kr) && AllAbove(nb, kr) && TreeIndex(net.ring[net.trie[kr]]) == TreeIndex(nb)
  {
    hide TreeIndex, MembersOk, TrieOk, FreeBits;
    SizeAt(net, kr);
    var j := kr / 2;
    assert kr == 2 * j + 1 && (kr - 1) / 2 == j;
    forall u: nat | InSlot(u, kr) ensures nb <= u {
      LeftBelowRight(nb, u, j);
    }
  }

  lemma SearchingLess(net: Net, nb: nat, rsize: nat, rsize': nat, k: nat, kr: nat)
    requires AllSearching(net, nb, rsize, k, kr) && rsize' <= rsize
    ensures AllSearching(net, nb, rsize', k, kr)
  {
    hide TreeIndex;
    forall s: nat ensures Searching(net, nb, rsize', k, kr, s) {
      assert Searching(net, nb, rsize, k, kr, s);
    }
  }

  /** The first loop of `tmalloc_large`: towards size `nb` in its own bin, remembering the deepest right
      subtree not taken. */
  method WalkToSize(b: Bins, nb: nat) returns (t: int, v: int, rsize: nat, ghost k: nat)
    requires b.Valid() && b.HeadsAgree() && IsTreeSize(nb) && TreeIndex(nb) < NBINS && 32 + TreeIndex(nb) in b.net.trie
    ensures BestSoFar(b.chunks, nb, v, rsize) && (v != 0 ==> TreeIndex(b.chunks[v]) == TreeIndex(nb))
    ensures AtNodeOfBin(b.net, nb, rsize, t, k)
    ensures IsNode(b.net, v)
  {
    hide ListsOk, TreesOk, SmallMapOk, TreeMapOk, ChunksOk, MembersOk, RanksOk, RingsOk, TagsOk, TrieOk, NodesOk,
      InSlot, FreeBits, TreeIndex, AllSearching, ShiftedAt, ShiftOnce, ShiftedSize, SignBit, PassedBy, AllAbove, BinOf;
    ghost var ring, anchor, trie, pos := b.net.ring, b.net.anchor, b.net.trie, b.net.pos;
    Parts(b.mem.fd, b.mem.bk, b.mem.left, b.mem.right, b.mem.parent, b.mem.index, b.chunks, ring, anchor, b.net.rank,
          b.net.clock, trie, pos, 0);
    v, rsize := 0, Minus(0, nb);
    WalkStart(b.net, nb, rsize);
    t, k := b.treebins[TreeIndex(nb)], 32 + TreeIndex(nb);
    var bits, rst := ShiftedSize(nb, TreeIndex(nb)), 0;
    ghost var kr: nat := 0;
    while true
      invariant Walk(b.net, nb, k, kr) && trie[k] == t && AllSearching(b.net, nb, rsize, k, kr)
                && bits == ShiftedAt(nb, k)
      invariant rst == if kr == 0 then 0 else NodeAt(trie, kr)
      invariant BestSoFar(b.chunks, nb, v, rsize) && (v != 0 ==> TreeIndex(b.chunks[v]) == TreeIndex(nb)) && rsize > 0
      invariant IsNode(b.net, v)
      decreases FreeBits(k)
    {
      NodeFacts(b.chunks, ring, anchor, trie, pos, k);
      NodeLinks(b.mem.left, b.mem.right, b.mem.parent, trie, k);
      SizeAt(b.net, k);
      SameBin(ring[t], nb, k);
      var trem := Minus(b.mem.head.At(t).size, nb);
      SearchingLess(b.net, nb, rsize, if trem < rsize then trem else rsize, k, kr);
      if trem < rsize {
        v, rsize := t, trem;
        if rsize == 0 {
          return;
        }
      }
      var rt := b.mem.right.At(t);
      var side := SignBit(bits);
      NullIsFree(ring, anchor, trie, pos, 2 * k);
      NullIsFree(ring, anchor, trie, pos, 2 * k + 1);
      Siblings(trie, pos, ring, anchor, k);
      ghost var kr' := if side == 0 && 2 * k + 1 in trie then 2 * k + 1 else kr;
      WalkOn(b.net, nb, k, kr, side, kr');
      WalkNext(b.net, nb, rsize, k, kr, side, kr');
      t := if side == 0 then b.mem.left.At(t) else rt;
      if rt != 0 && rt != t {
        rst := rt;
      }
      kr := kr';
      if t == 0 {
        t, k := rst, kr;
        NoSlotZero(trie, pos, ring, anchor);
        return;
      }
      bits := ShiftOnce(bits);
      k := 2 * k + side;
    }
  }

  lemma SameBin(s: nat, nb: nat, k: nat)
    requires IsSlot(k) && InSlot(s, k) && InSlot(nb, k)
    ensures TreeIndex(s) == TreeIndex(nb)
  {
  }

  lemma Siblings(trie: map<nat, int>, pos: map<int, nat>, ring: map<int, nat>, anchor: map<nat, int>, k: nat)
    requires TrieOk(trie, pos, ring, anchor)
    ensures 2 * k in trie && 2 * k + 1 in trie ==> trie[2 * k] != trie[2 * k + 1]
  {
  }

  lemma NoSlotZero(trie: map<nat, int>, pos: map<int, nat>, ring: map<int, nat>, anchor: map<nat, int>)
    requires TrieOk(trie, pos, ring, anchor)
    ensures 0 !in trie
  {
  }

  // ----- from the bin of the request to all bins

  lemma OtherBin(s: nat, nb: nat)
    requires s >= MIN_LARGE && nb >= MIN_LARGE
    ensures TreeIndex(s) < TreeIndex(nb) ==> s < nb
    ensures TreeIndex(s) > TreeIndex(nb) ==> s > nb
  {
    if s >= nb {
      TreeIndexMono(nb, s);
    } else {
      TreeIndexMono(s, nb);
    }
  }

  /** A candidate in the bin of the request beats every later bin. */
  lemma OwnBinDecides(net: Net, chunks: map<int, nat>, nb: nat, v: int, rsize: nat, t: int, k: nat)
    requires Forest(net) && IsTreeSize(nb) && AtNodeOfBin(net, nb, rsize, t, k) && (t != 0 || v != 0)
    requires BestSoFar(chunks, nb, v, rsize) && (v != 0 ==> TreeIndex(chunks[v]) == TreeIndex(nb))
    ensures AtNode(net, nb, rsize, t, k)
  {
    hide TreeIndex, MembersOk, FreeBits, InSlot;
    forall s: nat
      ensures t != 0 ==> SettledBut(net, nb, rsize, k, s)
      ensures t == 0 && s in net.anchor && s >= MIN_LARGE ==> Settled(nb, rsize, s)
    {
      if s in net.anchor && s >= MIN_LARGE {
        OtherBin(s, nb);
        if v != 0 { OtherBin(s, chunks[v]); }
        if t != 0 {
          SizeAt(net, k);
          OtherBin(s, net.ring[t]);
        }
        SlotOfSize(net, s);
        assert InBin(net, nb, s) ==> if t == 0 then Settled(nb, rsize, s) else SettledBut(net, nb, rsize, k, s) by {
          assert SettledBut(net, nb, rsize, k, s) || !SettledBut(net, nb, rsize, k, s);
        }
      }
    }
  }

  /** `k` is the first used root slot above slot `lo`; with `k == 0` there is none. */
  ghost predicate NextRoot(trie: map<nat, int>, lo: nat, k: nat) {
    if k == 0 then forall j: nat | lo < j < 64 :: j !in trie
    else 32 <= k < 64 && lo < k && k in trie && forall j: nat | lo < j < k :: j !in trie
  }

  lemma RootOfSize(net: Net, s: nat)
    requires Forest(net) && s in net.anchor && s >= MIN_LARGE
    ensures TreeIndex(s) < NBINS && 32 + TreeIndex(s) in net.trie && Under(net.pos[net.anchor[s]], 32 + TreeIndex(s))
            && net.anchor[s] in net.pos
  {
    hide TreeIndex, FreeBits;
    SlotOfSize(net, s);
    var j := net.pos[net.anchor[s]];
    UnderRoot(j);
    TrieClosed(net.trie, net.pos, net.ring, net.anchor, j, 32 + BinOf(j));
  }

  /** With every size of the bins up to slot `lo` settled, the search goes on at the next root. */
  lemma NextBinDecides(net: Net, nb: nat, rsize: nat, lo: nat, t: int, k: nat)
    requires Forest(net) && NextRoot(net.trie, lo, k) && t == NodeAt(net.trie, k) && (k == 0 || k in net.trie)
    requires forall s | s in net.anchor && s >= MIN_LARGE && 32 + TreeIndex(s) <= lo :: Settled(nb, rsize, s)
    requires forall u: nat | u >= MIN_LARGE && 32 + TreeIndex(u) > lo :: nb <= u
    ensures AtNode(net, nb, rsize, t, k)
  {
    hide TreeIndex, MembersOk, FreeBits;
    NoSlotZero(net.trie, net.pos, net.ring, net.anchor);
    if k != 0 {
      SizeAt(net, k);
      NullIsFree(net.ring, net.anchor, net.trie, net.pos, k);
    }
    forall s: nat
      ensures t != 0 ==> SettledBut(net, nb, rsize, k, s)
      ensures t == 0 && s in net.anchor && s >= MIN_LARGE ==> Settled(nb, rsize, s)
    {
      if s in net.anchor && s >= MIN_LARGE && !Settled(nb, rsize, s) {
        RootOfSize(net, s);
        if k != 0 && TreeIndex(s) != k - 32 {
          OtherBin(s, net.ring[net.trie[k]]);
        }
      }
    }
  }

  /** `left_bits(idx2bit(idx)) & _treemap`, its least bit and the bin it names. */
  method NextTreeBin(b: Bins, idx: nat) returns (t: int, ghost k: nat)
    requires b.Valid() && idx < NBINS
    ensures NextRoot(b.net.trie, 32 + idx, k) && t == NodeAt(b.net.trie, k) && (k == 0 || k in b.net.trie)
  {
    hide ListsOk, TreesOk, Bit, SmallMapOk, TreeMapOk, RootsOk, And, LeftBits, LowestMarked, Pow2;
    MapInRange(b.treemap, b.net.trie, idx);
    var leftbits := And(LeftBits(NBINS, Pow2(idx)), b.treemap);
    NextMarked(NBINS, b.treemap, idx, leftbits);
    NoSlotZeroIn(b);
    if leftbits != 0 {
      var i := LowestMarked(NBINS, leftbits);
      MarkedRoot(b.treemap, b.treebins, b.net.trie, i);
      t, k := b.treebins[i], 32 + i;
      MarkedBelow(b.treemap, b.net.trie, idx, i);
    } else {
      t, k := 0, 0;
      MarkedBelow(b.treemap, b.net.trie, idx, NBINS);
    }
  }

  lemma MapInRange(m: nat, trie: map<nat, int>, idx: nat)
    requires TreeMapOk(m, trie) && idx < NBINS
    ensures m < Pow2(NBINS) && Pow2(idx) < Pow2(NBINS)
  {
    hide Bit;
    Pow2Mono(idx, NBINS - 1);
  }

  lemma MarkedRoot(m: nat, roots: seq<int>, trie: map<nat, int>, i: nat)
    requires TreeMapOk(m, trie) && RootsOk(roots, trie) && i < NBINS && Bit(m, i)
    ensures |roots| == NBINS && 32 + i in trie && roots[i] == NodeAt(trie, 32 + i)
  {
    hide Bit;
  }

  lemma MarkedBelow(m: nat, trie: map<nat, int>, lo: int, hi: nat)
    requires TreeMapOk(m, trie) && -1 <= lo && hi <= NBINS && forall j: nat :: lo < j < hi ==> !Bit(m, j)
    ensures forall j: nat | 32 + lo < j < 32 + hi :: j !in trie
  {
    hide Bit;
    forall j: nat | 32 + lo < j < 32 + hi ensures j !in trie {
      assert !Bit(m, j - 32);
      assert 32 + (j - 32) == j;
    }
  }

  lemma NoSlotZeroIn(b: Bins)
    requires b.Valid()
    ensures 0 !in b.net.trie
  {
    hide ListsOk, MembersOk, TagsOk, NodesOk, SlotOk;
    NoSlotZero(b.net.trie, b.net.pos, b.net.ring, b.net.anchor);
  }

  /** The best fit in the whole forest. */
  ghost predicate IsSmallestFit(chunks: map<int, nat>, nb: nat, v: int, rsize: nat) {
    if v == 0 then forall p | p in chunks && chunks[p] >= MIN_LARGE :: chunks[p] < nb
    else v in chunks && IsTreeSize(chunks[v]) && chunks[v] == nb + rsize &&
         forall p | p in chunks && chunks[p] >= MIN_LARGE && chunks[p] >= nb :: chunks[v] <= chunks[p]
  }

  lemma SettledIsSmallest(net: Net, chunks: map<int, nat>, nb: nat, v: int, rsize: nat)
    requires ChunksOk(net.ring, chunks) && MembersOk(net.ring, net.anchor) && AllSettled(net, nb, rsize)
             && BestSoFar(chunks, nb, v, rsize)
    ensures IsSmallestFit(chunks, nb, v, rsize)
  {
  }

  /** The search of `tmalloc_large`. */
  method FindLargeFit(b: Bins, nb: nat) returns (v: int, rsize: nat)
    requires b.Valid() && b.HeadsAgree() && IsTreeSize(nb)
    ensures IsSmallestFit(b.chunks, nb, v, rsize)
    ensures v != 0 ==> Oldest(b.chunks, b.net.rank, v)
  {
    hide ListsOk, TreesOk, SmallMapOk, TreeMapOk, ChunksOk, MembersOk, TrieOk, TreeIndex, AtNode, InSlot, AllSettled,
         NextRoot, IsSmallestFit;
    ghost var net := b.net;
    Parts(b.mem.fd, b.mem.bk, b.mem.left, b.mem.right, b.mem.parent, b.mem.index, b.chunks, net.ring, net.anchor,
          net.rank, net.clock, net.trie, net.pos, 0);
    LastBin(nb);
    var idx := TreeIndex(nb);
    var t := b.treebins[idx];
    ghost var k: nat := 0;
    v, rsize := 0, Minus(0, nb);
    NullIsFree(net.ring, net.anchor, net.trie, net.pos, 32 + idx);
    if t != 0 {
      t, v, rsize, k := WalkToSize(b, nb);
      if t != 0 || v != 0 {
        OwnBinDecides(net, b.chunks, nb, v, rsize, t, k);
      }
    }
    if t == 0 && v == 0 {
      LaterBins(net, nb, rsize, k);
      t, k := NextTreeBin(b, idx);
      NextBinDecides(net, nb, rsize, 32 + idx, t, k);
    }
    v, rsize := WalkLeftmost(b, nb, t, v, rsize, k);
    SettledIsSmallest(net, b.chunks, nb, v, rsize);
    FitIsOldest(b, v, rsize, nb);
  }

  /** Nothing fits in the bin of the request, and everything in a later bin is above it. */
  lemma LaterBins(net: Net, nb: nat, rsize: nat, k: nat)
    requires Forest(net) && IsTreeSize(nb) && (32 + TreeIndex(nb) !in net.trie || AtNodeOfBin(net, nb, rsize, 0, k))
    ensures forall s | s in net.anchor && s >= MIN_LARGE && 32 + TreeIndex(s) <= 32 + TreeIndex(nb) ::
            Settled(nb, rsize, s)
    ensures forall u: nat | u >= MIN_LARGE && 32 + TreeIndex(u) > 32 + TreeIndex(nb) :: nb <= u
  {
    hide TreeIndex, FreeBits, MembersOk;
    forall s | s in net.anchor && s >= MIN_LARGE && TreeIndex(s) <= TreeIndex(nb) ensures Settled(nb, rsize, s) {
      OtherBin(s, nb);
      RootOfSize(net, s);
      assert InBin(net, nb, s) ==> Settled(nb, rsize, s) || !AtNodeOfBin(net, nb, rsize, 0, k) by {
        assert SettledBut(net, nb, rsize, k, s) || !SettledBut(net, nb, rsize, k, s);
      }
    }
    forall u: nat | u >= MIN_LARGE && TreeIndex(u) > TreeIndex(nb) ensures nb <= u {
      OtherBin(u, nb);
    }
  }

  /** `least_bit(_treemap)` and the bin it names. */
  method FirstTreeBin(b: Bins) returns (t: int, ghost k: nat)
    requires b.Valid() && b.treemap != 0
    ensures NextRoot(b.net.trie, 31, k) && t == NodeAt(b.net.trie, k) && k in b.net.trie
  {
    hide ListsOk, TreesOk, Bit, SmallMapOk;
    LowestMarkedIsLowest(NBINS, b.treemap);
    var i := LowestMarked(NBINS, b.treemap);
    t, k := b.treebins[i], 32 + i;
    MarkedBelow(b.treemap, b.net.trie, -1, i);
  }

  /** The search of `tmalloc_small`: the smallest tree chunk of all. */
  method FindSmallFit(b: Bins, nb: nat) returns (v: int, rsize: nat)
    requires b.Valid() && b.HeadsAgree() && nb < MIN_LARGE && b.treemap != 0
    ensures v != 0 && IsSmallestFit(b.chunks, nb, v, rsize)
    ensures Oldest(b.chunks, b.net.rank, v)
  {
    hide ListsOk, TreesOk, RootsOk, SmallMapOk, TreeMapOk, ChunksOk, MembersOk, TrieOk, NodesOk, TreeIndex, InSlot,
         AllSettled, AllSettledBut, NextRoot, IsSmallestFit;
    ghost var net := b.net;
    Parts(b.mem.fd, b.mem.bk, b.mem.left, b.mem.right, b.mem.parent, b.mem.index, b.chunks, net.ring, net.anchor,
          net.rank, net.clock, net.trie, net.pos, 0);
    var t;
    ghost var k;
    t, k := FirstTreeBin(b);
    NextBinDecides(net, nb, WORD_RANGE, 31, t, k);
    NodeFacts(b.chunks, net.ring, net.anchor, net.trie, net.pos, k);
    NodeLinks(b.mem.left, b.mem.right, b.mem.parent, net.trie, k);
    v, rsize := t, b.mem.head.At(t).size - nb;
    SettledLess(net, nb, WORD_RANGE, rsize, k);
    NullIsFree(net.ring, net.anchor, net.trie, net.pos, 2 * k);
    NullIsFree(net.ring, net.anchor, net.trie, net.pos, 2 * k + 1);
    var left := b.mem.left.At(t);
    var next := if left != 0 then left else b.mem.right.At(t);
    ghost var k' := if 2 * k in net.trie then 2 * k else 2 * k + 1;
    LeftmostNext(net, nb, rsize, t, k, next, k');
    v, rsize := WalkLeftmost(b, nb, next, v, rsize, k');
    SettledIsSmallest(net, b.chunks, nb, v, rsize);
    FitIsOldest(b, v, rsize, nb);
  }

  /** An empty tree map means no large chunk. */
  lemma NoLargeChunk(b: Bins)
    requires b.Valid() && b.treemap == 0
    ensures forall p | p in b.chunks :: b.chunks[p] < MIN_LARGE
  {
    hide ListsOk, TreesOk, RootsOk, SmallMapOk, TreeIndex, ChunksOk, MembersOk, TrieOk;
    var net := b.net;
    forall p | p in b.chunks ensures b.chunks[p] < MIN_LARGE {
      Parts(b.mem.fd, b.mem.bk, b.mem.left, b.mem.right, b.mem.parent, b.mem.index, b.chunks, net.ring, net.anchor,
            net.rank, net.clock, net.trie, net.pos, p);
      if b.chunks[p] >= MIN_LARGE {
        RootOfSize(net, b.chunks[p]);
        ZeroBit(TreeIndex(b.chunks[p]));
      }
    }
  }

  // ----- small bins

  /** Binned chunks sit in the bin of their size. */
  lemma BinOfChunk(b: Bins, p: int)
    requires b.Valid() && p in b.chunks
    ensures b.chunks[p] in b.net.anchor && IsChunkSize(b.chunks[p])
  {
    hide TreesOk, RootsOk, SmallMapOk, TreeMapOk;
    var net := b.net;
    HeldSizes(b.mem.fd, b.mem.bk, b.chunks, net.ring, net.anchor, net.rank, net.clock);
  }

  lemma OddBinsEmpty(b: Bins, s: nat)
    requires b.Valid() && s in b.net.anchor
    ensures s % 16 == 0 && s > 0
  {
    hide TreesOk, RootsOk, SmallMapOk, TreeMapOk, RanksOk, RingsOk, ChunksOk;
  }

  /** `_smallmap >> idx & 3`: a bin whose chunks fit the request without remainder. */
  method FindExactBin(b: Bins, nb: nat) returns (found: bool, i: nat)
    requires b.Valid() && IsChunkSize(nb) && nb < MIN_LARGE
    ensures found ==> i < NBINS && 8 * i == nb && nb in b.net.anchor
    ensures !found ==> forall p | p in b.chunks :: b.chunks[p] != nb
  {
    hide ListsOk, TreesOk, RootsOk, TreeMapOk, Bit, And, Shr, Not;
    i := SmallIndex(nb);
    TwoLowBits(NBINS, b.smallmap, i);
    var smallbits := Shr(b.smallmap, i);
    found := And(smallbits, 3) != 0;
    if found {
      i := i + And(Not(NBINS, smallbits), 1);
      assert Bit(b.smallmap, i);
      OddBinsEmpty(b, 8 * i);
    } else {
      forall p | p in b.chunks ensures b.chunks[p] != nb {
        BinOfChunk(b, p);
        assert !Bit(b.smallmap, i);
      }
    }
  }

  /** The next non-empty small bin above that of the request. */
  method FindNextBin(b: Bins, nb: nat) returns (found: bool, i: nat)
    requires b.Valid() && IsChunkSize(nb) && nb < MIN_LARGE && forall p | p in b.chunks :: b.chunks[p] != nb
    ensures found ==>
            i < NBINS && nb < 8 * i && 8 * i in b.net.anchor && forall p | p in b.chunks && nb <= b.chunks[p] ::
            8 * i <= b.chunks[p]
    ensures !found ==> forall p | p in b.chunks && nb <= b.chunks[p] :: MIN_LARGE <= b.chunks[p]
  {
    hide ListsOk, TreesOk, RootsOk, TreeMapOk, Bit, And, Shr, Shl, LeftBits, LowestMarked, Pow2;
    var idx := SmallIndex(nb);
    NotMarked(b, nb);
    NextAfterShift(NBINS, b.smallmap, idx);
    i := 0;
    var smallbits := Shr(b.smallmap, idx);
    found := smallbits != 0;
    var leftbits := And(Shl(NBINS, smallbits, idx), LeftBits(NBINS, Pow2(idx)));
    if found {
      i := LowestMarked(NBINS, leftbits);
    }
    forall p | p in b.chunks && nb <= b.chunks[p] < MIN_LARGE ensures found && 8 * i <= b.chunks[p] {
      MarkedForChunk(b, p);
    }
  }

  lemma MarkedForChunk(b: Bins, p: int)
    requires b.Valid() && p in b.chunks && b.chunks[p] < MIN_LARGE
    ensures Bit(b.smallmap, b.chunks[p] / 8) && b.chunks[p] % 8 == 0
  {
    hide ListsOk, TreesOk, RootsOk, TreeMapOk, Bit;
    BinOfChunk(b, p);
    assert 8 * (b.chunks[p] / 8) == b.chunks[p];
  }

  lemma SmallMarked(m: nat, anchor: map<nat, int>, i: nat)
    requires SmallMapOk(m, anchor)
    ensures Bit(m, i) ==> 8 * i in anchor
  {
    hide Bit;
  }

  lemma NotMarked(b: Bins, s: nat)
    requires b.Valid() && IsChunkSize(s) && s < MIN_LARGE && forall p | p in b.chunks :: b.chunks[p] != s
    ensures !Bit(b.smallmap, s / 8)
  {
    hide ListsOk, TreesOk, RootsOk, TreeMapOk, SmallMapOk, Bit;
    var net := b.net;
    SmallMarked(b.smallmap, net.anchor, s / 8);
    if 8 * (s / 8) in net.anchor {
      HeaderLinks(b.mem.fd, b.mem.bk, b.chunks, net.ring, net.anchor, net.rank, net.clock, s);
    }
  }
}
