/** Planting a tree node at a free slot, and taking one out by putting another chunk in its place. */
module TrieNet {
  import opened Bitmap
  import opened Sizes
  import opened Slots
  import opened Memory
  import opened BinNet

  // ----- a new size

  /** A ring of one. */
  lemma SingleRing(fd: Field, bk: Field, ring: map<int, nat>, anchor: map<nat, int>, rank: map<int, int>, clock: int,
                   x: int, s: nat)
    requires RingsOk(fd, bk, ring, anchor, rank) && MembersOk(ring, anchor)
    requires s !in anchor && x !in ring && s >= MIN_LARGE
    ensures RingsOk(fd.Set(x, x), bk.Set(x, x), ring[x := s], anchor[s := x], rank[x := clock])
  {
    var fd', bk', ring', anchor', rank' := fd.Set(x, x), bk.Set(x, x), ring[x := s], anchor[s := x], rank[x := clock];
    forall a ensures LinkedAt(fd', bk', ring', a) {
      assert LinkedAt(fd, bk, ring, a);
    }
    forall a ensures OrderedAt(bk', ring', anchor', rank', a) {
      assert LinkedAt(fd, bk, ring, a) && OrderedAt(bk, ring, anchor, rank, a);
    }
  }

  /** A free slot whose parent slot is used, where size `s` fits. */
  ghost predicate CanPlant(trie: map<nat, int>, s: nat, k: nat) {
    IsSlot(k) && k !in trie && (k >= 64 ==> k / 2 in trie) && FreeBits(k) >= 4 && IsTreeSize(s) && InSlot(s, k)
  }

  lemma PlantedTrie(trie: map<nat, int>, pos: map<int, nat>, ring: map<int, nat>, anchor: map<nat, int>, x: int, s: nat,
                    k: nat)
    requires MembersOk(ring, anchor) && TrieOk(trie, pos, ring, anchor) && CanPlant(trie, s, k)
    requires s !in anchor && x !in ring && x > 0
    ensures TrieOk(trie[k := x], pos[x := k], ring[x := s], anchor[s := x])
  {
    var trie', pos', ring', anchor' := trie[k := x], pos[x := k], ring[x := s], anchor[s := x];
    forall j: nat ensures SlotOk(trie', ring', anchor', j) {
      assert SlotOk(trie, ring, anchor, j);
    }
    forall j | j in trie' ensures IsSlot(j) && trie'[j] > 0 && trie'[j] in pos' && pos'[trie'[j]] == j {
      assert SlotOk(trie, ring, anchor, j);
    }
    forall q | q in anchor' && q >= MIN_LARGE
      ensures anchor'[q] in pos' && pos'[anchor'[q]] in trie' && trie'[pos'[anchor'[q]]] == anchor'[q]
    {
    }
  }

  /** One side of the parent of slot `k` pointed at `v`; roots have no such parent. */
  ghost function LeftTo(left: Field, trie: map<nat, int>, k: nat, v: int): Field {
    if k >= 64 && k % 2 == 0 then left.Set(NodeAt(trie, k / 2), v) else left
  }

  ghost function RightTo(right: Field, trie: map<nat, int>, k: nat, v: int): Field {
    if k >= 64 && k % 2 == 1 then right.Set(NodeAt(trie, k / 2), v) else right
  }

  ghost function RootsTo(roots: seq<int>, k: nat, v: int): seq<int>
    requires |roots| == NBINS
  {
    if 32 <= k < 64 then roots[k - 32 := v] else roots
  }

  /** Node `x` can stand at slot `k` as far as the other slots are concerned. */
  ghost predicate MayStand(trie: map<nat, int>, pos: map<int, nat>, x: int, k: nat) {
    PosOk(trie, pos) && k >= 32 && (k >= 64 ==> k / 2 in trie) && x > 0 && forall j | j in trie :: trie[j] != x
  }

  lemma PlantedLeft(left: Field, trie: map<nat, int>, pos: map<int, nat>, x: int, k: nat, j: nat)
    requires MayStand(trie, pos, x, k) && k !in trie && 2 * k !in trie && LeftOk(left, trie, j) && left.At(x) == 0
    ensures LeftOk(LeftTo(left, trie, k, x), trie[k := x], j)
  {
  }

  lemma PlantedRight(right: Field, trie: map<nat, int>, pos: map<int, nat>, x: int, k: nat, j: nat)
    requires MayStand(trie, pos, x, k) && k !in trie && 2 * k + 1 !in trie && RightOk(right, trie, j)
             && right.At(x) == 0
    ensures RightOk(RightTo(right, trie, k, x), trie[k := x], j)
  {
  }

  lemma PlantedUp(parent: Field, trie: map<nat, int>, pos: map<int, nat>, x: int, k: nat, j: nat)
    requires MayStand(trie, pos, x, k) && k !in trie && 2 * k !in trie && 2 * k + 1 !in trie && UpOk(parent, trie, j)
    ensures UpOk(parent.Set(x, ParentAt(trie, k)), trie[k := x], j)
  {
    assert j / 2 == k ==> j == 2 * k || j == 2 * k + 1;
  }

  lemma PlantedNodes(left: Field, right: Field, parent: Field, trie: map<nat, int>, pos: map<int, nat>, x: int, k: nat)
    requires NodesOk(left, right, parent, trie) && left.At(x) == 0 && right.At(x) == 0
    requires MayStand(trie, pos, x, k) && k !in trie && 2 * k !in trie && 2 * k + 1 !in trie
    ensures NodesOk(LeftTo(left, trie, k, x), RightTo(right, trie, k, x), parent.Set(x, ParentAt(trie, k)),
                    trie[k := x])
  {
    var trie' := trie[k := x];
    var left', right', parent' := LeftTo(left, trie, k, x), RightTo(right, trie, k, x),
    parent.Set(x, ParentAt(trie, k));
    forall j ensures NodeOk(left', right', parent', trie', j) {
      assert NodeOk(left, right, parent, trie, j);
      PlantedLeft(left, trie, pos, x, k, j);
      PlantedRight(right, trie, pos, x, k, j);
      PlantedUp(parent, trie, pos, x, k, j);
    }
  }

  lemma NoOrphans(trie: map<nat, int>, pos: map<int, nat>, ring: map<int, nat>, anchor: map<nat, int>, x: int, s: nat,
                  k: nat)
    requires TrieOk(trie, pos, ring, anchor) && CanPlant(trie, s, k) && x > 0 && x !in ring
    ensures MayStand(trie, pos, x, k) && 2 * k !in trie && 2 * k + 1 !in trie
  {
    assert SlotOk(trie, ring, anchor, 2 * k) && SlotOk(trie, ring, anchor, 2 * k + 1);
    forall j | j in trie ensures trie[j] != x {
      assert SlotOk(trie, ring, anchor, j);
    }
  }

  lemma PlantedTags(left: Field, right: Field, parent: Field, index: Field, trie: map<nat, int>,
                    ring: map<int, nat>, anchor: map<nat, int>, x: int, s: nat, k: nat)
    requires TagsOk(left, right, parent, index, ring, anchor) && index.At(x) == TreeIndex(s) && s >= MIN_LARGE
    requires MembersOk(ring, anchor) && s !in anchor && x !in ring
    requires k >= 64 ==> k / 2 in trie && SlotOk(trie, ring, anchor, k / 2)
    ensures TagsOk(LeftTo(left, trie, k, x), RightTo(right, trie, k, x), parent.Set(x, ParentAt(trie, k)), index,
                   ring[x := s], anchor[s := x])
  {
    hide TreeIndex, IsChunkSize, InSlot, FreeBits;
  }

  /** Tree links that differ only at a chunk outside the bins are as good. */
  lemma OutsideNodes(left: Field, right: Field, parent: Field, left': Field, right': Field, parent': Field,
                     trie: map<nat, int>, pos: map<int, nat>, ring: map<int, nat>, anchor: map<nat, int>, x: int)
    requires NodesOk(left, right, parent, trie) && TrieOk(trie, pos, ring, anchor) && x !in ring
    requires forall a :: a != x ==>
             left'.At(a) == left.At(a) && right'.At(a) == right.At(a) && parent'.At(a) == parent.At(a)
    ensures NodesOk(left', right', parent', trie)
  {
    hide InSlot, FreeBits;
    forall k ensures NodeOk(left', right', parent', trie, k) {
      assert NodeOk(left, right, parent, trie, k) && SlotOk(trie, ring, anchor, k);
    }
  }

  lemma PlantedRoots(roots: seq<int>, trie: map<nat, int>, x: int, k: nat)
    requires RootsOk(roots, trie) && k >= 32
    ensures RootsOk(RootsTo(roots, k, x), trie[k := x])
  {
  }

  // ----- taking nodes out

  ghost predicate IsLeaf(trie: map<nat, int>, k: nat) {
    k in trie && 2 * k !in trie && 2 * k + 1 !in trie
  }

  lemma UnhookedChildren(left: Field, right: Field, trie: map<nat, int>, pos: map<int, nat>, k: nat, j: nat)
    requires PosOk(trie, pos) && IsLeaf(trie, k) && (k >= 64 ==> k / 2 in trie)
    requires LeftOk(left, trie, j) && RightOk(right, trie, j)
    ensures LeftOk(LeftTo(left, trie, k, 0), trie - {k}, j) && RightOk(RightTo(right, trie, k, 0), trie - {k}, j)
  {
  }

  lemma UnhookedUp(parent: Field, trie: map<nat, int>, pos: map<int, nat>, k: nat, j: nat)
    requires PosOk(trie, pos) && IsLeaf(trie, k) && UpOk(parent, trie, j)
    ensures UpOk(parent, trie - {k}, j)
  {
    assert j / 2 == k ==> j == 2 * k || j == 2 * k + 1;
  }

  /** A leaf unhooked from its parent. */
  lemma UnhookedNodes(left: Field, right: Field, parent: Field, trie: map<nat, int>, pos: map<int, nat>, k: nat)
    requires NodesOk(left, right, parent, trie) && PosOk(trie, pos) && IsLeaf(trie, k) && (k >= 64 ==> k / 2 in trie)
    ensures NodesOk(LeftTo(left, trie, k, 0), RightTo(right, trie, k, 0), parent, trie - {k})
  {
    var trie' := trie - {k};
    var left', right' := LeftTo(left, trie, k, 0), RightTo(right, trie, k, 0);
    forall j: nat ensures NodeOk(left', right', parent, trie', j) {
      assert NodeOk(left, right, parent, trie, j);
      UnhookedChildren(left, right, trie, pos, k, j);
      UnhookedUp(parent, trie, pos, k, j);
    }
  }

  lemma UnhookedRoots(roots: seq<int>, trie: map<nat, int>, k: nat)
    requires RootsOk(roots, trie) && k >= 32
    ensures RootsOk(RootsTo(roots, k, 0), trie - {k})
  {
  }

  lemma UnhookedInner(roots: seq<int>, trie: map<nat, int>, k: nat)
    requires RootsOk(roots, trie) && k >= 64
    ensures RootsOk(roots, trie - {k})
  {
  }

  /** `c` unless it is null. */
  ghost function SetUnlessNull(f: Field, c: int, a: int, v: int): Field {
    if c != 0 then f.Set(a, v) else f
  }

  lemma ReplacedLeft(left: Field, trie: map<nat, int>, pos: map<int, nat>, r: int, k: nat, j: nat)
    requires MayStand(trie, pos, r, k) && k in trie && left.At(r) == 0 && LeftOk(left, trie, k) && LeftOk(left, trie, j)
    ensures var c := left.At(trie[k]); LeftOk(SetUnlessNull(LeftTo(left, trie, k, r), c, r, c), trie[k := r], j)
  {
  }

  lemma ReplacedRight(right: Field, trie: map<nat, int>, pos: map<int, nat>, r: int, k: nat, j: nat)
    requires MayStand(trie, pos, r, k) && k in trie && right.At(r) == 0 && RightOk(right, trie, k)
             && RightOk(right, trie, j)
    ensures var c := right.At(trie[k]); RightOk(SetUnlessNull(RightTo(right, trie, k, r), c, r, c), trie[k := r], j)
  {
  }

  lemma ReplacedUp(parent: Field, trie: map<nat, int>, pos: map<int, nat>, r: int, k: nat, j: nat)
    requires MayStand(trie, pos, r, k) && k in trie && UpOk(parent, trie, j)
    ensures var c0, c1 := NodeAt(trie, 2 * k), NodeAt(trie, 2 * k + 1);
            UpOk(SetUnlessNull(SetUnlessNull(parent.Set(r, ParentAt(trie, k)), c0, c0, r), c1, c1, r), trie[k := r], j)
  {
    assert j / 2 == k ==> j == 2 * k || j == 2 * k + 1;
  }

  /** Chunk `r`, in no slot and without children, put in the place of the node at slot `k`. */
  lemma ReplacedNodes(left: Field, right: Field, parent: Field, trie: map<nat, int>, pos: map<int, nat>, r: int, k: nat)
    requires NodesOk(left, right, parent, trie) && MayStand(trie, pos, r, k) && k in trie
    requires left.At(r) == 0 && right.At(r) == 0
    ensures var c0, c1 := left.At(trie[k]), right.At(trie[k]);
            NodesOk(SetUnlessNull(LeftTo(left, trie, k, r), c0, r, c0),
                    SetUnlessNull(RightTo(right, trie, k, r), c1, r, c1),
                    SetUnlessNull(SetUnlessNull(parent.Set(r, ParentAt(trie, k)), c0, c0, r), c1, c1, r), trie[k := r])
  {
    assert NodeOk(left, right, parent, trie, k);
    var c0, c1 := left.At(trie[k]), right.At(trie[k]);
    var left' := SetUnlessNull(LeftTo(left, trie, k, r), c0, r, c0);
    var right' := SetUnlessNull(RightTo(right, trie, k, r), c1, r, c1);
    var parent' := SetUnlessNull(SetUnlessNull(parent.Set(r, ParentAt(trie, k)), c0, c0, r), c1, c1, r);
    var trie' := trie[k := r];
    forall j: nat ensures NodeOk(left', right', parent', trie', j) {
      assert NodeOk(left, right, parent, trie, j);
      ReplacedLeft(left, trie, pos, r, k, j);
      ReplacedRight(right, trie, pos, r, k, j);
      ReplacedUp(parent, trie, pos, r, k, j);
    }
  }

  // ----- the slots after a chunk has gone

  /** Its predecessor takes the slot of an anchor that has gone. */
  lemma InheritedTrie(fd: Field, bk: Field, trie: map<nat, int>, pos: map<int, nat>, ring: map<int, nat>,
                      anchor: map<nat, int>, x: int)
    requires MembersOk(ring, anchor) && TrieOk(trie, pos, ring, anchor) && x in ring && ring[x] >= MIN_LARGE
    requires LinkedAt(fd, bk, ring, x) && bk.At(x) != x && bk.At(x) > 0 && x == anchor[ring[x]]
    ensures pos[x] in trie && trie[pos[x]] == x
    ensures TrieOk(trie[pos[x] := bk.At(x)], pos[bk.At(x) := pos[x]], ring - {x}, anchor[ring[x] := bk.At(x)])
  {
    hide InSlot, FreeBits, IsTreeSize, SlotOk, PosOk, MembersOk;
    AnchorSlot(trie, pos, ring, anchor, x);
    var r, k := bk.At(x), pos[x];
    var trie', pos', ring', anchor' := trie[k := r], pos[r := k], ring - {x}, anchor[ring[x] := r];
    forall j: nat ensures SlotOk(trie', ring', anchor', j) && (j in trie && j != k ==> trie[j] != r) {
      assert SlotOk(trie, ring, anchor, j) && SlotOk(trie, ring, anchor, k);
      if j in trie && j != k { OnlySlot(trie, pos, x, j); }
      SlotInherited(trie, ring, anchor, x, r, k, j);
    }
    AnchorsInherited(trie, pos, ring, anchor, x, r, k, trie', pos', anchor');
    assert TrieOk(trie', pos', ring', anchor');
  }

  lemma AnchorSlot(trie: map<nat, int>, pos: map<int, nat>, ring: map<int, nat>, anchor: map<nat, int>, x: int)
    requires MembersOk(ring, anchor) && TrieOk(trie, pos, ring, anchor) && x in ring && ring[x] >= MIN_LARGE
    ensures ring[x] in anchor
    ensures x == anchor[ring[x]] ==> x in pos && pos[x] in trie && trie[pos[x]] == x
  {
    hide SlotOk, PosOk;
  }

  lemma OnlySlot(trie: map<nat, int>, pos: map<int, nat>, x: int, j: nat)
    requires PosOk(trie, pos) && x in pos && j in trie && j != pos[x]
    ensures trie[j] != x
  {
  }

  lemma AnchorsInherited(trie: map<nat, int>, pos: map<int, nat>, ring: map<int, nat>, anchor: map<nat, int>, x: int,
                         r: int, k: nat, trie': map<nat, int>, pos': map<int, nat>, anchor': map<nat, int>)
    requires MembersOk(ring, anchor) && TrieOk(trie, pos, ring, anchor) && x in ring && x == anchor[ring[x]]
             && k in trie && trie[k] == x && r in ring && ring[r] == ring[x] && r != x && r > 0
    requires trie' == trie[k := r] && pos' == pos[r := k] && anchor' == anchor[ring[x] := r]
    requires forall j | j in trie && j != k :: trie[j] != r
    ensures PosOk(trie', pos')
    ensures forall s | s in anchor' && s >= MIN_LARGE ::
              anchor'[s] in pos' && pos'[anchor'[s]] in trie' && trie'[pos'[anchor'[s]]] == anchor'[s]
  {
    hide SlotOk;
  }

  lemma SlotInherited(trie: map<nat, int>, ring: map<int, nat>, anchor: map<nat, int>, x: int, r: int, k: nat, j: nat)
    requires SlotOk(trie, ring, anchor, j) && SlotOk(trie, ring, anchor, k) && k in trie && trie[k] == x && r != x
    requires r in ring && ring[r] == ring[x]
    requires j in trie && j != k ==> trie[j] != x
    ensures SlotOk(trie[k := r], ring - {x}, anchor[ring[x] := r], j) && (j in trie && j != k ==> trie[j] != r)
  {
    hide InSlot, FreeBits, IsTreeSize;
  }

  lemma OtherChunkGone(trie: map<nat, int>, pos: map<int, nat>, ring: map<int, nat>, anchor: map<nat, int>, x: int)
    requires MembersOk(ring, anchor) && TrieOk(trie, pos, ring, anchor) && x in ring && x != anchor[ring[x]]
    ensures TrieOk(trie, pos, ring - {x}, anchor)
  {
    var ring' := ring - {x};
    forall j: nat ensures SlotOk(trie, ring', anchor, j) {
      assert SlotOk(trie, ring, anchor, j);
    }
  }

  /** A leaf goes with the last chunk of its size. */
  lemma LeafGone(trie: map<nat, int>, pos: map<int, nat>, ring: map<int, nat>, anchor: map<nat, int>, x: int)
    requires MembersOk(ring, anchor) && TrieOk(trie, pos, ring, anchor) && x in ring && x == anchor[ring[x]]
             && ring[x] >= MIN_LARGE
    requires IsLeaf(trie, pos[x])
    ensures TrieOk(trie - {pos[x]}, pos, ring - {x}, anchor - {ring[x]})
  {
    var k := pos[x];
    var trie', ring', anchor' := trie - {k}, ring - {x}, anchor - {ring[x]};
    forall j: nat ensures SlotOk(trie', ring', anchor', j) {
      assert SlotOk(trie, ring, anchor, j);
      assert j / 2 == k ==> j == 2 * k || j == 2 * k + 1;
    }
  }

  lemma LeafMovedSlot(trie: map<nat, int>, pos: map<int, nat>, ring: map<int, nat>, anchor: map<nat, int>, x: int,
                      kx: nat, k: nat, j: nat)
    requires SlotOk(trie, ring, anchor, k) && SlotOk(trie, ring, anchor, kx) && SlotOk(trie, ring, anchor, j)
             && PosOk(trie, pos)
    requires kx in trie && trie[kx] == x && x in ring && IsLeaf(trie, k) && Under(k, kx) && k != kx
    requires InSlot(ring[trie[k]], kx)
    ensures SlotOk((trie - {k})[kx := trie[k]], ring - {x}, anchor - {ring[x]}, j)
  {
    assert j / 2 == k ==> j == 2 * k || j == 2 * k + 1;
  }

  /** A leaf below moves up into the slot of a node that goes with the last chunk of its size. */
  lemma LeafMovedUp(trie: map<nat, int>, pos: map<int, nat>, ring: map<int, nat>, anchor: map<nat, int>, x: int, k: nat)
    requires MembersOk(ring, anchor) && TrieOk(trie, pos, ring, anchor) && x in ring && x == anchor[ring[x]]
             && ring[x] >= MIN_LARGE
    requires IsSlot(pos[x]) && IsLeaf(trie, k) && Under(k, pos[x]) && k != pos[x]
    ensures TrieOk((trie - {k})[pos[x] := trie[k]], pos[trie[k] := pos[x]], ring - {x}, anchor - {ring[x]})
  {
    var r, kx := trie[k], pos[x];
    var trie', pos', ring', anchor' := (trie - {k})[kx := r], pos[r := kx], ring - {x}, anchor - {ring[x]};
    assert SlotOk(trie, ring, anchor, k) && SlotOk(trie, ring, anchor, kx);
    UnderFits(ring[r], k, kx);
    forall j: nat ensures SlotOk(trie', ring', anchor', j) {
      assert SlotOk(trie, ring, anchor, j);
      LeafMovedSlot(trie, pos, ring, anchor, x, kx, k, j);
    }
  }

  // ----- small rings do not matter to the forest

  ghost predicate SameLarge(ring: map<int, nat>, anchor: map<nat, int>, ring': map<int, nat>, anchor': map<nat, int>) {
    && (forall a | a in ring && ring[a] >= MIN_LARGE :: a in ring' && ring'[a] == ring[a])
    && (forall a | a in ring' && ring'[a] >= MIN_LARGE :: a in ring && ring[a] == ring'[a])
    && (forall s | s >= MIN_LARGE :: (s in anchor <==> s in anchor') && (s in anchor ==> anchor'[s] == anchor[s]))
  }

  lemma SameLargeTags(left: Field, right: Field, parent: Field, index: Field,
                      ring: map<int, nat>, anchor: map<nat, int>, ring': map<int, nat>, anchor': map<nat, int>)
    requires SameLarge(ring, anchor, ring', anchor') && TagsOk(left, right, parent, index, ring, anchor)
    ensures TagsOk(left, right, parent, index, ring', anchor')
  {
  }

  lemma SameLargeTrie(trie: map<nat, int>, pos: map<int, nat>,
                      ring: map<int, nat>, anchor: map<nat, int>, ring': map<int, nat>, anchor': map<nat, int>)
    requires SameLarge(ring, anchor, ring', anchor') && TrieOk(trie, pos, ring, anchor)
    ensures TrieOk(trie, pos, ring', anchor')
  {
    forall k: nat ensures SlotOk(trie, ring', anchor', k) {
      assert SlotOk(trie, ring, anchor, k);
    }
  }

  // ----- walking down from a root towards a size

  /** Slot `k` is used and on the way to size `s`, which stands there or below if it is held at all. */
  ghost predicate OnTheWay(trie: map<nat, int>, pos: map<int, nat>, anchor: map<nat, int>, s: nat, k: nat) {
    && k in trie && IsSlot(k) && IsTreeSize(s) && InSlot(s, k) && 0 <= FreeBits(k) <= 64
    && (s in anchor ==> anchor[s] in pos && Under(pos[anchor[s]], k))
  }

  lemma StartOfTheWay(trie: map<nat, int>, pos: map<int, nat>, ring: map<int, nat>, anchor: map<nat, int>, s: nat)
    requires MembersOk(ring, anchor) && TrieOk(trie, pos, ring, anchor) && IsTreeSize(s)
    ensures TreeIndex(s) < NBINS
    ensures var k := 32 + TreeIndex(s);
            if k in trie then OnTheWay(trie, pos, anchor, s, k) && ShiftedAt(s, k) == ShiftedSize(s, TreeIndex(s))
            else s !in anchor && CanPlant(trie, s, k)
  {
    RootFits(s);
    Pow64();
    var k := 32 + TreeIndex(s);
    FreeBitsBound(k);
    if s in anchor {
      var j := pos[anchor[s]];
      assert SlotOk(trie, ring, anchor, j);
      UnderRoot(j);
      TrieClosed(trie, pos, ring, anchor, j, k);
    }
  }

  /** The arithmetic of one level: the bit looked at is one that tells sizes apart. */
  lemma DescentFits(nb: nat, u: nat, k: nat)
    requires IsSlot(k) && InSlot(nb, k) && IsTreeSize(nb) && InSlot(u, k) && IsTreeSize(u) && u != nb
             && 0 <= FreeBits(k) <= 64
    ensures var side := SignBit(ShiftedAt(nb, k));
            && FreeBits(k) > 4 && InSlot(nb, 2 * k + side) && FreeBits(2 * k + side) == FreeBits(k) - 1
            && ShiftedAt(nb, 2 * k + side) == ShiftOnce(ShiftedAt(nb, k))
  {
    hide TreeIndex;
    Pow64();
    FreeBitLeft(nb, u, k);
    SignBitIsFreeBit(nb, k);
    var side := SignBit(ShiftedAt(nb, k));
    ChildFits(nb, k, side);
    assert (2 * k + side) / 2 == k;
  }

  lemma NodeSlot(trie: map<nat, int>, pos: map<int, nat>, ring: map<int, nat>, anchor: map<nat, int>, k: nat)
    requires TrieOk(trie, pos, ring, anchor) && k in trie
    ensures trie[k] in ring && IsTreeSize(ring[trie[k]]) && InSlot(ring[trie[k]], k)
  {
    hide InSlot, FreeBits, PosOk;
    assert SlotOk(trie, ring, anchor, k);
  }

  /** One level down: the side is the sign bit, and a free slot there is the place for a new size. */
  lemma OneLevelDown(trie: map<nat, int>, pos: map<int, nat>, ring: map<int, nat>, anchor: map<nat, int>, s: nat,
                     k: nat)
    requires MembersOk(ring, anchor) && TrieOk(trie, pos, ring, anchor) && OnTheWay(trie, pos, anchor, s, k)
    requires trie[k] in ring && ring[trie[k]] != s
    ensures FreeBits(k) > 4
    ensures var j := 2 * k + SignBit(ShiftedAt(s, k));
            && FreeBits(j) == FreeBits(k) - 1 && ShiftedAt(s, j) == ShiftOnce(ShiftedAt(s, k))
            && (if j in trie then OnTheWay(trie, pos, anchor, s, j) else s !in anchor && CanPlant(trie, s, j))
  {
    hide MembersOk, TrieOk, TreeIndex, InSlot, FreeBits, Under, SignBit, ShiftedAt, ShiftOnce;
    NodeSlot(trie, pos, ring, anchor, k);
    DescentFits(s, ring[trie[k]], k);
    var side := SignBit(ShiftedAt(s, k));
    assert (2 * k + side) / 2 == k;
    if s in anchor {
      BelowOnTheWay(trie, pos, ring, anchor, s, k, side);
    }
  }

  lemma BelowOnTheWay(trie: map<nat, int>, pos: map<int, nat>, ring: map<int, nat>, anchor: map<nat, int>, s: nat,
                      k: nat, side: nat)
    requires MembersOk(ring, anchor) && TrieOk(trie, pos, ring, anchor) && OnTheWay(trie, pos, anchor, s, k)
    requires trie[k] in ring && ring[trie[k]] != s && s in anchor && side <= 1 && FreeBits(k) > 4
    requires InSlot(s, 2 * k + side)
    ensures Under(pos[anchor[s]], 2 * k + side) && 2 * k + side in trie
  {
    var a := pos[anchor[s]];
    assert SlotOk(trie, ring, anchor, a);
    UnderSplit(a, k);
    if Under(a, 2 * k + (1 - side)) {
      UnderFits(s, a, 2 * k + (1 - side));
      ChildFits(s, k, 0);
      ChildFits(s, k, 1);
    }
    TrieClosed(trie, pos, ring, anchor, a, 2 * k + side);
  }
}
