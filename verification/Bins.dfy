/** The bins of `malloc_state`: 32 circular lists of small chunks, 32 tries of large ones, and their maps. */
module Bins {
  import opened Bitmap
  import opened Sizes
  import opened Slots
  import opened Memory
  import opened BinNet
  import opened TrieNet

  /** The ghost views of the links (see `BinNet`). */
  datatype Net = Net(ring: map<int, nat>, anchor: map<nat, int>, rank: map<int, int>, clock: int, trie: map<nat, int>,
                     pos: map<int, nat>)

  /** `x` has come in now, and the others when they did. */
  ghost predicate CameLast(net: Net, net': Net, x: int) {
    && net'.clock == net.clock + 1 && x in net'.rank && net'.rank[x] == net.clock
    && forall q | q > 0 && q != x && q in net.rank :: q in net'.rank && net'.rank[q] == net.rank[q]
  }

  /** No binned chunk of its size came in after `v`, or before it. */
  ghost predicate Newest(chunks: map<int, nat>, rank: map<int, int>, v: int) {
    v in chunks && v in rank
    && forall q | q in chunks && chunks[q] == chunks[v] :: q in rank && rank[q] <= rank[v]
  }

  ghost predicate Oldest(chunks: map<int, nat>, rank: map<int, int>, v: int) {
    v in chunks && v in rank
    && forall q | q in chunks && chunks[q] == chunks[v] :: q in rank && rank[v] <= rank[q]
  }

  /** Of equal-sized chunks the newest small one and the oldest large one is used next. */
  ghost predicate NextInTurn(chunks: map<int, nat>, rank: map<int, int>, v: int) {
    v in chunks ==> if chunks[v] < MIN_LARGE then Newest(chunks, rank, v) else Oldest(chunks, rank, v)
  }

  /** Byte `a` lies in the part of a binned chunk that its links may use. */
  ghost predicate InFree(chunks: map<int, nat>, a: int) {
    exists p :: p in chunks && p + 16 <= a < p + chunks[p]
  }

  // ----- the words the links lie in

  /** The bins may link through field `w` of `x`: the header of a small bin, or a chunk that is big enough. */
  ghost predicate MayLink(chunks: map<int, nat>, x: int, w: Role) {
    if w == FdW || w == BkW then x in chunks || (x <= -64 && x % 64 == 0)
    else x > 0 && x in chunks && chunks[x] >= MIN_LARGE && (w == LeftW || w == RightW || w == ParentW || w == IndexW)
  }

  /** All links of the chunks, and of the headers in `ring`, are whole words of memory. */
  ghost predicate LinksWhole(d: Bytes, chunks: map<int, nat>, ring: map<int, nat>) {
    forall x, w {:trigger HasWord(d, x, w)} | MayLink(chunks, x, w) && (x < 0 ==> x in ring) :: HasWord(d, x, w)
  }

  /** Links that were whole still are. */
  ghost predicate LinksKept(d: Bytes, d': Bytes, chunks: map<int, nat>) {
    forall x, w {:trigger HasWord(d', x, w)} | MayLink(chunks, x, w) && HasWord(d, x, w) :: HasWord(d', x, w)
  }

  ghost predicate InTurn(chunks: map<int, nat>, p: int, q: int) {
    p in chunks && q in chunks && p < q ==> p + chunks[p] <= q
  }

  /** No two chunks overlap. */
  ghost predicate Spaced(chunks: map<int, nat>) {
    forall p, q {:trigger InTurn(chunks, p, q)} :: InTurn(chunks, p, q)
  }

  /** Only bytes of binned chunks (and of the allocator's own record, below address 0) differ, and no link is spoilt. */
  ghost predicate OnlyFreeBytes(d: Bytes, d': Bytes, chunks: map<int, nat>) {
    (forall a :: a >= 0 && !InFree(chunks, a) ==> d'.At(a) == d.At(a)) && LinksKept(d, d', chunks)
  }

  /** Two links never share a byte. */
  lemma LinksApart(chunks: map<int, nat>, x: int, w: Role, y: int, u: Role)
    requires Spaced(chunks) && SizesOk(chunks) && MayLink(chunks, x, w) && MayLink(chunks, y, u) && (x != y || w != u)
    ensures x + OffsetOf(w) + 8 <= y + OffsetOf(u) || y + OffsetOf(u) + 8 <= x + OffsetOf(w)
  {
    assert InTurn(chunks, x, y) && InTurn(chunks, y, x);
  }

  /** A link written. */
  lemma LinkWritten(d: Bytes, chunks: map<int, nat>, y: int, u: Role, v: int)
    requires Spaced(chunks) && SizesOk(chunks) && MayLink(chunks, y, u)
    ensures OnlyFreeBytes(d, d.SetWord(y + OffsetOf(u), u, v), chunks)
            && HasWord(d.SetWord(y + OffsetOf(u), u, v), y, u)
  {
    hide IsWord, Bytes.SetWord, MayLink, SizesOk, Spaced, InFree, OffsetOf;
    LinkInside(d, chunks, y, u, v);
    WordWritten(d, y + OffsetOf(u), u, v);
    forall x, w | MayLink(chunks, x, w) && HasWord(d, x, w) ensures HasWord(d.SetWord(y + OffsetOf(u), u, v), x, w) {
      OtherLinkKept(d, chunks, y, u, v, x, w);
    }
  }

  lemma OtherLinkKept(d: Bytes, chunks: map<int, nat>, y: int, u: Role, v: int, x: int, w: Role)
    requires Spaced(chunks) && SizesOk(chunks) && MayLink(chunks, y, u) && MayLink(chunks, x, w) && HasWord(d, x, w)
    ensures HasWord(d.SetWord(y + OffsetOf(u), u, v), x, w)
  {
    hide IsWord, Bytes.SetWord, MayLink, SizesOk, Spaced;
    WordWritten(d, y + OffsetOf(u), u, v);
    if x != y || w != u {
      LinksApart(chunks, x, w, y, u);
      WordKept(d, y + OffsetOf(u), u, v, x + OffsetOf(w), w);
    }
  }

  /** A child link of a tree chunk written. */
  lemma ChildWritten(d: Bytes, chunks: map<int, nat>, t: int, side: nat, v: int)
    requires Spaced(chunks) && SizesOk(chunks) && t in chunks && chunks[t] >= MIN_LARGE
    ensures OnlyFreeBytes(d, d.SetWord(t + OffsetOf(ChildRole(side)), ChildRole(side), v), chunks)
  {
    LinkWritten(d, chunks, t, ChildRole(side), v);
  }

  lemma LinkInside(d: Bytes, chunks: map<int, nat>, y: int, u: Role, v: int)
    requires SizesOk(chunks) && MayLink(chunks, y, u)
    ensures forall a :: a >= 0 && !InFree(chunks, a) ==> d.SetWord(y + OffsetOf(u), u, v).At(a) == d.At(a)
  {
    assert y in chunks ==> IsChunkSize(chunks[y]);
  }

  lemma BytesSame(d: Bytes, chunks: map<int, nat>)
    ensures OnlyFreeBytes(d, d, chunks)
  {
  }

  lemma BytesTrans(d0: Bytes, d1: Bytes, d2: Bytes, chunks: map<int, nat>)
    requires OnlyFreeBytes(d0, d1, chunks) && OnlyFreeBytes(d1, d2, chunks)
    ensures OnlyFreeBytes(d0, d2, chunks)
  {
    hide HasWord, MayLink, InFree;
    forall x, w | MayLink(chunks, x, w) && HasWord(d0, x, w) ensures HasWord(d2, x, w) {
      assert HasWord(d1, x, w);
    }
  }

  /** Two links written, one after the other. */
  lemma TwoLinksWritten(d: Bytes, chunks: map<int, nat>, x: int, w: Role, v: int, y: int, u: Role, v': int)
    requires Spaced(chunks) && SizesOk(chunks) && MayLink(chunks, x, w) && MayLink(chunks, y, u)
    ensures var d' := d.SetWord(x + OffsetOf(w), w, v).SetWord(y + OffsetOf(u), u, v');
            OnlyFreeBytes(d, d', chunks) && HasWord(d', x, w) && HasWord(d', y, u)
  {
    hide HasWord, MayLink, SizesOk, Spaced, Bytes.SetWord, OffsetOf;
    var d1 := d.SetWord(x + OffsetOf(w), w, v);
    LinkWritten(d, chunks, x, w, v);
    LinkWritten(d1, chunks, y, u, v');
    BytesTrans(d, d1, d1.SetWord(y + OffsetOf(u), u, v'), chunks);
  }

  /** Fewer chunks and headers need fewer links. */
  lemma LinksFewer(d: Bytes, d': Bytes, chunks: map<int, nat>, ring: map<int, nat>, chunks': map<int, nat>,
                   ring': map<int, nat>)
    requires LinksWhole(d, chunks, ring) && OnlyFreeBytes(d, d', chunks) && Spaced(chunks)
    requires (forall p | p in chunks' :: p in chunks && chunks'[p] == chunks[p]) && (forall b | b in ring' :: b in ring)
    ensures LinksWhole(d', chunks', ring') && Spaced(chunks')
  {
    hide HasWord;
    forall x, w | MayLink(chunks', x, w) && (x < 0 ==> x in ring') ensures HasWord(d', x, w) {
      assert HasWord(d, x, w);
    }
    forall p, q ensures InTurn(chunks', p, q) {
      assert InTurn(chunks, p, q);
    }
  }

  /** One more chunk, all of whose links have been written. */
  lemma LinksMore(d: Bytes, d': Bytes, chunks: map<int, nat>, ring: map<int, nat>, p: int, s: nat, ring': map<int, nat>)
    requires LinksWhole(d, chunks, ring) && OnlyFreeBytes(d, d', chunks[p := s]) && p !in chunks
    requires HasWord(d', p, FdW) && HasWord(d', p, BkW)
    requires s >= MIN_LARGE ==>
             HasWord(d', p, LeftW) && HasWord(d', p, RightW) && HasWord(d', p, ParentW) && HasWord(d', p, IndexW)
    requires forall b | b in ring' && b < 0 && b !in ring :: HasWord(d', b, FdW) && HasWord(d', b, BkW)
    ensures LinksWhole(d', chunks[p := s], ring')
  {
    hide HasWord;
    forall x, w | MayLink(chunks[p := s], x, w) && (x < 0 ==> x in ring') ensures HasWord(d', x, w) {
      if x != p && (x < 0 ==> x in ring) {
        assert HasWord(d, x, w);
      }
    }
  }

  ghost predicate ChunksOk(ring: map<int, nat>, chunks: map<int, nat>) {
    && (forall p | p in chunks :: p > 0 && p in ring && ring[p] == chunks[p])
    && (forall a | a in ring && a > 0 :: a in chunks)
  }

  ghost predicate ListsOk(fd: Field, bk: Field, chunks: map<int, nat>,
                          ring: map<int, nat>, anchor: map<nat, int>, rank: map<int, int>, clock: int) {
    && ChunksOk(ring, chunks) && MembersOk(ring, anchor) && RanksOk(ring, rank, clock)
    && RingsOk(fd, bk, ring, anchor, rank) && OldestOk(ring, anchor, rank)
  }

  ghost predicate TreesOk(left: Field, right: Field, parent: Field, index: Field,
                          ring: map<int, nat>, anchor: map<nat, int>, trie: map<nat, int>, pos: map<int, nat>) {
    && TagsOk(left, right, parent, index, ring, anchor)
    && TrieOk(trie, pos, ring, anchor) && NodesOk(left, right, parent, trie)
  }

  lemma SameLargeTrees(left: Field, right: Field, parent: Field, index: Field, trie: map<nat, int>, pos: map<int, nat>,
                       ring: map<int, nat>, anchor: map<nat, int>, ring': map<int, nat>, anchor': map<nat, int>)
    requires SameLarge(ring, anchor, ring', anchor') && TreesOk(left, right, parent, index, ring, anchor, trie, pos)
    ensures TreesOk(left, right, parent, index, ring', anchor', trie, pos)
  {
    hide SameLarge, TagsOk, TrieOk, NodesOk;
    SameLargeTags(left, right, parent, index, ring, anchor, ring', anchor');
    SameLargeTrie(trie, pos, ring, anchor, ring', anchor');
  }

  // ----- what one more chunk does to each part of the bookkeeping

  lemma MemberAdded(ring: map<int, nat>, anchor: map<nat, int>, p: int, s: nat)
    requires MembersOk(ring, anchor) && p > 0 && s in anchor && p !in ring
    ensures MembersOk(ring[p := s], anchor)
  {
  }

  lemma ChunkAdded(ring: map<int, nat>, chunks: map<int, nat>, p: int, s: nat)
    requires ChunksOk(ring, chunks) && p > 0
    ensures p in ring <==> p in chunks
    ensures ChunksOk(ring[p := s], chunks[p := s])
  {
  }

  lemma RankAdded(ring: map<int, nat>, rank: map<int, int>, clock: int, p: int, s: nat)
    requires RanksOk(ring, rank, clock)
    ensures RanksOk(ring[p := s], rank[p := clock], clock + 1)
  {
  }

  lemma OldestJoined(ring: map<int, nat>, anchor: map<nat, int>, rank: map<int, int>, clock: int, x: int, s: nat)
    requires MembersOk(ring, anchor) && RanksOk(ring, rank, clock) && OldestOk(ring, anchor, rank) && x !in ring
    ensures OldestOk(ring[x := s], anchor, rank[x := clock])
  {
    var ring', rank' := ring[x := s], rank[x := clock];
    forall a | a in ring' && ring'[a] >= MIN_LARGE ensures NotBefore(ring', anchor, rank', a) {
      assert a != x ==> NotBefore(ring, anchor, rank, a);
    }
  }

  lemma OldestOpened(ring: map<int, nat>, anchor: map<nat, int>, rank: map<int, int>, clock: int, b: int, p: int,
                     s: nat)
    requires MembersOk(ring, anchor) && OldestOk(ring, anchor, rank) && b !in ring && p !in ring && s !in anchor
    requires s < MIN_LARGE || b == p
    ensures OldestOk(ring[b := s][p := s], anchor[s := b], rank[b := clock][p := clock])
  {
    var ring', anchor', rank' := ring[b := s][p := s], anchor[s := b], rank[b := clock][p := clock];
    forall a | a in ring' && ring'[a] >= MIN_LARGE ensures NotBefore(ring', anchor', rank', a) {
      assert a != b && a != p ==> NotBefore(ring, anchor, rank, a);
    }
  }

  lemma OldestFewer(ring: map<int, nat>, anchor: map<nat, int>, rank: map<int, int>, ring': map<int, nat>,
                    anchor': map<nat, int>)
    requires OldestOk(ring, anchor, rank)
    requires forall a | a in ring' :: a in ring && ring'[a] == ring[a]
    requires forall s | s in anchor' :: s in anchor && anchor'[s] == anchor[s]
    ensures OldestOk(ring', anchor', rank)
  {
    forall a | a in ring' && ring'[a] >= MIN_LARGE ensures NotBefore(ring', anchor', rank, a) {
      assert NotBefore(ring, anchor, rank, a);
    }
  }

  /** The chunk behind the tree node came in before all others. */
  lemma {:induction false} NextOldest(fd: Field, bk: Field, ring: map<int, nat>, anchor: map<nat, int>,
                                      rank: map<int, int>, clock: int, t: int, a: int)
    requires MembersOk(ring, anchor) && RanksOk(ring, rank, clock) && RingsOk(fd, bk, ring, anchor, rank)
             && OldestOk(ring, anchor, rank)
    requires t in ring && ring[t] >= MIN_LARGE && t == anchor[ring[t]] && a in ring && ring[a] == ring[t] && a != t
    ensures bk.At(t) in rank && a in rank && rank[bk.At(t)] <= rank[a]
    decreases if a in rank && t in rank then rank[a] - rank[t] else 0
  {
    var c := fd.At(a);
    assert LinkedAt(fd, bk, ring, a) && OrderedAt(bk, ring, anchor, rank, c);
    assert NotBefore(ring, anchor, rank, c);
    if c != t {
      NextOldest(fd, bk, ring, anchor, rank, clock, t, c);
    }
  }

  /** The tree node of a size came in before all others of that size. */
  lemma NodeIsOldest(fd: Field, bk: Field, chunks: map<int, nat>,
                     ring: map<int, nat>, anchor: map<nat, int>, rank: map<int, int>, clock: int, v: int)
    requires ListsOk(fd, bk, chunks, ring, anchor, rank, clock) && v in chunks && chunks[v] >= MIN_LARGE
    requires v in ring && ring[v] in anchor && anchor[ring[v]] == v
    ensures Oldest(chunks, rank, v)
  {
    hide RingsOk;
    forall q | q in chunks && chunks[q] == chunks[v] ensures q in rank && rank[v] <= rank[q] {
      assert NotBefore(ring, anchor, rank, q);
    }
  }

  /** The chunk behind the header of a small bin came in after all others of its size. */
  lemma {:induction false} FirstIsNewest(fd: Field, bk: Field, ring: map<int, nat>, anchor: map<nat, int>,
                                         rank: map<int, int>, clock: int, h: int, a: int)
    requires MembersOk(ring, anchor) && RanksOk(ring, rank, clock) && RingsOk(fd, bk, ring, anchor, rank)
    requires h in ring && h == anchor[ring[h]] && a in ring && ring[a] == ring[h] && a != h
    ensures fd.At(h) in rank && a in rank && rank[a] <= rank[fd.At(h)]
    decreases if a in rank then clock - rank[a] else 0
  {
    assert LinkedAt(fd, bk, ring, a) && OrderedAt(bk, ring, anchor, rank, a);
    if bk.At(a) != h {
      FirstIsNewest(fd, bk, ring, anchor, rank, clock, h, bk.At(a));
    }
  }

  lemma HeadIsNewest(fd: Field, bk: Field, chunks: map<int, nat>,
                     ring: map<int, nat>, anchor: map<nat, int>, rank: map<int, int>, clock: int, s: nat)
    requires ListsOk(fd, bk, chunks, ring, anchor, rank, clock) && s in anchor && s < MIN_LARGE
    requires fd.At(anchor[s]) in chunks && chunks[fd.At(anchor[s])] == s
    ensures Newest(chunks, rank, fd.At(anchor[s]))
  {
    hide RingsOk, RanksOk;
    forall q | q in chunks && chunks[q] == s ensures q in rank && fd.At(anchor[s]) in rank
    && rank[q] <= rank[fd.At(anchor[s])] {
      FirstIsNewest(fd, bk, ring, anchor, rank, clock, anchor[s], q);
    }
  }

  lemma OldestHeir(fd: Field, bk: Field, ring: map<int, nat>, anchor: map<nat, int>, rank: map<int, int>, clock: int,
                   x: int)
    requires MembersOk(ring, anchor) && RanksOk(ring, rank, clock) && RingsOk(fd, bk, ring, anchor, rank)
             && OldestOk(ring, anchor, rank)
    requires x in ring && ring[x] >= MIN_LARGE && bk.At(x) != x
    ensures OldestOk(ring - {x}, Heir(fd, bk, ring, anchor, x), rank)
  {
    hide RingsOk, RanksOk;
    var ring', anchor' := ring - {x}, Heir(fd, bk, ring, anchor, x);
    forall a | a in ring' && ring'[a] >= MIN_LARGE ensures NotBefore(ring', anchor', rank, a) {
      assert NotBefore(ring, anchor, rank, a);
      if x == anchor[ring[x]] && ring[a] == ring[x] {
        NextOldest(fd, bk, ring, anchor, rank, clock, x, a);
      }
    }
  }

  lemma SmallAdded(ring: map<int, nat>, anchor: map<nat, int>, p: int, s: nat)
    requires p !in ring && s < MIN_LARGE
    ensures SameLarge(ring, anchor, ring[p := s], anchor)
  {
  }

  lemma SmallJoined(fd: Field, bk: Field, chunks: map<int, nat>,
                    ring: map<int, nat>, anchor: map<nat, int>, rank: map<int, int>, clock: int, p: int, s: nat)
    requires ListsOk(fd, bk, chunks, ring, anchor, rank, clock)
    requires p > 0 && p !in chunks && s < MIN_LARGE && s in anchor
    ensures var b := anchor[s];
            ListsOk(fd.Set(b, p).Set(p, fd.At(b)), bk.Set(fd.At(b), p).Set(p, b), chunks[p := s],
                    ring[p := s], anchor, rank[p := clock], clock + 1)
    ensures SameLarge(ring, anchor, ring[p := s], anchor)
  {
    hide ChunksOk, MembersOk, RanksOk, RingsOk, SameLarge, Field.Set, Field.At, OldestOk;
    ChunkAdded(ring, chunks, p, s);
    MemberAdded(ring, anchor, p, s);
    OldestJoined(ring, anchor, rank, clock, p, s);
    RankAdded(ring, rank, clock, p, s);
    SmallAdded(ring, anchor, p, s);
    JoinedRings(fd, bk, ring, anchor, rank, clock, p, s);
  }

  lemma SmallOpened(fd: Field, bk: Field, chunks: map<int, nat>,
                    ring: map<int, nat>, anchor: map<nat, int>, rank: map<int, int>, clock: int, b: int, p: int, s: nat)
    requires ListsOk(fd, bk, chunks, ring, anchor, rank, clock)
    requires p > 0 && p !in chunks && IsChunkSize(s) && s < MIN_LARGE && s !in anchor && b == Header(s / 8)
    ensures ListsOk(fd.Set(b, p).Set(p, b), bk.Set(b, p).Set(p, b), chunks[p := s],
                    ring[b := s][p := s], anchor[s := b], rank[b := clock][p := clock], clock + 1)
    ensures SameLarge(ring, anchor, ring[b := s][p := s], anchor[s := b])
  {
    hide ChunksOk, RanksOk, RingsOk, SameLarge, IsChunkSize, MembersOk, Field.Set, Field.At, OldestOk;
    ChunkAdded(ring, chunks, p, s);
    OpenedMembers(ring, anchor, p, s);
    OldestOpened(ring, anchor, rank, clock, b, p, s);
    OpenedRing(fd, bk, ring, anchor, rank, clock, b, p, s);
    HeaderAdded(ring, chunks, rank, clock, b, p, s);
    SmallOpenedLarge(ring, anchor, b, p, s);
  }

  lemma HeaderAdded(ring: map<int, nat>, chunks: map<int, nat>, rank: map<int, int>, clock: int, b: int, p: int, s: nat)
    requires ChunksOk(ring, chunks) && RanksOk(ring, rank, clock) && b < 0 < p
    ensures ChunksOk(ring[b := s][p := s], chunks[p := s])
    ensures RanksOk(ring[b := s][p := s], rank[b := clock][p := clock], clock + 1)
  {
  }

  lemma SmallOpenedLarge(ring: map<int, nat>, anchor: map<nat, int>, b: int, p: int, s: nat)
    requires p !in ring && b !in ring && s < MIN_LARGE
    ensures SameLarge(ring, anchor, ring[b := s][p := s], anchor[s := b])
  {
  }

  // ----- what one chunk less does

  lemma ChunkTaken(ring: map<int, nat>, chunks: map<int, nat>, rank: map<int, int>, clock: int, p: int)
    requires ChunksOk(ring, chunks) && RanksOk(ring, rank, clock)
    ensures ChunksOk(ring - {p}, chunks - {p}) && RanksOk(ring - {p}, rank, clock)
  {
  }

  lemma HeaderTaken(ring: map<int, nat>, chunks: map<int, nat>, rank: map<int, int>, clock: int, p: int, h: int)
    requires ChunksOk(ring, chunks) && RanksOk(ring, rank, clock) && h < 0
    ensures ChunksOk(ring - {p, h}, chunks - {p}) && RanksOk(ring - {p, h}, rank, clock)
  {
  }

  lemma SmallTaken(ring: map<int, nat>, anchor: map<nat, int>, p: int)
    requires p in ring && ring[p] < MIN_LARGE
    ensures SameLarge(ring, anchor, ring - {p}, anchor)
  {
  }

  lemma SmallClosedLarge(ring: map<int, nat>, anchor: map<nat, int>, p: int, h: int)
    requires p in ring && ring[p] < MIN_LARGE && h in ring && ring[h] < MIN_LARGE
    ensures SameLarge(ring, anchor, ring - {p, h}, anchor - {ring[p]})
  {
  }

  /** A small chunk that leaves others of its size behind. */
  lemma SmallLeft(fd: Field, bk: Field, chunks: map<int, nat>,
                  ring: map<int, nat>, anchor: map<nat, int>, rank: map<int, int>, clock: int, p: int)
    requires ListsOk(fd, bk, chunks, ring, anchor, rank, clock) && p in chunks && chunks[p] < MIN_LARGE
             && fd.At(p) != bk.At(p)
    ensures ListsOk(fd.Set(bk.At(p), fd.At(p)), bk.Set(fd.At(p), bk.At(p)), chunks - {p}, ring - {p}, anchor, rank,
                    clock)
    ensures SameLarge(ring, anchor, ring - {p}, anchor)
  {
    hide RanksOk, RingsOk, SameLarge, Field.Set, Field.At, OldestOk;
    SmallMember(fd, bk, chunks, ring, anchor, rank, clock, p);
    OldestFewer(ring, anchor, rank, ring - {p}, anchor);
    ChunkTaken(ring, chunks, rank, clock, p);
    SmallTaken(ring, anchor, p);
    LeftMembers(fd, bk, ring, anchor, p);
    LeftRings(fd, bk, ring, anchor, rank, p);
  }

  /** The last chunk of a small bin. */
  lemma SmallClosed(fd: Field, bk: Field, chunks: map<int, nat>,
                    ring: map<int, nat>, anchor: map<nat, int>, rank: map<int, int>, clock: int, p: int, h: int)
    requires ListsOk(fd, bk, chunks, ring, anchor, rank, clock) && p in chunks && chunks[p] < MIN_LARGE
             && fd.At(p) == bk.At(p)
    requires h == Header(chunks[p] / 8)
    ensures ListsOk(fd, bk, chunks - {p}, ring - {p, h}, anchor - {chunks[p]}, rank, clock)
    ensures SameLarge(ring, anchor, ring - {p, h}, anchor - {chunks[p]}) && chunks[p] in anchor
  {
    hide RanksOk, RingsOk, SameLarge, Field.Set, Field.At, OldestOk;
    SmallMember(fd, bk, chunks, ring, anchor, rank, clock, p);
    OldestFewer(ring, anchor, rank, ring - {p, h}, anchor - {chunks[p]});
    ClosedRing(fd, bk, ring, anchor, rank, clock, p);
    HeaderTaken(ring, chunks, rank, clock, p, h);
    SmallClosedLarge(ring, anchor, p, h);
  }

  /** A small chunk is linked both ways, to chunks of its size or the header of its bin. */
  lemma SmallMember(fd: Field, bk: Field, chunks: map<int, nat>,
                    ring: map<int, nat>, anchor: map<nat, int>, rank: map<int, int>, clock: int, p: int)
    requires ListsOk(fd, bk, chunks, ring, anchor, rank, clock) && p in chunks && chunks[p] < MIN_LARGE
    ensures p in ring && ring[p] == chunks[p] && ring[p] in anchor && anchor[ring[p]] == Header(ring[p] / 8) != p
    ensures LinkedAt(fd, bk, ring, p) && bk.At(p) != p && fd.At(p) != p
    ensures forall a :: a == fd.At(p) || a == bk.At(p) ==>
            a == Header(ring[p] / 8) || (a in chunks && chunks[a] == chunks[p])
  {
    hide RanksOk;
    assert LinkedAt(fd, bk, ring, p) && OrderedAt(bk, ring, anchor, rank, p);
  }

  /** Every chunk held has a positive address and a chunk size. */
  ghost predicate SizesOk(chunks: map<int, nat>) {
    forall q | q in chunks :: q > 0 && IsChunkSize(chunks[q])
  }

  lemma SizeAdded(chunks: map<int, nat>, p: int, s: nat)
    requires SizesOk(chunks) && p > 0 && IsChunkSize(s)
    ensures SizesOk(chunks[p := s])
  {
  }

  lemma HeldSizes(fd: Field, bk: Field, chunks: map<int, nat>,
                  ring: map<int, nat>, anchor: map<nat, int>, rank: map<int, int>, clock: int)
    requires ListsOk(fd, bk, chunks, ring, anchor, rank, clock)
    ensures SizesOk(chunks)
  {
    hide RingsOk, RanksOk;
  }

  lemma HeaderLinks(fd: Field, bk: Field, chunks: map<int, nat>,
                    ring: map<int, nat>, anchor: map<nat, int>, rank: map<int, int>, clock: int, s: nat)
    requires ListsOk(fd, bk, chunks, ring, anchor, rank, clock) && s in anchor && s < MIN_LARGE
    ensures anchor[s] == Header(s / 8) && fd.At(anchor[s]) in chunks && chunks[fd.At(anchor[s])] == s
    ensures bk.At(fd.At(anchor[s])) == anchor[s]
  {
    hide RanksOk;
    assert LinkedAt(fd, bk, ring, anchor[s]);
  }

  // ----- large chunks

  lemma NewMember(ring: map<int, nat>, anchor: map<nat, int>, x: int, s: nat)
    requires MembersOk(ring, anchor) && x > 0 && s !in anchor && x !in ring && s >= MIN_LARGE && IsChunkSize(s)
    ensures MembersOk(ring[x := s], anchor[s := x])
  {
  }

  /** The first chunk of a large size. */
  lemma LargeOpened(fd: Field, bk: Field, chunks: map<int, nat>,
                    ring: map<int, nat>, anchor: map<nat, int>, rank: map<int, int>, clock: int, x: int, s: nat)
    requires ListsOk(fd, bk, chunks, ring, anchor, rank, clock) && x > 0 && x !in chunks && IsTreeSize(s)
             && s !in anchor
    ensures ListsOk(fd.Set(x, x), bk.Set(x, x), chunks[x := s], ring[x := s], anchor[s := x], rank[x := clock],
                    clock + 1)
  {
    hide ChunksOk, MembersOk, RanksOk, RingsOk, Field.Set, Field.At, OldestOk;
    ChunkAdded(ring, chunks, x, s);
    OldestOpened(ring, anchor, rank, clock, x, x, s);
    assert ring[x := s][x := s] == ring[x := s] && rank[x := clock][x := clock] == rank[x := clock];
    NewMember(ring, anchor, x, s);
    RankAdded(ring, rank, clock, x, s);
    SingleRing(fd, bk, ring, anchor, rank, clock, x, s);
  }

  /** It becomes the node at a free slot. */
  lemma TreePlanted(left: Field, right: Field, parent: Field, index: Field,
                    ring: map<int, nat>, anchor: map<nat, int>, trie: map<nat, int>, pos: map<int, nat>, x: int, s: nat,
                    k: nat)
    requires TreesOk(left, right, parent, index, ring, anchor, trie, pos) && MembersOk(ring, anchor)
    requires left.At(x) == 0 && right.At(x) == 0 && index.At(x) == TreeIndex(s)
    requires CanPlant(trie, s, k) && s !in anchor && x > 0 && x !in ring
    ensures TreesOk(LeftTo(left, trie, k, x), RightTo(right, trie, k, x), parent.Set(x, ParentAt(trie, k)), index,
                    ring[x := s], anchor[s := x], trie[k := x], pos[x := k])
  {
    assert k >= 64 ==> SlotOk(trie, ring, anchor, k / 2);
    hide MembersOk, TagsOk, TrieOk, NodesOk, SlotOk, Field.Set, Field.At, LeftTo, RightTo, ParentAt, InSlot, FreeBits;
    NoOrphans(trie, pos, ring, anchor, x, s, k);
    PlantedTags(left, right, parent, index, trie, ring, anchor, x, s, k);
    PlantedTrie(trie, pos, ring, anchor, x, s, k);
    PlantedNodes(left, right, parent, trie, pos, x, k);
  }

  lemma SmallMapKept(m: nat, anchor: map<nat, int>, s: nat, x: int)
    requires SmallMapOk(m, anchor) && s >= MIN_LARGE
    ensures SmallMapOk(m, anchor[s := x]) && SmallMapOk(m, anchor - {s})
  {
    hide Bit;
  }

  /** The parts of the invariant that other lemmas start from. */
  lemma Parts(fd: Field, bk: Field, left: Field, right: Field, parent: Field, index: Field, chunks: map<int, nat>,
              ring: map<int, nat>, anchor: map<nat, int>, rank: map<int, int>, clock: int, trie: map<nat, int>,
              pos: map<int, nat>, x: int)
    requires ListsOk(fd, bk, chunks, ring, anchor, rank, clock)
             && TreesOk(left, right, parent, index, ring, anchor, trie, pos)
    ensures ChunksOk(ring, chunks) && MembersOk(ring, anchor) && RanksOk(ring, rank, clock)
            && RingsOk(fd, bk, ring, anchor, rank)
    ensures TagsOk(left, right, parent, index, ring, anchor) && TrieOk(trie, pos, ring, anchor)
            && NodesOk(left, right, parent, trie)
    ensures x in chunks <==> x in ring && x > 0
    ensures x in chunks ==> ring[x] == chunks[x] && chunks[x] in anchor && IsChunkSize(chunks[x])
  {
    hide RanksOk, RingsOk, TagsOk, TrieOk, NodesOk;
  }

  /** Everything but the maps, once a new large size has been planted at slot `k`. */
  lemma Planted(fd: Field, bk: Field, left: Field, right: Field, parent: Field, index: Field, roots: seq<int>,
                chunks: map<int, nat>,
                ring: map<int, nat>, anchor: map<nat, int>, rank: map<int, int>, clock: int, trie: map<nat, int>,
                pos: map<int, nat>,
                x: int, s: nat, k: nat)
    requires ListsOk(fd, bk, chunks, ring, anchor, rank, clock)
             && TreesOk(left, right, parent, index, ring, anchor, trie, pos)
    requires RootsOk(roots, trie) && left.At(x) == 0 && right.At(x) == 0 && index.At(x) == TreeIndex(s)
    requires CanPlant(trie, s, k) && s !in anchor && x > 0 && x !in chunks && k >= 32
    ensures ListsOk(fd.Set(x, x), bk.Set(x, x), chunks[x := s], ring[x := s], anchor[s := x], rank[x := clock],
                    clock + 1)
    ensures TreesOk(LeftTo(left, trie, k, x), RightTo(right, trie, k, x), parent.Set(x, ParentAt(trie, k)), index,
                    ring[x := s], anchor[s := x], trie[k := x], pos[x := k])
    ensures |roots| == NBINS && RootsOk(RootsTo(roots, k, x), trie[k := x])
    ensures k >= 64 ==> k / 2 in trie
  {
    hide ListsOk, TreesOk, MembersOk, Field.Set, Field.At, LeftTo, RightTo, ParentAt, InSlot, FreeBits, TreeIndex;
    Parts(fd, bk, left, right, parent, index, chunks, ring, anchor, rank, clock, trie, pos, x);
    LargeOpened(fd, bk, chunks, ring, anchor, rank, clock, x, s);
    TreePlanted(left, right, parent, index, ring, anchor, trie, pos, x, s, k);
    PlantedRoots(roots, trie, x, k);
  }

  /** One more chunk of a large size. */
  lemma LargeJoined(fd: Field, bk: Field, chunks: map<int, nat>,
                    ring: map<int, nat>, anchor: map<nat, int>, rank: map<int, int>, clock: int, x: int, s: nat)
    requires ListsOk(fd, bk, chunks, ring, anchor, rank, clock) && x > 0 && x !in chunks && s in anchor
    ensures var t := anchor[s];
            ListsOk(fd.Set(t, x).Set(x, fd.At(t)), bk.Set(fd.At(t), x).Set(x, t), chunks[x := s],
                    ring[x := s], anchor, rank[x := clock], clock + 1)
  {
    hide ChunksOk, MembersOk, RanksOk, RingsOk, Field.Set, Field.At, OldestOk;
    ChunkAdded(ring, chunks, x, s);
    OldestJoined(ring, anchor, rank, clock, x, s);
    MemberAdded(ring, anchor, x, s);
    RankAdded(ring, rank, clock, x, s);
    JoinedRings(fd, bk, ring, anchor, rank, clock, x, s);
  }

  lemma TagAdded(left: Field, right: Field, parent: Field, index: Field, ring: map<int, nat>, anchor: map<nat, int>,
                 x: int, s: nat)
    requires TagsOk(left, right, parent, index, ring, anchor)
    requires left.At(x) == 0 && right.At(x) == 0 && parent.At(x) == 0 && index.At(x) == TreeIndex(s)
    ensures TagsOk(left, right, parent, index, ring[x := s], anchor)
  {
    hide TreeIndex;
  }

  lemma SlotsKept(ring: map<int, nat>, anchor: map<nat, int>, trie: map<nat, int>, pos: map<int, nat>, x: int, s: nat)
    requires TrieOk(trie, pos, ring, anchor) && x !in ring
    ensures TrieOk(trie, pos, ring[x := s], anchor)
  {
    hide InSlot, FreeBits, IsTreeSize;
    var ring' := ring[x := s];
    forall k: nat ensures SlotOk(trie, ring', anchor, k) {
      assert SlotOk(trie, ring, anchor, k);
    }
  }

  lemma TreeJoined(left: Field, right: Field, parent: Field, index: Field,
                   ring: map<int, nat>, anchor: map<nat, int>, trie: map<nat, int>, pos: map<int, nat>, x: int, s: nat)
    requires TreesOk(left, right, parent, index, ring, anchor, trie, pos) && x !in ring
    requires left.At(x) == 0 && right.At(x) == 0 && parent.At(x) == 0 && index.At(x) == TreeIndex(s)
    ensures TreesOk(left, right, parent, index, ring[x := s], anchor, trie, pos)
  {
    hide TagsOk, TrieOk, NodesOk, TreeIndex;
    TagAdded(left, right, parent, index, ring, anchor, x, s);
    SlotsKept(ring, anchor, trie, pos, x, s);
  }

  lemma OutsideTags(left: Field, right: Field, parent: Field, index: Field,
                    left': Field, right': Field, parent': Field, index': Field, ring: map<int, nat>,
                    anchor: map<nat, int>, x: int)
    requires TagsOk(left, right, parent, index, ring, anchor) && x !in ring
    requires forall a :: a != x ==>
             left'.At(a) == left.At(a) && right'.At(a) == right.At(a) && parent'.At(a) == parent.At(a)
    requires forall a :: a != x ==> index'.At(a) == index.At(a)
    ensures TagsOk(left', right', parent', index', ring, anchor)
  {
    hide TreeIndex;
  }

  /** Tree fields that differ only at a chunk outside the bins are as good. */
  lemma OutsideTrees(left: Field, right: Field, parent: Field, index: Field, left': Field, right': Field,
                     parent': Field, index': Field,
                     ring: map<int, nat>, anchor: map<nat, int>, trie: map<nat, int>, pos: map<int, nat>, x: int)
    requires TreesOk(left, right, parent, index, ring, anchor, trie, pos) && x !in ring
    requires forall a :: a != x ==>
             left'.At(a) == left.At(a) && right'.At(a) == right.At(a) && parent'.At(a) == parent.At(a)
    requires forall a :: a != x ==> index'.At(a) == index.At(a)
    ensures TreesOk(left', right', parent', index', ring, anchor, trie, pos)
  {
    hide TagsOk, TrieOk, NodesOk;
    OutsideTags(left, right, parent, index, left', right', parent', index', ring, anchor, x);
    OutsideNodes(left, right, parent, left', right', parent', trie, pos, ring, anchor, x);
  }

  /** The node at a used slot is a chunk held, and the anchor of its size. */
  ghost predicate NodeFact(chunks: map<int, nat>, ring: map<int, nat>, anchor: map<nat, int>, trie: map<nat, int>,
                           k: nat) {
    k in trie && trie[k] > 0 && trie[k] in chunks && trie[k] in ring && ring[trie[k]] == chunks[trie[k]]
    && IsTreeSize(ring[trie[k]]) &&
    ring[trie[k]] in anchor && anchor[ring[trie[k]]] == trie[k]
  }

  lemma NodeFacts(chunks: map<int, nat>, ring: map<int, nat>, anchor: map<nat, int>, trie: map<nat, int>,
                  pos: map<int, nat>, k: nat)
    requires ChunksOk(ring, chunks) && TrieOk(trie, pos, ring, anchor) && k in trie
    ensures NodeFact(chunks, ring, anchor, trie, k) && pos[trie[k]] == k && k >= 32 && (k >= 64 ==> k / 2 in trie)
  {
    hide InSlot, FreeBits;
    assert SlotOk(trie, ring, anchor, k);
  }

  lemma NullIsFree(ring: map<int, nat>, anchor: map<nat, int>, trie: map<nat, int>, pos: map<int, nat>, k: nat)
    requires TrieOk(trie, pos, ring, anchor)
    ensures NodeAt(trie, k) == 0 <==> k !in trie
  {
  }

  lemma NodeLinks(left: Field, right: Field, parent: Field, trie: map<nat, int>, k: nat)
    requires NodesOk(left, right, parent, trie) && k in trie
    ensures left.At(trie[k]) == NodeAt(trie, 2 * k) && right.At(trie[k]) == NodeAt(trie, 2 * k + 1)
    ensures parent.At(trie[k]) == ParentAt(trie, k)
  {
    assert NodeOk(left, right, parent, trie, k);
  }

  lemma TreeMapKept(m: nat, trie: map<nat, int>, k: nat, x: int)
    requires TreeMapOk(m, trie) && k >= 64
    ensures TreeMapOk(m, trie[k := x]) && TreeMapOk(m, trie - {k})
  {
    hide Bit;
  }

  /** The anchor of a large size is a chunk, and so are its neighbours. */
  lemma AnchorFacts(fd: Field, bk: Field, chunks: map<int, nat>,
                    ring: map<int, nat>, anchor: map<nat, int>, rank: map<int, int>, clock: int, s: nat)
    requires ListsOk(fd, bk, chunks, ring, anchor, rank, clock) && s in anchor && s >= MIN_LARGE
    ensures anchor[s] in chunks && chunks[anchor[s]] == s && fd.At(anchor[s]) in chunks && chunks[fd.At(anchor[s])] == s
  {
    hide RanksOk;
    assert LinkedAt(fd, bk, ring, anchor[s]);
  }

  /** One more step down, from a slot under `top` to the child on side `side`. */
  lemma StepDown(ring: map<int, nat>, anchor: map<nat, int>, trie: map<nat, int>, pos: map<int, nat>, top: nat, k: nat,
                 side: nat)
    requires TrieOk(trie, pos, ring, anchor) && IsSlot(top) && IsSlot(k) && Under(k, top) && side <= 1
             && 2 * k + side in trie
    ensures Under(2 * k + side, top) && 2 * k + side != top && FreeBits(2 * k + side) == FreeBits(k) - 1
            && FreeBits(2 * k + side) >= 4
  {
    assert SlotOk(trie, ring, anchor, 2 * k + side);
    assert (2 * k + side) / 2 == k;
    UnderIsBelow(k, top);
  }

  lemma UnderItself(k: nat)
    requires IsSlot(k)
    ensures Under(k, k)
  {
  }

  lemma {:induction false} UnderIsBelow(k: nat, top: nat)
    requires IsSlot(top) && Under(k, top)
    ensures k >= top
  {
  }

  // ----- the whole invariant after a large chunk has gone

  lemma AnchorTaken(ring: map<int, nat>, anchor: map<nat, int>, x: int)
    requires MembersOk(ring, anchor) && x > 0 && x in ring && x == anchor[ring[x]] && ring[x] >= MIN_LARGE
    requires forall a | a in ring && ring[a] == ring[x] :: a == x
    ensures MembersOk(ring - {x}, anchor - {ring[x]})
  {
    hide IsChunkSize;
  }

  lemma AnchorTakenRings(fd: Field, bk: Field, ring: map<int, nat>, anchor: map<nat, int>, rank: map<int, int>, x: int)
    requires RingsOk(fd, bk, ring, anchor, rank) && x in ring
    requires forall a | a in ring && ring[a] == ring[x] :: a == x
    ensures RingsOk(fd, bk, ring - {x}, anchor - {ring[x]}, rank)
  {
    var ring', anchor' := ring - {x}, anchor - {ring[x]};
    forall a ensures LinkedAt(fd, bk, ring', a) {
      assert LinkedAt(fd, bk, ring, a);
    }
    forall a ensures OrderedAt(bk, ring', anchor', rank, a) {
      assert OrderedAt(bk, ring, anchor, rank, a);
    }
  }

  /** The last chunk of a large size leaves the lists. */
  lemma LargeClosed(fd: Field, bk: Field, chunks: map<int, nat>,
                    ring: map<int, nat>, anchor: map<nat, int>, rank: map<int, int>, clock: int, x: int)
    requires ListsOk(fd, bk, chunks, ring, anchor, rank, clock) && x in chunks && chunks[x] >= MIN_LARGE
             && bk.At(x) == x
    ensures ListsOk(fd, bk, chunks - {x}, ring - {x}, anchor - {chunks[x]}, rank, clock)
    ensures chunks[x] in anchor && x == anchor[chunks[x]]
  {
    LoneChunk(fd, bk, chunks, ring, anchor, rank, clock, x);
    hide RanksOk, RingsOk, MembersOk, OldestOk;
    OldestFewer(ring, anchor, rank, ring - {x}, anchor - {chunks[x]});
    ChunkTaken(ring, chunks, rank, clock, x);
    AnchorTaken(ring, anchor, x);
    AnchorTakenRings(fd, bk, ring, anchor, rank, x);
  }

  lemma LoneChunk(fd: Field, bk: Field, chunks: map<int, nat>,
                  ring: map<int, nat>, anchor: map<nat, int>, rank: map<int, int>, clock: int, x: int)
    requires ListsOk(fd, bk, chunks, ring, anchor, rank, clock) && x in chunks && chunks[x] >= MIN_LARGE
             && bk.At(x) == x
    ensures x in ring && ring[x] in anchor && x == anchor[ring[x]]
    ensures forall a | a in ring && ring[a] == ring[x] :: a == x
  {
    assert LinkedAt(fd, bk, ring, x) && OrderedAt(bk, ring, anchor, rank, x);
    forall a | a in ring && ring[a] == ring[x] ensures a == x {
      LoneAnchor(fd, bk, ring, anchor, rank, clock, a);
    }
  }

  /** A large chunk that leaves others of its size behind. */
  lemma LargeLeft(fd: Field, bk: Field, chunks: map<int, nat>,
                  ring: map<int, nat>, anchor: map<nat, int>, rank: map<int, int>, clock: int, x: int)
    requires ListsOk(fd, bk, chunks, ring, anchor, rank, clock) && x in chunks && chunks[x] >= MIN_LARGE
             && bk.At(x) != x
    ensures x in ring && ring[x] == chunks[x] && ring[x] in anchor
    ensures ListsOk(fd.Set(bk.At(x), fd.At(x)), bk.Set(fd.At(x), bk.At(x)), chunks - {x}, ring - {x},
                    Heir(fd, bk, ring, anchor, x), rank, clock)
    ensures LinkedAt(fd, bk, ring, x) && fd.At(x) in chunks && chunks[fd.At(x)] == chunks[x] && bk.At(x) in chunks
            && chunks[bk.At(x)] == chunks[x]
  {
    assert LinkedAt(fd, bk, ring, x);
    hide RanksOk, RingsOk, Field.Set, Field.At, Heir, OldestOk;
    OldestHeir(fd, bk, ring, anchor, rank, clock, x);
    ChunkTaken(ring, chunks, rank, clock, x);
    LeftMembers(fd, bk, ring, anchor, x);
    LeftRings(fd, bk, ring, anchor, rank, x);
  }

  /** `a` is no node of the forest. */
  ghost predicate NotNode(trie: map<nat, int>, a: int) {
    forall k | k in trie :: trie[k] != a
  }

  /** The tree links differ only at nodes of the forest and at `r`. */
  ghost predicate OnlyNodes(left: Field, right: Field, parent: Field, left': Field, right': Field, parent': Field,
                            trie: map<nat, int>, r: int) {
    forall a :: a != r && NotNode(trie, a) ==>
      left'.At(a) == left.At(a) && right'.At(a) == right.At(a) && parent'.At(a) == parent.At(a)
  }

  lemma NodesAreAnchors(trie: map<nat, int>, pos: map<int, nat>, ring: map<int, nat>, anchor: map<nat, int>, a: int)
    requires TrieOk(trie, pos, ring, anchor) && a in ring && ring[a] in anchor && a != anchor[ring[a]]
    ensures NotNode(trie, a)
  {
    hide InSlot, FreeBits;
    forall k | k in trie ensures trie[k] != a {
      assert SlotOk(trie, ring, anchor, k);
    }
  }

  /** Every remaining member was there before, and one beside its anchor was beside it before and is not `r`. */
  ghost predicate Fewer(ring: map<int, nat>, anchor: map<nat, int>, ring': map<int, nat>, anchor': map<nat, int>,
                        r: int) {
    && (forall a | a in ring' :: a in ring && ring'[a] == ring[a])
    && (forall a | a in ring' && ring'[a] in anchor' && a != anchor'[ring'[a]] ::
       ring'[a] in anchor && a != anchor[ring'[a]] && a != r)
  }

  lemma TagsKept(left: Field, right: Field, parent: Field, index: Field, left': Field, right': Field, parent': Field,
                 trie: map<nat, int>, pos: map<int, nat>, ring: map<int, nat>, anchor: map<nat, int>,
                 ring': map<int, nat>, anchor': map<nat, int>, r: int)
    requires TagsOk(left, right, parent, index, ring, anchor) && TrieOk(trie, pos, ring, anchor)
    requires OnlyNodes(left, right, parent, left', right', parent', trie, r)
    requires Fewer(ring, anchor, ring', anchor', r)
    ensures TagsOk(left', right', parent', index, ring', anchor')
  {
    hide TreeIndex, TrieOk, NotNode;
    forall a | a in ring' && ring'[a] >= MIN_LARGE && ring'[a] in anchor' && a != anchor'[ring'[a]]
      ensures left'.At(a) == 0 && right'.At(a) == 0 && parent'.At(a) == 0
    {
      NodesAreAnchors(trie, pos, ring, anchor, a);
      assert left.At(a) == 0;
    }
  }

  /** A chunk beside the tree node has gone. */
  lemma TreeOther(left: Field, right: Field, parent: Field, index: Field,
                  ring: map<int, nat>, anchor: map<nat, int>, trie: map<nat, int>, pos: map<int, nat>, x: int)
    requires TreesOk(left, right, parent, index, ring, anchor, trie, pos) && MembersOk(ring, anchor) && x in ring
             && x != anchor[ring[x]]
    ensures TreesOk(left, right, parent, index, ring - {x}, anchor, trie, pos)
  {
    hide TrieOk, NodesOk, TreeIndex;
    OtherChunkGone(trie, pos, ring, anchor, x);
  }

  lemma AdoptedOnly(left: Field, right: Field, parent: Field, trie: map<nat, int>, r: int, k: nat)
    requires NodesOk(left, right, parent, trie) && k in trie && (k >= 64 ==> k / 2 in trie)
    ensures var c0, c1 := left.At(trie[k]), right.At(trie[k]);
            OnlyNodes(left, right, parent, SetUnlessNull(LeftTo(left, trie, k, r), c0, r, c0),
                      SetUnlessNull(RightTo(right, trie, k, r), c1, r, c1),
                      SetUnlessNull(SetUnlessNull(parent.Set(r, ParentAt(trie, k)), c0, c0, r), c1, c1, r), trie, r)
  {
    hide Field.Set, Field.At;
    NodeLinks(left, right, parent, trie, k);
  }

  /** The heir of the tree node `x` is fit to stand in its place. */
  lemma HeirFacts(fd: Field, bk: Field, left: Field, right: Field, parent: Field, index: Field,
                  ring: map<int, nat>, anchor: map<nat, int>, trie: map<nat, int>, pos: map<int, nat>, x: int)
    requires TagsOk(left, right, parent, index, ring, anchor) && TrieOk(trie, pos, ring, anchor)
             && MembersOk(ring, anchor)
    requires x > 0 && x in ring && x == anchor[ring[x]] && ring[x] >= MIN_LARGE && LinkedAt(fd, bk, ring, x)
             && bk.At(x) != x
    ensures x in pos && pos[x] in trie && trie[pos[x]] == x && pos[x] >= 32 && (pos[x] >= 64 ==> pos[x] / 2 in trie)
    ensures bk.At(x) > 0 && MayStand(trie, pos, bk.At(x), pos[x]) && left.At(bk.At(x)) == 0 && right.At(bk.At(x)) == 0
    ensures Fewer(ring, anchor, ring - {x}, anchor[ring[x] := bk.At(x)], bk.At(x))
  {
    hide InSlot, FreeBits, TreeIndex;
    assert SlotOk(trie, ring, anchor, pos[x]);
    NodesAreAnchors(trie, pos, ring, anchor, bk.At(x));
  }

  /** The tree node has gone and its heir stands in its place. */
  lemma TreeHeir(fd: Field, bk: Field, left: Field, right: Field, parent: Field, index: Field,
                 ring: map<int, nat>, anchor: map<nat, int>, trie: map<nat, int>, pos: map<int, nat>, x: int, r: int,
                 k: nat)
    requires TreesOk(left, right, parent, index, ring, anchor, trie, pos) && MembersOk(ring, anchor)
    requires x > 0 && x in ring && x == anchor[ring[x]] && ring[x] >= MIN_LARGE && r == bk.At(x) != x
             && LinkedAt(fd, bk, ring, x)
    requires x in pos && k == pos[x]
    ensures k in trie && trie[k] == x
    ensures var c0, c1 := left.At(x), right.At(x);
            TreesOk(SetUnlessNull(LeftTo(left, trie, k, r), c0, r, c0),
                    SetUnlessNull(RightTo(right, trie, k, r), c1, r, c1),
                    SetUnlessNull(SetUnlessNull(parent.Set(r, ParentAt(trie, k)), c0, c0, r), c1, c1, r), index,
                    ring - {x}, anchor[ring[x] := r], trie[k := r], pos[r := k])
  {
    hide InSlot, FreeBits, Field.Set, Field.At, LeftTo, RightTo, ParentAt, SetUnlessNull, NodesOk, TagsOk, TrieOk,
         TreeIndex, OnlyNodes, Fewer;
    HeirFacts(fd, bk, left, right, parent, index, ring, anchor, trie, pos, x);
    InheritedTrie(fd, bk, trie, pos, ring, anchor, x);
    ReplacedNodes(left, right, parent, trie, pos, r, k);
    AdoptedOnly(left, right, parent, trie, r, k);
    var c0, c1 := left.At(x), right.At(x);
    TagsKept(left, right, parent, index, SetUnlessNull(LeftTo(left, trie, k, r), c0, r, c0),
             SetUnlessNull(RightTo(right, trie, k, r), c1, r, c1),
             SetUnlessNull(SetUnlessNull(parent.Set(r, ParentAt(trie, k)), c0, c0, r), c1, c1, r),
             trie, pos, ring, anchor, ring - {x}, anchor[ring[x] := r], r);
  }

  lemma RedirectedOnly(left: Field, right: Field, parent: Field, trie: map<nat, int>, k: nat, v: int, r: int)
    requires k >= 64 ==> k / 2 in trie
    ensures OnlyNodes(left, right, parent, LeftTo(left, trie, k, v), RightTo(right, trie, k, v), parent, trie, r)
  {
    hide Field.Set, Field.At;
  }

  lemma OnlyNodesTrans(left: Field, right: Field, parent: Field, left': Field, right': Field, parent': Field,
                       left'': Field, right'': Field, parent'': Field, trie: map<nat, int>, trie': map<nat, int>,
                       r: int)
    requires OnlyNodes(left, right, parent, left', right', parent', trie, r)
    requires OnlyNodes(left', right', parent', left'', right'', parent'', trie', r)
    requires forall k | k in trie' :: k in trie && trie'[k] == trie[k]
    ensures OnlyNodes(left, right, parent, left'', right'', parent'', trie, r)
  {
    hide NotNode;
    forall a | NotNode(trie, a) ensures NotNode(trie', a) {
      FewerNodes(trie, trie', a);
    }
  }

  lemma FewerNodes(trie: map<nat, int>, trie': map<nat, int>, a: int)
    requires NotNode(trie, a) && forall k | k in trie' :: k in trie && trie'[k] == trie[k]
    ensures NotNode(trie', a)
  {
  }

  lemma LoneFewer(ring: map<int, nat>, anchor: map<nat, int>, x: int, r: int)
    requires MembersOk(ring, anchor) && x in ring && (r == 0 || (r in ring && r == anchor[ring[r]]))
    requires forall a | a in ring && ring[a] == ring[x] :: a == x
    ensures Fewer(ring, anchor, ring - {x}, anchor - {ring[x]}, r)
  {
    hide IsChunkSize;
  }

  /** The tree node was a leaf and its size has gone. */
  lemma TreeLeafGone(left: Field, right: Field, parent: Field, index: Field,
                     ring: map<int, nat>, anchor: map<nat, int>, trie: map<nat, int>, pos: map<int, nat>, x: int,
                     k: nat)
    requires TreesOk(left, right, parent, index, ring, anchor, trie, pos) && MembersOk(ring, anchor)
    requires x > 0 && x in ring && x == anchor[ring[x]] && ring[x] >= MIN_LARGE && x in pos && k == pos[x]
             && IsLeaf(trie, k)
    requires (k >= 64 ==> k / 2 in trie) && forall a | a in ring && ring[a] == ring[x] :: a == x
    ensures TreesOk(LeftTo(left, trie, k, 0), RightTo(right, trie, k, 0), parent, index, ring - {x}, anchor - {ring[x]},
                    trie - {k}, pos)
  {
    LoneFewer(ring, anchor, x, 0);
    assert PosOk(trie, pos);
    hide InSlot, FreeBits, Field.Set, Field.At, LeftTo, RightTo, NodesOk, TagsOk, TrieOk, TreeIndex, OnlyNodes, Fewer,
         PosOk;
    LeafGone(trie, pos, ring, anchor, x);
    UnhookedNodes(left, right, parent, trie, pos, k);
    RedirectedOnly(left, right, parent, trie, k, 0, 0);
    TagsKept(left, right, parent, index, LeftTo(left, trie, k, 0), RightTo(right, trie, k, 0), parent,
             trie, pos, ring, anchor, ring - {x}, anchor - {ring[x]}, 0);
  }

  /** The leaf at slot `k` is fit to move up to slot `kx`, once it has been unhooked. */
  lemma LeafFacts(left: Field, right: Field, parent: Field, ring: map<int, nat>, anchor: map<nat, int>,
                  trie: map<nat, int>, pos: map<int, nat>,
                  x: int, kx: nat, k: nat)
    requires NodesOk(left, right, parent, trie) && TrieOk(trie, pos, ring, anchor)
    requires kx in trie && trie[kx] == x && IsSlot(kx) && IsLeaf(trie, k) && Under(k, kx) && k != kx
    ensures k in trie && k >= 64 && k / 2 in trie && PosOk(trie, pos) && PosOk(trie - {k}, pos) && trie[k] > 0
    ensures MayStand(trie - {k}, pos, trie[k], kx) && kx in trie - {k} && (kx >= 64 ==> kx / 2 in trie - {k})
    ensures LeftTo(left, trie, k, 0).At(trie[k]) == 0 && RightTo(right, trie, k, 0).At(trie[k]) == 0
    ensures trie[k] in ring && ring[trie[k]] in anchor && trie[k] == anchor[ring[trie[k]]]
    ensures ParentAt(trie - {k}, kx) == ParentAt(trie, kx)
  {
    hide InSlot, FreeBits, Field.Set, Field.At;
    assert SlotOk(trie, ring, anchor, k) && SlotOk(trie, ring, anchor, kx);
    NodeLinks(left, right, parent, trie, k);
    UnderParent(k, kx);
    if kx >= 64 && kx / 2 == k {
      UnderIsBelow(k, kx);
    }
  }

  lemma UnderParent(k: nat, top: nat)
    requires IsSlot(top) && IsSlot(k) && Under(k, top) && k != top
    ensures k >= 64
  {
    if k < 64 {
      RootIsTop(k, top);
    }
  }

  /** A leaf from below stands in the place of the tree node, whose size has gone. */
  lemma TreeLeafMoved(left: Field, right: Field, parent: Field, index: Field,
                      ring: map<int, nat>, anchor: map<nat, int>, trie: map<nat, int>, pos: map<int, nat>, x: int,
                      kx: nat, k: nat,
                      left': Field, right': Field, c0: int, c1: int, r: int)
    requires TreesOk(left, right, parent, index, ring, anchor, trie, pos) && MembersOk(ring, anchor)
    requires x > 0 && x in ring && x == anchor[ring[x]] && ring[x] >= MIN_LARGE && x in pos && kx == pos[x]
             && kx in trie && trie[kx] == x
    requires IsSlot(kx) && IsLeaf(trie, k) && Under(k, kx) && k != kx && r == trie[k]
    requires forall a | a in ring && ring[a] == ring[x] :: a == x
    requires left' == LeftTo(left, trie, k, 0) && right' == RightTo(right, trie, k, 0) && c0 == left'.At(x)
             && c1 == right'.At(x)
    ensures NodesOk(left', right', parent, trie - {k})
    ensures TreesOk(SetUnlessNull(LeftTo(left', trie - {k}, kx, r), c0, r, c0),
                    SetUnlessNull(RightTo(right', trie - {k}, kx, r), c1, r, c1),
                    SetUnlessNull(SetUnlessNull(parent.Set(r, ParentAt(trie - {k}, kx)), c0, c0, r), c1, c1, r), index,
                    ring - {x}, anchor - {ring[x]}, (trie - {k})[kx := r], pos[r := kx])
  {
    hide InSlot, FreeBits, Field.Set, Field.At, LeftTo, RightTo, ParentAt, SetUnlessNull, NodesOk, TagsOk, TrieOk,
         TreeIndex, OnlyNodes, Fewer,
      PosOk, MembersOk, Under, MayStand;
    var trie1 := trie - {k};
    LeafFacts(left, right, parent, ring, anchor, trie, pos, x, kx, k);
    LoneFewer(ring, anchor, x, r);
    LeafMovedUp(trie, pos, ring, anchor, x, k);
    UnhookedNodes(left, right, parent, trie, pos, k);
    ReplacedNodes(left', right', parent, trie1, pos, r, kx);
    RedirectedOnly(left, right, parent, trie, k, 0, r);
    AdoptedOnly(left', right', parent, trie1, r, kx);
    var left2, right2 := SetUnlessNull(LeftTo(left', trie1, kx, r), c0, r, c0),
    SetUnlessNull(RightTo(right', trie1, kx, r), c1, r, c1);
    var parent2 := SetUnlessNull(SetUnlessNull(parent.Set(r, ParentAt(trie1, kx)), c0, c0, r), c1, c1, r);
    OnlyNodesTrans(left, right, parent, left', right', parent, left2, right2, parent2, trie, trie1, r);
    TagsKept(left, right, parent, index, left2, right2, parent2, trie, pos, ring, anchor, ring - {x},
             anchor - {ring[x]}, r);
  }

  /** A child of a node, if there is one, is a held chunk that points back to it. */
  lemma ChildLinks(left: Field, right: Field, parent: Field, chunks: map<int, nat>, ring: map<int, nat>,
                   anchor: map<nat, int>, trie: map<nat, int>, pos: map<int, nat>, k: nat, side: nat)
    requires ChunksOk(ring, chunks) && TrieOk(trie, pos, ring, anchor) && NodesOk(left, right, parent, trie)
             && k in trie && k >= 32 && side <= 1
    ensures var c := NodeAt(trie, 2 * k + side); c != 0 ==> c in chunks && parent.At(c) == trie[k]
  {
    hide ChunksOk, TrieOk, NodesOk, Field.At;
    if 2 * k + side in trie {
      NodeFacts(chunks, ring, anchor, trie, pos, 2 * k + side);
      NodeLinks(left, right, parent, trie, 2 * k + side);
    }
  }

  /** What is known about a large chunk before it is unlinked. */
  lemma BeforeUnlink(fd: Field, bk: Field, left: Field, right: Field, parent: Field, index: Field,
                     chunks: map<int, nat>,
                     ring: map<int, nat>, anchor: map<nat, int>, rank: map<int, int>, clock: int, trie: map<nat, int>,
                     pos: map<int, nat>, x: int)
    requires ListsOk(fd, bk, chunks, ring, anchor, rank, clock)
             && TreesOk(left, right, parent, index, ring, anchor, trie, pos)
    requires x in chunks && chunks[x] >= MIN_LARGE
    ensures x in ring && ring[x] == chunks[x] && ring[x] in anchor && 0 <= index.At(x) < NBINS
            && index.At(x) == TreeIndex(ring[x])
    ensures parent.At(x) == 0 <==> x != anchor[ring[x]]
    ensures x == anchor[ring[x]] ==>
              x in pos && pos[x] in trie && trie[pos[x]] == x && pos[x] >= 32
              && (pos[x] >= 64 ==> pos[x] / 2 in trie) &&
              parent.At(x) == ParentAt(trie, pos[x]) && (pos[x] < 64 ==> index.At(x) == pos[x] - 32)
  {
    hide RanksOk, RingsOk, NodesOk, FreeBits, TreeIndex;
    assert left.At(x) == left.At(x);
    LastBin(ring[x]);
    if x == anchor[ring[x]] {
      assert SlotOk(trie, ring, anchor, pos[x]);
      NodeLinks(left, right, parent, trie, pos[x]);
      if pos[x] >= 64 {
        assert SlotOk(trie, ring, anchor, pos[x] / 2);
      }
    }
  }

  /** Nodes are large chunks. */
  lemma NodesHeld(chunks: map<int, nat>, ring: map<int, nat>, anchor: map<nat, int>, trie: map<nat, int>,
                  pos: map<int, nat>)
    requires ChunksOk(ring, chunks) && TrieOk(trie, pos, ring, anchor)
    ensures PosOk(trie, pos) && forall j | j in trie :: trie[j] in chunks && chunks[trie[j]] >= MIN_LARGE
  {
    forall j | j in trie ensures trie[j] in chunks && chunks[trie[j]] >= MIN_LARGE {
      NodeFacts(chunks, ring, anchor, trie, pos, j);
    }
  }

  /** The children of a node are null or other nodes. */
  lemma ChildrenHeld(left: Field, right: Field, parent: Field, chunks: map<int, nat>, trie: map<nat, int>,
                     pos: map<int, nat>, r: int, k: nat)
    requires NodesOk(left, right, parent, trie) && MayStand(trie, pos, r, k) && k in trie
    requires forall j | j in trie :: trie[j] in chunks && chunks[trie[j]] >= MIN_LARGE
    ensures r != trie[k] && left.At(trie[k]) != r && right.At(trie[k]) != r
    ensures left.At(trie[k]) != 0 ==> left.At(trie[k]) in chunks && chunks[left.At(trie[k])] >= MIN_LARGE
    ensures right.At(trie[k]) != 0 ==> right.At(trie[k]) in chunks && chunks[right.At(trie[k])] >= MIN_LARGE
  {
    NodeLinks(left, right, parent, trie, k);
  }

  /** `r`, which is no node, can take the place of the node `x` at slot `k`. */
  ghost predicate FitToTake(left: Field, right: Field, parent: Field, index: Field, held: map<int, nat>,
                            trie: map<nat, int>, pos: map<int, nat>, x: int, xp: int, r: int, k: nat) {
    && NodesOk(left, right, parent, trie) && PosOk(trie, pos) && SizesOk(held)
    && k in trie && trie[k] == x && (k >= 64 ==> k / 2 in trie) && xp == ParentAt(trie, k)
    && MayStand(trie, pos, r, k) && r != 0 && r in held && held[r] >= MIN_LARGE
    && 0 <= index.At(x) < NBINS && (k < 64 ==> index.At(x) == k - 32)
    && (forall j | j in trie :: trie[j] in held && held[trie[j]] >= MIN_LARGE)
  }

  /** All that is known before the predecessor of a tree node takes its place. */
  lemma HeirReady(fd: Field, bk: Field, left: Field, right: Field, parent: Field, index: Field, chunks: map<int, nat>,
                  ring: map<int, nat>, anchor: map<nat, int>, rank: map<int, int>, clock: int, trie: map<nat, int>,
                  pos: map<int, nat>, x: int, r: int)
    requires ListsOk(fd, bk, chunks, ring, anchor, rank, clock)
             && TreesOk(left, right, parent, index, ring, anchor, trie, pos)
    requires x in chunks && chunks[x] >= MIN_LARGE && parent.At(x) != 0 && r == bk.At(x) != x
    ensures x in ring && x in pos && ring[x] >= MIN_LARGE && fd.At(x) in chunks && r in chunks
    ensures FitToTake(left, right, parent, index, chunks, trie, pos, x, parent.At(x), r, pos[x])
    ensures ListsOk(fd.Set(r, fd.At(x)), bk.Set(fd.At(x), r), chunks - {x}, ring - {x}, anchor[ring[x] := r], rank,
                    clock)
    ensures var c0, c1, k := left.At(x), right.At(x), pos[x];
            TreesOk(SetUnlessNull(LeftTo(left, trie, k, r), c0, r, c0),
                    SetUnlessNull(RightTo(right, trie, k, r), c1, r, c1),
                    SetUnlessNull(SetUnlessNull(parent.Set(r, parent.At(x)), c0, c0, r), c1, c1, r), index,
                    ring - {x}, anchor[ring[x] := r], trie[k := r], pos[r := k])
  {
    hide ListsOk, TreesOk, ChunksOk, MembersOk, RanksOk, RingsOk, TagsOk, TrieOk, NodesOk, TreeIndex, Field.Set,
         Field.At, SizesOk, LeftTo, RightTo,
      ParentAt, SetUnlessNull, PosOk, MayStand, Fewer;
    Parts(fd, bk, left, right, parent, index, chunks, ring, anchor, rank, clock, trie, pos, x);
    BeforeUnlink(fd, bk, left, right, parent, index, chunks, ring, anchor, rank, clock, trie, pos, x);
    HeldSizes(fd, bk, chunks, ring, anchor, rank, clock);
    NodesHeld(chunks, ring, anchor, trie, pos);
    LargeLeft(fd, bk, chunks, ring, anchor, rank, clock, x);
    HeirFacts(fd, bk, left, right, parent, index, ring, anchor, trie, pos, x);
    TreeHeir(fd, bk, left, right, parent, index, ring, anchor, trie, pos, x, r, pos[x]);
  }

  lemma SlotThere(left: Field, right: Field, parent: Field, index: Field, held: map<int, nat>,
                  trie: map<nat, int>, pos: map<int, nat>, x: int, xp: int, r: int, k: nat)
    requires FitToTake(left, right, parent, index, held, trie, pos, x, xp, r, k)
    ensures k in trie && k >= 32 && r > 0 && (k >= 64 ==> k / 2 in trie)
  {
    hide NodesOk, PosOk, SizesOk;
  }

  /** All that is known before a leaf, already unhooked, takes the place of a node above it. */
  lemma LeafReady(fd: Field, bk: Field, left0: Field, right0: Field, left: Field, right: Field, parent: Field,
                  index: Field, chunks: map<int, nat>,
                  ring: map<int, nat>, anchor: map<nat, int>, rank: map<int, int>, clock: int, trie: map<nat, int>,
                  pos: map<int, nat>,
                  x: int, r: int, kx: nat, k: nat)
    requires ListsOk(fd, bk, chunks, ring, anchor, rank, clock)
             && TreesOk(left0, right0, parent, index, ring, anchor, trie, pos)
    requires x in chunks && chunks[x] >= MIN_LARGE && bk.At(x) == x
    requires x in pos && kx == pos[x] && IsSlot(kx) && IsLeaf(trie, k) && Under(k, kx) && k != kx && trie[k] == r
    requires left == LeftTo(left0, trie, k, 0) && right == RightTo(right0, trie, k, 0)
    ensures x in ring && ring[x] >= MIN_LARGE && k >= 64
    ensures FitToTake(left, right, parent, index, chunks, trie - {k}, pos, x, parent.At(x), r, kx)
    ensures ListsOk(fd, bk, chunks - {x}, ring - {x}, anchor - {ring[x]}, rank, clock)
    ensures var c0, c1, trie1 := left.At(x), right.At(x), trie - {k};
            TreesOk(SetUnlessNull(LeftTo(left, trie1, kx, r), c0, r, c0),
                    SetUnlessNull(RightTo(right, trie1, kx, r), c1, r, c1),
                    SetUnlessNull(SetUnlessNull(parent.Set(r, parent.At(x)), c0, c0, r), c1, c1, r), index,
                    ring - {x}, anchor - {ring[x]}, trie1[kx := r], pos[r := kx])
  {
    hide ListsOk, TreesOk, ChunksOk, MembersOk, RanksOk, RingsOk, TagsOk, TrieOk, NodesOk, TreeIndex, Field.Set,
         Field.At, SizesOk, LeftTo, RightTo,
      ParentAt, SetUnlessNull, PosOk, MayStand, IsLeaf, Under;
    Parts(fd, bk, left0, right0, parent, index, chunks, ring, anchor, rank, clock, trie, pos, x);
    BeforeUnlink(fd, bk, left0, right0, parent, index, chunks, ring, anchor, rank, clock, trie, pos, x);
    LoneChunk(fd, bk, chunks, ring, anchor, rank, clock, x);
    LargeClosed(fd, bk, chunks, ring, anchor, rank, clock, x);
    NodesHeld(chunks, ring, anchor, trie, pos);
    HeldSizes(fd, bk, chunks, ring, anchor, rank, clock);
    LeafFacts(left0, right0, parent, ring, anchor, trie, pos, x, kx, k);
    TreeLeafMoved(left0, right0, parent, index, ring, anchor, trie, pos, x, kx, k, left, right, left.At(x), right.At(x),
                  r);
  }

  lemma RedirectKeeps(left: Field, right: Field, trie: map<nat, int>, pos: map<int, nat>, k: nat, v: int)
    requires PosOk(trie, pos) && k in trie && (k >= 64 ==> k / 2 in trie)
    ensures LeftTo(left, trie, k, v).At(trie[k]) == left.At(trie[k]) && RightTo(right, trie, k, v).At(trie[k])
            == right.At(trie[k])
  {
    hide Field.Set, Field.At;
  }

  /** Writing the links of a chunk outside the bins spoils none. */
  lemma LinksElsewhere(d: Bytes, d': Bytes, chunks: map<int, nat>, ring: map<int, nat>, x: int, s: nat)
    requires LinksWhole(d, chunks, ring) && OnlyFreeBytes(d, d', chunks[x := s]) && x !in chunks
    ensures LinksWhole(d', chunks, ring)
  {
    hide HasWord;
    forall y, w | MayLink(chunks, y, w) && (y < 0 ==> y in ring) ensures HasWord(d', y, w) {
      assert HasWord(d, y, w) && MayLink(chunks[x := s], y, w);
    }
  }

  lemma HeaderMayLink(i: nat, chunks: map<int, nat>)
    ensures MayLink(chunks, Header(i), FdW) && MayLink(chunks, Header(i), BkW)
  {
  }

  /** The words of a tree chunk that `insert_large_chunk` sets first. */
  ghost predicate TreeWords(d: Bytes, x: int) {
    HasWord(d, x, LeftW) && HasWord(d, x, RightW) && HasWord(d, x, IndexW)
  }

  lemma TreeWordsKept(d: Bytes, d': Bytes, chunks: map<int, nat>, x: int)
    requires OnlyFreeBytes(d, d', chunks) && TreeWords(d, x) && x > 0 && x in chunks && chunks[x] >= MIN_LARGE
    ensures TreeWords(d', x)
  {
    hide HasWord;
    assert MayLink(chunks, x, LeftW) && MayLink(chunks, x, RightW) && MayLink(chunks, x, IndexW);
  }

  lemma JoinedWords(d: Bytes, d': Bytes, chunks: map<int, nat>, x: int)
    requires OnlyFreeBytes(d, d', chunks) && HasWord(d, x, FdW) && HasWord(d, x, BkW) && x in chunks
    ensures HasWord(d', x, FdW) && HasWord(d', x, BkW)
  {
    hide HasWord;
    assert MayLink(chunks, x, FdW) && MayLink(chunks, x, BkW);
  }

  /** Three words of the same chunk written. */
  lemma ThreeLinksWritten(d: Bytes, chunks: map<int, nat>, x: int, w0: Role, v0: int, w1: Role, v1: int, w2: Role,
                          v2: int)
    requires Spaced(chunks) && SizesOk(chunks) && MayLink(chunks, x, w0) && MayLink(chunks, x, w1)
             && MayLink(chunks, x, w2)
    ensures var d' := d.SetWord(x + OffsetOf(w0), w0, v0).SetWord(x + OffsetOf(w1), w1, v1).SetWord(x + OffsetOf(w2),
            w2, v2);
            OnlyFreeBytes(d, d', chunks) && HasWord(d', x, w0) && HasWord(d', x, w1) && HasWord(d', x, w2)
  {
    hide HasWord, MayLink, SizesOk, Spaced, Bytes.SetWord, OffsetOf;
    var d1 := d.SetWord(x + OffsetOf(w0), w0, v0);
    LinkWritten(d, chunks, x, w0, v0);
    TwoLinksWritten(d1, chunks, x, w1, v1, x, w2, v2);
    BytesTrans(d, d1, d1.SetWord(x + OffsetOf(w1), w1, v1).SetWord(x + OffsetOf(w2), w2, v2), chunks);
  }

  class Bins {
    const mem: Memory
    var smallmap: nat
    var treemap: nat
    var treebins: seq<int>

    /** What the bins hold: each chunk with its size. */
    ghost var chunks: map<int, nat>

    /** How the link fields hold it. */
    ghost var net: Net

    ghost predicate Valid()
      reads this, mem`fd, mem`bk, mem`left, mem`right, mem`parent, mem`index
    {
      && ListsOk(mem.fd, mem.bk, chunks, net.ring, net.anchor, net.rank, net.clock)
      && TreesOk(mem.left, mem.right, mem.parent, mem.index, net.ring, net.anchor, net.trie, net.pos)
      && RootsOk(treebins, net.trie) && SmallMapOk(smallmap, net.anchor) && TreeMapOk(treemap, net.trie)
    }

    /** The links lie in whole words of memory, which hold what the fields say. */
    ghost predicate Linked()
      reads this, mem
    {
      mem.Coherent() && Spaced(chunks) && LinksWhole(mem.data, chunks, net.ring)
    }

    /** The head words of binned chunks hold their sizes. */
    ghost predicate HeadsAgree()
      reads this, mem`head
    {
      forall p | p in chunks :: mem.head.At(p).size == chunks[p]
    }

    /** `init_bins` and the zeroed record it runs on: nothing is held. */
    constructor (m: Memory)
      requires m.Coherent()
      ensures Valid() && Linked() && mem == m && chunks == map[]
    {
      mem := m;
      smallmap, treemap := 0, 0;
      treebins := seq(NBINS, i => 0);
      chunks, net := map[], Net(map[], map[], map[], 0, map[], map[]);
      new;
      forall i: nat ensures !Bit(0, i) {
        ZeroBit(i);
      }
    }

    /** `smallmap_is_marked`. */
    method SmallmapIsMarked(i: nat) returns (b: bool)
      requires SmallMapOk(smallmap, net.anchor) && i < NBINS
      ensures b == (8 * i in net.anchor)
    {
      b := Bit(smallmap, i);
    }

    /** `mark_smallmap`. */
    method MarkSmallmap(i: nat, ghost h: int)
      requires SmallMapOk(smallmap, net.anchor) && i < NBINS
      modifies this`smallmap
      ensures SmallMapOk(smallmap, net.anchor[8 * i := h])
    {
      MarkKeeps(NBINS, smallmap, i);
      smallmap := Mark(smallmap, i);
    }

    /** `clear_smallmap`. */
    method ClearSmallmap(i: nat)
      requires SmallMapOk(smallmap, net.anchor) && i < NBINS
      modifies this`smallmap
      ensures SmallMapOk(smallmap, net.anchor - {8 * i})
    {
      ClearKeeps(NBINS, smallmap, i);
      smallmap := Clear(NBINS, smallmap, i);
    }

    /** `insert_small_chunk`. */
    method InsertSmall(p: int, s: nat)
      requires Valid() && Linked() && p > 0 && p !in chunks && Spaced(chunks[p := s]) && IsChunkSize(s) && IsSmall(s)
      modifies this, mem`fd, mem`bk, mem`data
      ensures Valid() && Linked() && chunks == old(chunks)[p := s]
      ensures OnlyFreeBytes(old(mem.data), mem.data, chunks)
      ensures CameLast(old(net), net, p)
    {
      hide ListsOk, TreesOk, LinksWhole, Spaced, CoherentWith, HasWord, Bytes.SetWord, OffsetOf, RootsOk, TreeMapOk;
      var marked := SmallmapIsMarked(SmallIndex(s));
      if !marked {
        InsertIntoEmpty(p, s);
      } else {
        InsertBehindHeader(p, s);
      }
    }

    method InsertIntoEmpty(p: int, s: nat)
      requires Valid() && Linked() && p > 0 && p !in chunks && Spaced(chunks[p := s]) && IsChunkSize(s) && IsSmall(s)
               && s !in net.anchor
      modifies this, mem`fd, mem`bk, mem`data
      ensures Valid() && Linked() && chunks == old(chunks)[p := s]
      ensures OnlyFreeBytes(old(mem.data), mem.data, chunks)
      ensures CameLast(old(net), net, p)
    {
      hide ListsOk, TreesOk, LinksWhole, Spaced, CoherentWith, HasWord, Bytes.SetWord, OffsetOf, RootsOk, SmallMapOk,
           TreeMapOk, SameLarge, Field.Set, Field.At, SizesOk, OnlyFreeBytes;
      var b := Header(SmallIndex(s));
      ghost var ring', anchor', rank' := net.ring[b := s][p := s], net.anchor[s := b],
      net.rank[b := net.clock][p := net.clock];
      HeldSizes(mem.fd, mem.bk, chunks, net.ring, net.anchor, net.rank, net.clock);
      SmallOpened(mem.fd, mem.bk, chunks, net.ring, net.anchor, net.rank, net.clock, b, p, s);
      SameLargeTrees(mem.left, mem.right, mem.parent, mem.index, net.trie, net.pos, net.ring, net.anchor, ring',
                     anchor');
      SizeAdded(chunks, p, s);
      HeaderMayLink(s / 8, chunks[p := s]);
      MarkSmallmap(SmallIndex(s), b);
      ghost var d := mem.data;
      LinkBehind(b, b, p, chunks[p := s]);
      LinksMore(d, mem.data, chunks, net.ring, p, s, ring');
      chunks, net := chunks[p := s], Net(ring', anchor', rank', net.clock + 1, net.trie, net.pos);
    }

    method InsertBehindHeader(p: int, s: nat)
      requires Valid() && Linked() && p > 0 && p !in chunks && Spaced(chunks[p := s]) && IsChunkSize(s) && IsSmall(s)
               && s in net.anchor
      modifies this, mem`fd, mem`bk, mem`data
      ensures Valid() && Linked() && chunks == old(chunks)[p := s]
      ensures OnlyFreeBytes(old(mem.data), mem.data, chunks)
      ensures CameLast(old(net), net, p)
    {
      hide ListsOk, TreesOk, LinksWhole, Spaced, CoherentWith, HasWord, Bytes.SetWord, OffsetOf, RootsOk, SmallMapOk,
           TreeMapOk, SameLarge, Field.Set, Field.At;
      var b := Header(SmallIndex(s));
      HeldSizes(mem.fd, mem.bk, chunks, net.ring, net.anchor, net.rank, net.clock);
      HeaderLinks(mem.fd, mem.bk, chunks, net.ring, net.anchor, net.rank, net.clock, s);
      SmallJoined(mem.fd, mem.bk, chunks, net.ring, net.anchor, net.rank, net.clock, p, s);
      SameLargeTrees(mem.left, mem.right, mem.parent, mem.index, net.trie, net.pos, net.ring, net.anchor,
                     net.ring[p := s], net.anchor);
      SizeAdded(chunks, p, s);
      HeaderMayLink(s / 8, chunks[p := s]);
      LinkBehind(b, mem.fd.At(b), p, chunks[p := s]);
      LinksMore(old(mem.data), mem.data, chunks, net.ring, p, s, net.ring[p := s]);
      net := Net(net.ring[p := s], net.anchor, net.rank[p := net.clock], net.clock + 1, net.trie, net.pos);
      chunks := chunks[p := s];
    }

    /** Links `p` in between `b` and its successor `f`. */
    method LinkBehind(b: int, f: int, p: int, ghost held: map<int, nat>)
      requires mem.Coherent() && SizesOk(held) && Spaced(held) && p in held && MayLink(held, b, FdW)
               && MayLink(held, f, BkW)
      modifies mem`fd, mem`bk, mem`data
      ensures mem.Coherent()
      ensures mem.fd == old(mem.fd).Set(b, p).Set(p, f) && mem.bk == old(mem.bk).Set(f, p).Set(p, b)
      ensures OnlyFreeBytes(old(mem.data), mem.data, held)
      ensures HasWord(mem.data, p, FdW) && HasWord(mem.data, p, BkW) && HasWord(mem.data, b, FdW)
              && HasWord(mem.data, f, BkW)
    {
      hide SizesOk, Spaced, CoherentWith, HasWord, Bytes.SetWord, Field.Set, InFree;
      ghost var d := mem.data;
      TwoLinksWritten(d, held, b, FdW, p, f, BkW, p);
      mem.SetFd(b, p);
      mem.SetBk(f, p);
      ghost var d1 := mem.data;
      TwoLinksWritten(d1, held, p, FdW, f, p, BkW, b);
      mem.SetFd(p, f);
      mem.SetBk(p, b);
      BytesTrans(d, d1, mem.data, held);
    }

    /** `unlink_small_chunk`; the two links it checks on the way are always intact. */
    method UnlinkSmall(p: int, s: nat)
      requires Valid() && Linked() && p in chunks && chunks[p] == s && IsSmall(s)
      modifies this, mem`fd, mem`bk, mem`data
      ensures Valid() && Linked() && chunks == old(chunks) - {p}
      ensures OnlyFreeBytes(old(mem.data), mem.data, old(chunks))
      ensures net.rank == old(net.rank) && net.clock == old(net.clock)
    {
      hide ListsOk, TreesOk, LinksWhole, Spaced, CoherentWith, HasWord, Bytes.SetWord, OffsetOf, RootsOk, SmallMapOk,
           TreeMapOk, SameLarge, Field.Set;
      var f, b, i := mem.fd.At(p), mem.bk.At(p), SmallIndex(s);
      HeldSizes(mem.fd, mem.bk, chunks, net.ring, net.anchor, net.rank, net.clock);
      SmallMember(mem.fd, mem.bk, chunks, net.ring, net.anchor, net.rank, net.clock, p);
      assert f == Header(i) || mem.bk.At(f) == p;
      assert b == Header(i) || mem.fd.At(b) == p;
      if b == f {
        SmallClosed(mem.fd, mem.bk, chunks, net.ring, net.anchor, net.rank, net.clock, p, Header(i));
        SameLargeTrees(mem.left, mem.right, mem.parent, mem.index, net.trie, net.pos, net.ring, net.anchor,
                       net.ring - {p, Header(i)}, net.anchor - {s});
        ClearSmallmap(i);
        BytesSame(mem.data, chunks);
        LinksFewer(mem.data, mem.data, chunks, net.ring, chunks - {p}, net.ring - {p, Header(i)});
        net := Net(net.ring - {p, Header(i)}, net.anchor - {s}, net.rank, net.clock, net.trie, net.pos);
      } else {
        SmallLeft(mem.fd, mem.bk, chunks, net.ring, net.anchor, net.rank, net.clock, p);
        SameLargeTrees(mem.left, mem.right, mem.parent, mem.index, net.trie, net.pos, net.ring, net.anchor,
                       net.ring - {p}, net.anchor);
        HeaderMayLink(i, chunks);
        LinkAround(f, b);
        LinksFewer(old(mem.data), mem.data, chunks, net.ring, chunks - {p}, net.ring - {p});
        net := Net(net.ring - {p}, net.anchor, net.rank, net.clock, net.trie, net.pos);
      }
      chunks := chunks - {p};
    }

    /** Links `b` and `f` to each other, over what was between them. */
    method LinkAround(f: int, b: int)
      requires mem.Coherent() && SizesOk(chunks) && Spaced(chunks) && MayLink(chunks, b, FdW) && MayLink(chunks, f, BkW)
      modifies mem`fd, mem`bk, mem`data
      ensures mem.Coherent()
      ensures mem.fd == old(mem.fd).Set(b, f) && mem.bk == old(mem.bk).Set(f, b)
      ensures OnlyFreeBytes(old(mem.data), mem.data, chunks)
    {
      hide SizesOk, Spaced, CoherentWith, HasWord, Bytes.SetWord, Field.Set, InFree;
      TwoLinksWritten(mem.data, chunks, f, BkW, b, b, FdW, f);
      mem.SetBk(f, b);
      mem.SetFd(b, f);
    }

    /** `unlink_first_small_chunk`: takes the chunk behind the header of a marked bin. */
    method UnlinkFirstSmall(i: nat) returns (p: int)
      requires Valid() && Linked() && i < NBINS && 8 * i in net.anchor
      modifies this, mem`fd, mem`bk, mem`data
      ensures Valid() && Linked() && p in old(chunks) && old(chunks)[p] == 8 * i && chunks == old(chunks) - {p}
      ensures OnlyFreeBytes(old(mem.data), mem.data, old(chunks))
      ensures net.rank == old(net.rank) && net.clock == old(net.clock)
      ensures Newest(old(chunks), old(net.rank), p)
    {
      hide ListsOk, TreesOk, LinksWhole, Spaced, CoherentWith, HasWord, Bytes.SetWord, OffsetOf, RootsOk, SmallMapOk,
           TreeMapOk, SameLarge, Field.Set;
      HeldSizes(mem.fd, mem.bk, chunks, net.ring, net.anchor, net.rank, net.clock);
      HeaderLinks(mem.fd, mem.bk, chunks, net.ring, net.anchor, net.rank, net.clock, 8 * i);
      var b := Header(i);
      p := mem.fd.At(b);
      HeadIsNewest(mem.fd, mem.bk, chunks, net.ring, net.anchor, net.rank, net.clock, 8 * i);
      SmallMember(mem.fd, mem.bk, chunks, net.ring, net.anchor, net.rank, net.clock, p);
      var f := mem.fd.At(p);
      if b == f {
        SmallClosed(mem.fd, mem.bk, chunks, net.ring, net.anchor, net.rank, net.clock, p, b);
        SameLargeTrees(mem.left, mem.right, mem.parent, mem.index, net.trie, net.pos, net.ring, net.anchor,
                       net.ring - {p, b}, net.anchor - {8 * i});
        ClearSmallmap(i);
        BytesSame(mem.data, chunks);
        LinksFewer(mem.data, mem.data, chunks, net.ring, chunks - {p}, net.ring - {p, b});
        net := Net(net.ring - {p, b}, net.anchor - {8 * i}, net.rank, net.clock, net.trie, net.pos);
      } else {
        assert mem.bk.At(f) == p;
        SmallLeft(mem.fd, mem.bk, chunks, net.ring, net.anchor, net.rank, net.clock, p);
        SameLargeTrees(mem.left, mem.right, mem.parent, mem.index, net.trie, net.pos, net.ring, net.anchor,
                       net.ring - {p}, net.anchor);
        HeaderMayLink(i, chunks);
        LinkAround(f, b);
        LinksFewer(old(mem.data), mem.data, chunks, net.ring, chunks - {p}, net.ring - {p});
        net := Net(net.ring - {p}, net.anchor, net.rank, net.clock, net.trie, net.pos);
      }
      chunks := chunks - {p};
    }

    // ----- tree bins

    /** `treemap_is_marked`. */
    method TreemapIsMarked(i: nat) returns (b: bool)
      requires TreeMapOk(treemap, net.trie) && i < NBINS
      ensures b == (32 + i in net.trie)
    {
      b := Bit(treemap, i);
    }

    /** `mark_treemap`. */
    method MarkTreemap(i: nat, ghost x: int)
      requires TreeMapOk(treemap, net.trie) && i < NBINS
      modifies this`treemap
      ensures TreeMapOk(treemap, net.trie[32 + i := x])
    {
      MarkKeeps(NBINS, treemap, i);
      treemap := Mark(treemap, i);
    }

    /** `clear_treemap`. */
    method ClearTreemap(i: nat, ghost trie: map<nat, int>)
      requires TreeMapOk(treemap, trie) && i < NBINS
      modifies this`treemap
      ensures TreeMapOk(treemap, trie - {32 + i})
    {
      ClearKeeps(NBINS, treemap, i);
      treemap := Clear(NBINS, treemap, i);
    }

    /** Sets the bin index and clears the child links. */
    method InitTreeChunk(x: int, s: nat)
      requires Valid() && Linked() && x > 0 && x !in chunks && Spaced(chunks[x := s]) && IsTreeSize(s)
      modifies mem`left, mem`right, mem`index, mem`data
      ensures Valid() && Linked() && mem.left.At(x) == 0 && mem.right.At(x) == 0 && mem.index.At(x) == TreeIndex(s)
      ensures OnlyFreeBytes(old(mem.data), mem.data, chunks[x := s]) && TreeWords(mem.data, x)
    {
      hide TreesOk, LinksWhole, Spaced, CoherentWith, HasWord, OnlyFreeBytes, Bytes.SetWord, RootsOk, SmallMapOk,
           TreeMapOk, TreeIndex, MembersOk, RanksOk, RingsOk, Field.Set, Field.At;
      ghost var left0, right0, index0 := mem.left, mem.right, mem.index;
      HeldSizes(mem.fd, mem.bk, chunks, net.ring, net.anchor, net.rank, net.clock);
      SizeAdded(chunks, x, s);
      ThreeLinksWritten(mem.data, chunks[x := s], x, IndexW, TreeIndex(s), RightW, 0, LeftW, 0);
      mem.SetIndex(x, TreeIndex(s));
      mem.SetChild(x, 1, 0);
      mem.SetChild(x, 0, 0);
      LinksElsewhere(old(mem.data), mem.data, chunks, net.ring, x, s);
      OutsideTrees(left0, right0, mem.parent, index0, mem.left, mem.right, mem.parent, mem.index, net.ring, net.anchor,
                   net.trie, net.pos, x);
    }

    /** The parent of the new chunk `x`, which is alone in its ring. */
    method SetOwnLinks(x: int, s: nat, xp: int)
      requires mem.Coherent() && SizesOk(chunks) && x > 0 && x !in chunks && Spaced(chunks[x := s]) && IsTreeSize(s)
      modifies mem`fd, mem`bk, mem`parent, mem`data
      ensures mem.Coherent() && OnlyFreeBytes(old(mem.data), mem.data, chunks[x := s])
      ensures mem.parent == old(mem.parent).Set(x, xp) && mem.fd == old(mem.fd).Set(x, x)
              && mem.bk == old(mem.bk).Set(x, x)
      ensures HasWord(mem.data, x, ParentW) && HasWord(mem.data, x, FdW) && HasWord(mem.data, x, BkW)
    {
      hide SizesOk, Spaced, CoherentWith, HasWord, Bytes.SetWord, Field.Set, OnlyFreeBytes;
      SizeAdded(chunks, x, s);
      ThreeLinksWritten(mem.data, chunks[x := s], x, ParentW, xp, FdW, x, BkW, x);
      mem.SetParent(x, xp);
      mem.SetFd(x, x);
      mem.SetBk(x, x);
    }

    method PlantRoot(x: int, s: nat)
      requires Valid() && Linked() && x > 0 && x !in chunks && Spaced(chunks[x := s]) && IsTreeSize(s)
      requires TreeIndex(s) < NBINS && 32 + TreeIndex(s) !in net.trie
      requires mem.left.At(x) == 0 && mem.right.At(x) == 0 && mem.index.At(x) == TreeIndex(s) && TreeWords(mem.data, x)
      modifies this, mem`fd, mem`bk, mem`parent, mem`data
      ensures Valid() && Linked() && chunks == old(chunks)[x := s]
      ensures OnlyFreeBytes(old(mem.data), mem.data, chunks)
      ensures CameLast(old(net), net, x)
    {
      hide ListsOk, TreesOk, LinksWhole, Spaced, CoherentWith, HasWord, Bytes.SetWord, OffsetOf, RootsOk, SmallMapOk,
           TreeMapOk, MembersOk, RanksOk, RingsOk, TagsOk, TrieOk, NodesOk,
        CanPlant, OnTheWay, TreeIndex, Field.Set, Field.At, OnlyFreeBytes;
      var i := TreeIndex(s);
      ghost var k := 32 + i;
      Parts(mem.fd, mem.bk, mem.left, mem.right, mem.parent, mem.index, chunks, net.ring, net.anchor, net.rank,
            net.clock, net.trie, net.pos, x);
      StartOfTheWay(net.trie, net.pos, net.ring, net.anchor, s);
      Planted(mem.fd, mem.bk, mem.left, mem.right, mem.parent, mem.index, treebins, chunks, net.ring, net.anchor,
              net.rank, net.clock, net.trie, net.pos, x, s, k);
      SmallMapKept(smallmap, net.anchor, s, x);
      HeldSizes(mem.fd, mem.bk, chunks, net.ring, net.anchor, net.rank, net.clock);
      ghost var d := mem.data;
      MarkTreemap(i, x);
      treebins := treebins[i := x];
      SetOwnLinks(x, s, TreeBin(i));
      TreeWordsKept(d, mem.data, chunks[x := s], x);
      LinksMore(d, mem.data, chunks, net.ring, x, s, net.ring[x := s]);
      net := Net(net.ring[x := s], net.anchor[s := x], net.rank[x := net.clock], net.clock + 1, net.trie[k := x],
                 net.pos[x := k]);
      chunks := chunks[x := s];
    }

    /** The descent of `insert_large_chunk`: ends at the node of size `s`, or at a node whose child on the
        side of `s` is missing.  Each level uses up one bit that tells sizes apart. */
    method FindPlace(s: nat) returns (t: int, side: nat, same: bool, ghost k: nat)
      requires Valid() && HeadsAgree() && IsTreeSize(s) && TreeIndex(s) < NBINS && 32 + TreeIndex(s) in net.trie
      ensures same ==> s in net.anchor && t == net.anchor[s]
      ensures !same ==>
              s !in net.anchor && side <= 1 && k in net.trie && net.trie[k] == t && CanPlant(net.trie, s, 2 * k + side)
    {
      hide ListsOk, TreesOk, LinksWhole, Spaced, CoherentWith, HasWord, Bytes.SetWord, OffsetOf, SmallMapOk, TreeMapOk,
           MembersOk, RanksOk, RingsOk, TagsOk, TrieOk, NodesOk,
        CanPlant, TreeIndex, InSlot, ShiftedAt, ShiftedSize, ShiftOnce, SignBit, FreeBits, Under;
      ghost var ring, anchor, trie, pos := net.ring, net.anchor, net.trie, net.pos;
      Parts(mem.fd, mem.bk, mem.left, mem.right, mem.parent, mem.index, chunks, ring, anchor, net.rank, net.clock, trie,
            pos, 0);
      StartOfTheWay(trie, pos, ring, anchor, s);
      var i := TreeIndex(s);
      t, side, same, k := treebins[i], 0, true, 32 + i;
      var bits := ShiftedSize(s, i);
      NodeFacts(chunks, ring, anchor, trie, pos, k);
      while mem.head.At(t).size != s
        invariant OnTheWay(trie, pos, anchor, s, k) && bits == ShiftedAt(s, k) && trie[k] == t && same
        invariant NodeFact(chunks, ring, anchor, trie, k)
        decreases FreeBits(k)
      {
        OneLevelDown(trie, pos, ring, anchor, s, k);
        NodeLinks(mem.left, mem.right, mem.parent, trie, k);
        side := SignBit(bits);
        NullIsFree(ring, anchor, trie, pos, 2 * k + side);
        bits := ShiftOnce(bits);
        var c := if side == 0 then mem.left.At(t) else mem.right.At(t);
        if c == 0 {
          same := false;
          return;
        }
        t, k := c, 2 * k + side;
        NodeFacts(chunks, ring, anchor, trie, pos, k);
      }
    }

    method PlantBelow(t: int, side: nat, x: int, s: nat, ghost k: nat)
      requires Valid() && Linked() && x > 0 && x !in chunks && Spaced(chunks[x := s]) && IsTreeSize(s)
               && s !in net.anchor
      requires side <= 1 && k in net.trie && net.trie[k] == t && CanPlant(net.trie, s, 2 * k + side)
      requires mem.left.At(x) == 0 && mem.right.At(x) == 0 && mem.index.At(x) == TreeIndex(s) && TreeWords(mem.data, x)
      modifies this, mem`fd, mem`bk, mem`left, mem`right, mem`parent, mem`data
      ensures Valid() && Linked() && chunks == old(chunks)[x := s]
      ensures OnlyFreeBytes(old(mem.data), mem.data, chunks)
      ensures CameLast(old(net), net, x)
    {
      hide ListsOk, TreesOk, LinksWhole, Spaced, CoherentWith, HasWord, Bytes.SetWord, OffsetOf, RootsOk, SmallMapOk,
           TreeMapOk, ChunksOk, MembersOk, RanksOk, RingsOk, TagsOk, TrieOk, NodesOk,
        CanPlant, TreeIndex, Field.Set, Field.At, OnlyFreeBytes;
      ghost var j := 2 * k + side;
      ghost var ring, anchor, trie, pos := net.ring, net.anchor, net.trie, net.pos;
      Parts(mem.fd, mem.bk, mem.left, mem.right, mem.parent, mem.index, chunks, ring, anchor, net.rank, net.clock, trie,
            pos, x);
      NodeFacts(chunks, ring, anchor, trie, pos, k);
      Planted(mem.fd, mem.bk, mem.left, mem.right, mem.parent, mem.index, treebins, chunks, ring, anchor, net.rank,
              net.clock, trie, pos, x, s, j);
      SmallMapKept(smallmap, anchor, s, x);
      TreeMapKept(treemap, trie, j, x);
      assert j / 2 == k && j % 2 == side;
      HeldSizes(mem.fd, mem.bk, chunks, ring, anchor, net.rank, net.clock);
      SizeAdded(chunks, x, s);
      ChildWritten(mem.data, chunks[x := s], t, side, x);
      mem.SetChild(t, side, x);
      ghost var d := mem.data;
      SetOwnLinks(x, s, t);
      BytesTrans(old(mem.data), d, mem.data, chunks[x := s]);
      TreeWordsKept(old(mem.data), mem.data, chunks[x := s], x);
      LinksMore(old(mem.data), mem.data, chunks, ring, x, s, ring[x := s]);
      net := Net(ring[x := s], anchor[s := x], net.rank[x := net.clock], net.clock + 1, trie[j := x], pos[x := j]);
      chunks := chunks[x := s];
    }

    method JoinNode(t: int, x: int, s: nat)
      requires Valid() && Linked() && x > 0 && x !in chunks && Spaced(chunks[x := s]) && IsTreeSize(s)
               && s in net.anchor && t == net.anchor[s]
      requires mem.left.At(x) == 0 && mem.right.At(x) == 0 && mem.index.At(x) == TreeIndex(s) && TreeWords(mem.data, x)
      modifies this, mem`fd, mem`bk, mem`parent, mem`data
      ensures Valid() && Linked() && chunks == old(chunks)[x := s]
      ensures OnlyFreeBytes(old(mem.data), mem.data, chunks)
      ensures CameLast(old(net), net, x)
    {
      hide ListsOk, TreesOk, LinksWhole, Spaced, CoherentWith, HasWord, Bytes.SetWord, RootsOk, SmallMapOk, TreeMapOk,
           ChunksOk, MembersOk, RanksOk, RingsOk, TagsOk, TrieOk, NodesOk,
        TreeIndex, Field.Set, Field.At, OnlyFreeBytes, SizesOk;
      ghost var ring, anchor, trie, pos := net.ring, net.anchor, net.trie, net.pos;
      Parts(mem.fd, mem.bk, mem.left, mem.right, mem.parent, mem.index, chunks, ring, anchor, net.rank, net.clock, trie,
            pos, x);
      HeldSizes(mem.fd, mem.bk, chunks, ring, anchor, net.rank, net.clock);
      SizeAdded(chunks, x, s);
      AnchorFacts(mem.fd, mem.bk, chunks, ring, anchor, net.rank, net.clock, s);
      LargeJoined(mem.fd, mem.bk, chunks, ring, anchor, net.rank, net.clock, x, s);
      ghost var parent0 := mem.parent;
      LinkBehind(t, mem.fd.At(t), x, chunks[x := s]);
      ghost var d := mem.data;
      LinkWritten(d, chunks[x := s], x, ParentW, 0);
      mem.SetParent(x, 0);
      BytesTrans(old(mem.data), d, mem.data, chunks[x := s]);
      TreeWordsKept(old(mem.data), mem.data, chunks[x := s], x);
      JoinedWords(d, mem.data, chunks[x := s], x);
      LinksMore(old(mem.data), mem.data, chunks, ring, x, s, ring[x := s]);
      OutsideTrees(mem.left, mem.right, parent0, mem.index, mem.left, mem.right, mem.parent, mem.index, ring, anchor,
                   trie, pos, x);
      TreeJoined(mem.left, mem.right, mem.parent, mem.index, ring, anchor, trie, pos, x, s);
      net := Net(ring[x := s], anchor, net.rank[x := net.clock], net.clock + 1, trie, pos);
      chunks := chunks[x := s];
    }

    /** `insert_large_chunk`: a new size becomes a root or a leaf of its trie, a size already held gets one
        more chunk in its ring. */
    method InsertLarge(x: int, s: nat)
      requires Valid() && Linked() && HeadsAgree() && x > 0 && x !in chunks && Spaced(chunks[x := s]) && IsTreeSize(s)
      modifies this, mem`fd, mem`bk, mem`left, mem`right, mem`parent, mem`index, mem`data
      ensures Valid() && Linked() && chunks == old(chunks)[x := s]
      ensures OnlyFreeBytes(old(mem.data), mem.data, chunks)
      ensures CameLast(old(net), net, x)
    {
      hide ListsOk, TreesOk, LinksWhole, Spaced, CoherentWith, HasWord, Bytes.SetWord, OffsetOf, RootsOk, SmallMapOk,
           TreeMapOk, Field.Set, Field.At, TreeIndex, InFree, CanPlant;
      InitTreeChunk(x, s);
      RootFits(s);
      var marked := TreemapIsMarked(TreeIndex(s));
      if !marked {
        PlantRoot(x, s);
      } else {
        var t, side, same;
        ghost var k;
        t, side, same, k := FindPlace(s);
        if !same {
          PlantBelow(t, side, x, s, k);
        } else {
          JoinNode(t, x, s);
        }
      }
    }

    // ----- taking a tree chunk out

    /** Makes whatever points down to `x` point to `r` instead; an emptied bin is unmarked. */
    method RedirectParent(x: int, xp: int, r: int, ghost trie: map<nat, int>, ghost pos: map<int, nat>, ghost k: nat,
                          ghost held: map<int, nat>)
      requires NodesOk(mem.left, mem.right, mem.parent, trie) && PosOk(trie, pos) && RootsOk(treebins, trie)
               && TreeMapOk(treemap, trie)
      requires k in trie && trie[k] == x && (k >= 64 ==> k / 2 in trie) && xp == ParentAt(trie, k)
      requires 0 <= mem.index.At(x) < NBINS && (k < 64 ==> mem.index.At(x) == k - 32)
      requires forall j | j in trie :: trie[j] in held && held[trie[j]] >= MIN_LARGE
      requires mem.Coherent() && Spaced(held) && SizesOk(held)
      modifies this`treebins, this`treemap, mem`left, mem`right, mem`data
      ensures mem.Coherent()
      ensures mem.left == LeftTo(old(mem.left), trie, k, r) && mem.right == RightTo(old(mem.right), trie, k, r)
      ensures |old(treebins)| == NBINS && treebins == RootsTo(old(treebins), k, r)
      ensures TreeMapOk(treemap, if r == 0 then trie - {k} else trie[k := r])
      ensures OnlyFreeBytes(old(mem.data), mem.data, held)
    {
      hide Bit, Field.Set, Field.At, OnlyFreeBytes, Spaced, CoherentWith, HasWord, SizesOk, Bytes.SetWord;
      NodeLinks(mem.left, mem.right, mem.parent, trie, k);
      var i := mem.index.At(x);
      assert treebins[i] == x <==> k < 64;
      if treebins[i] == x {
        treebins := treebins[i := r];
        if r == 0 {
          ClearTreemap(i, trie);
        }
        BytesSame(mem.data, held);
      } else {
        TreeMapKept(treemap, trie, k, r);
        RedirectChild(x, xp, r, trie, k, held);
      }
    }

    /** The parent `xp` of the node `x` gets the child `r` instead. */
    method RedirectChild(x: int, xp: int, r: int, ghost trie: map<nat, int>, ghost k: nat, ghost held: map<int, nat>)
      requires NodesOk(mem.left, mem.right, mem.parent, trie) && k in trie && trie[k] == x && k >= 64 && k / 2 in trie
               && xp == trie[k / 2] && (forall j | j in trie && j != k :: trie[j] != x) && x != 0
      requires xp in held && held[xp] >= MIN_LARGE && mem.Coherent() && Spaced(held) && SizesOk(held)
      modifies mem`left, mem`right, mem`data
      ensures mem.Coherent()
      ensures mem.left == LeftTo(old(mem.left), trie, k, r) && mem.right == RightTo(old(mem.right), trie, k, r)
      ensures OnlyFreeBytes(old(mem.data), mem.data, held)
    {
      hide Field.Set, Field.At, OnlyFreeBytes, Spaced, CoherentWith, HasWord, SizesOk, Bytes.SetWord, NodesOk;
      NodeLinks(mem.left, mem.right, mem.parent, trie, k / 2);
      ChildWritten(mem.data, held, xp, 0, r);
      ChildWritten(mem.data, held, xp, 1, r);
      if mem.left.At(xp) == x {
        mem.SetChild(xp, 0, r);
      } else {
        mem.SetChild(xp, 1, r);
      }
    }

    /** Hands a child over to `r`, if there is one. */
    method AdoptChild(r: int, side: nat, c: int, ghost held: map<int, nat>)
      requires mem.Coherent() && Spaced(held) && SizesOk(held) && side <= 1 && r in held && held[r] >= MIN_LARGE
      requires c != 0 ==> c in held && held[c] >= MIN_LARGE
      modifies mem`left, mem`right, mem`parent, mem`data
      ensures mem.Coherent() && OnlyFreeBytes(old(mem.data), mem.data, held)
      ensures mem.left == (if side == 0 then SetUnlessNull(old(mem.left), c, r, c) else old(mem.left))
      ensures mem.right == (if side == 1 then SetUnlessNull(old(mem.right), c, r, c) else old(mem.right))
      ensures mem.parent == SetUnlessNull(old(mem.parent), c, c, r)
    {
      hide Field.Set, Field.At, OnlyFreeBytes, Spaced, CoherentWith, HasWord, Bytes.SetWord;
      BytesSame(mem.data, held);
      if c != 0 {
        TwoLinksWritten(mem.data, held, r, ChildRole(side), c, c, ParentW, r);
        mem.SetChild(r, side, c);
        mem.SetParent(c, r);
      }
    }

    /** Hands the parent and the children of `x` over to `r`. */
    method AdoptLinks(x: int, xp: int, r: int, ghost held: map<int, nat>)
      requires r != x && mem.left.At(x) != r && mem.right.At(x) != r
      requires r in held && held[r] >= MIN_LARGE && mem.Coherent() && Spaced(held) && SizesOk(held)
      requires mem.left.At(x) != 0 ==> mem.left.At(x) in held && held[mem.left.At(x)] >= MIN_LARGE
      requires mem.right.At(x) != 0 ==> mem.right.At(x) in held && held[mem.right.At(x)] >= MIN_LARGE
      modifies mem`left, mem`right, mem`parent, mem`data
      ensures mem.Coherent()
      ensures var c0, c1 := old(mem.left.At(x)), old(mem.right.At(x));
              && mem.left == SetUnlessNull(old(mem.left), c0, r, c0)
              && mem.right == SetUnlessNull(old(mem.right), c1, r, c1)
              && mem.parent == SetUnlessNull(SetUnlessNull(old(mem.parent).Set(r, xp), c0, c0, r), c1, c1, r)
      ensures OnlyFreeBytes(old(mem.data), mem.data, held)
    {
      hide Field.Set, Field.At, OnlyFreeBytes, Spaced, CoherentWith, HasWord, Bytes.SetWord, SetUnlessNull;
      LinkWritten(mem.data, held, r, ParentW, xp);
      mem.SetParent(r, xp);
      ghost var d1 := mem.data;
      var c0 := mem.left.At(x);
      AdoptChild(r, 0, c0, held);
      ghost var d2 := mem.data;
      BytesTrans(old(mem.data), d1, d2, held);
      var c1 := mem.right.At(x);
      AdoptChild(r, 1, c1, held);
      BytesTrans(old(mem.data), d2, mem.data, held);
    }

    /** `r`, which is no node, takes the place of the node `x`: its parent and its children point to `r` instead. */
    method TakePlace(x: int, xp: int, r: int, ghost trie: map<nat, int>, ghost pos: map<int, nat>, ghost k: nat,
                     ghost held: map<int, nat>)
      requires FitToTake(mem.left, mem.right, mem.parent, mem.index, held, trie, pos, x, xp, r, k)
      requires RootsOk(treebins, trie) && TreeMapOk(treemap, trie) && mem.Coherent() && Spaced(held)
      modifies this`treebins, this`treemap, mem`left, mem`right, mem`parent, mem`data
      ensures mem.Coherent() && |old(treebins)| == NBINS && treebins == RootsTo(old(treebins), k, r)
              && TreeMapOk(treemap, trie[k := r])
      ensures var c0, c1 := old(mem.left.At(x)), old(mem.right.At(x));
              && mem.left == SetUnlessNull(LeftTo(old(mem.left), trie, k, r), c0, r, c0)
              && mem.right == SetUnlessNull(RightTo(old(mem.right), trie, k, r), c1, r, c1)
              && mem.parent == SetUnlessNull(SetUnlessNull(old(mem.parent).Set(r, xp), c0, c0, r), c1, c1, r)
      ensures OnlyFreeBytes(old(mem.data), mem.data, held)
    {
      hide NodesOk, RootsOk, TreeMapOk, Field.Set, Field.At, OnlyFreeBytes, Spaced, SizesOk, CoherentWith, HasWord,
           Bytes.SetWord, LeftTo, RightTo,
        ParentAt, SetUnlessNull, RootsTo, PosOk, MayStand;
      RedirectKeeps(mem.left, mem.right, trie, pos, k, r);
      ChildrenHeld(mem.left, mem.right, mem.parent, held, trie, pos, r, k);
      RedirectParent(x, xp, r, trie, pos, k, held);
      ghost var d1 := mem.data;
      AdoptLinks(x, xp, r, held);
      BytesTrans(old(mem.data), d1, mem.data, held);
    }

    /** The rightmost leaf below the node `x`, unhooked from its parent; null if `x` is a leaf itself. */
    method DetachLeaf(x: int, ghost kx: nat) returns (r: int, ghost k: nat)
      requires Valid() && Linked() && kx in net.trie && net.trie[kx] == x
      modifies mem`left, mem`right, mem`data
      ensures mem.Coherent()
      ensures r == 0 ==> IsLeaf(net.trie, kx) && mem.left == old(mem.left) && mem.right == old(mem.right)
      ensures r != 0 ==> IsSlot(kx) && IsLeaf(net.trie, k) && Under(k, kx) && k != kx && net.trie[k] == r &&
                         mem.left == LeftTo(old(mem.left), net.trie, k, 0)
                         && mem.right == RightTo(old(mem.right), net.trie, k, 0)
      ensures OnlyFreeBytes(old(mem.data), mem.data, chunks)
    {
      hide ListsOk, TreesOk, LinksWhole, Spaced, CoherentWith, HasWord, Bytes.SetWord, OffsetOf, RootsOk, SmallMapOk,
           TreeMapOk, ChunksOk, MembersOk, RanksOk, RingsOk, TagsOk, TrieOk, NodesOk,
        TreeIndex, Field.Set, Field.At, OnlyFreeBytes, FreeBits, Under;
      ghost var ring, anchor, trie, pos := net.ring, net.anchor, net.trie, net.pos;
      Parts(mem.fd, mem.bk, mem.left, mem.right, mem.parent, mem.index, chunks, ring, anchor, net.rank, net.clock, trie,
            pos, x);
      NodeFacts(chunks, ring, anchor, trie, pos, kx);
      NodeLinks(mem.left, mem.right, mem.parent, trie, kx);
      NullIsFree(ring, anchor, trie, pos, 2 * kx);
      NullIsFree(ring, anchor, trie, pos, 2 * kx + 1);
      BytesSame(mem.data, chunks);
      UnderItself(kx);
      var rp, side := x, 1;
      r, k := mem.right.At(x), kx;
      if r == 0 {
        r, side := mem.left.At(x), 0;
      }
      if r != 0 {
        StepDown(ring, anchor, trie, pos, kx, k, side);
        k := 2 * k + side;
        NodeLinks(mem.left, mem.right, mem.parent, trie, k);
        while mem.right.At(r) != 0 || mem.left.At(r) != 0
          invariant k in trie && trie[k] == r != 0 && IsSlot(k) && Under(k, kx) && k != kx && k >= 64
          invariant k / 2 in trie && rp == trie[k / 2] && side == k % 2
          invariant mem.left.At(r) == NodeAt(trie, 2 * k) && mem.right.At(r) == NodeAt(trie, 2 * k + 1)
          invariant FreeBits(k) >= 4
          modifies {}
          decreases FreeBits(k)
        {
          rp := r;
          side := if mem.right.At(r) != 0 then 1 else 0;
          r := if side == 1 then mem.right.At(r) else mem.left.At(r);
          NullIsFree(ring, anchor, trie, pos, 2 * k + side);
          StepDown(ring, anchor, trie, pos, kx, k, side);
          k := 2 * k + side;
          NodeLinks(mem.left, mem.right, mem.parent, trie, k);
        }
        NullIsFree(ring, anchor, trie, pos, 2 * k);
        NullIsFree(ring, anchor, trie, pos, 2 * k + 1);
        NodeFacts(chunks, ring, anchor, trie, pos, k / 2);
        HeldSizes(mem.fd, mem.bk, chunks, ring, anchor, net.rank, net.clock);
        ChildWritten(mem.data, chunks, rp, side, 0);
        mem.SetChild(rp, side, 0);
      }
    }

    /** A chunk beside the tree node of its size. */
    method UnlinkFromRing(x: int)
      requires Valid() && Linked() && x in chunks && chunks[x] >= MIN_LARGE && mem.parent.At(x) == 0
               && mem.bk.At(x) != x
      modifies this, mem`fd, mem`bk, mem`data
      ensures Valid() && Linked() && chunks == old(chunks) - {x}
      ensures OnlyFreeBytes(old(mem.data), mem.data, old(chunks))
      ensures net.rank == old(net.rank) && net.clock == old(net.clock)
    {
      hide ListsOk, TreesOk, LinksWhole, Spaced, CoherentWith, HasWord, Bytes.SetWord, OffsetOf, RootsOk, SmallMapOk,
           TreeMapOk, ChunksOk, MembersOk, RanksOk, RingsOk, TagsOk, TrieOk, NodesOk,
        TreeIndex, Field.Set, OnlyFreeBytes, SizesOk;
      ghost var ring, anchor, trie, pos := net.ring, net.anchor, net.trie, net.pos;
      Parts(mem.fd, mem.bk, mem.left, mem.right, mem.parent, mem.index, chunks, ring, anchor, net.rank, net.clock, trie,
            pos, x);
      BeforeUnlink(mem.fd, mem.bk, mem.left, mem.right, mem.parent, mem.index, chunks, ring, anchor, net.rank,
                   net.clock, trie, pos, x);
      HeldSizes(mem.fd, mem.bk, chunks, ring, anchor, net.rank, net.clock);
      LargeLeft(mem.fd, mem.bk, chunks, ring, anchor, net.rank, net.clock, x);
      TreeOther(mem.left, mem.right, mem.parent, mem.index, ring, anchor, trie, pos, x);
      LinkAround(mem.fd.At(x), mem.bk.At(x));
      LinksFewer(old(mem.data), mem.data, chunks, ring, chunks - {x}, ring - {x});
      net := Net(ring - {x}, anchor, net.rank, net.clock, trie, pos);
      chunks := chunks - {x};
    }

    /** A tree node with other chunks of its size: its predecessor in the ring becomes the node. */
    method UnlinkNodeWithHeir(x: int)
      requires Valid() && Linked() && x in chunks && chunks[x] >= MIN_LARGE && mem.parent.At(x) != 0
               && mem.bk.At(x) != x
      modifies this, mem`fd, mem`bk, mem`left, mem`right, mem`parent, mem`data
      ensures Valid() && Linked() && chunks == old(chunks) - {x}
      ensures OnlyFreeBytes(old(mem.data), mem.data, old(chunks))
      ensures net.rank == old(net.rank) && net.clock == old(net.clock)
    {
      hide ListsOk, TreesOk, LinksWhole, Spaced, CoherentWith, HasWord, Bytes.SetWord, OffsetOf, RootsOk, SmallMapOk,
           TreeMapOk, ChunksOk, MembersOk, RanksOk, RingsOk, TagsOk, TrieOk, NodesOk,
        TreeIndex, Field.Set, Field.At, OnlyFreeBytes, SizesOk, LeftTo, RightTo, ParentAt, SetUnlessNull, RootsTo,
        PosOk, MayStand, Fewer, FitToTake;
      ghost var ring, anchor, trie, pos := net.ring, net.anchor, net.trie, net.pos;
      var xp, r := mem.parent.At(x), mem.bk.At(x);
      HeldSizes(mem.fd, mem.bk, chunks, ring, anchor, net.rank, net.clock);
      HeirReady(mem.fd, mem.bk, mem.left, mem.right, mem.parent, mem.index, chunks, ring, anchor, net.rank, net.clock,
                trie, pos, x, r);
      ghost var k := pos[x];
      SlotThere(mem.left, mem.right, mem.parent, mem.index, chunks, trie, pos, x, xp, r, k);
      SmallMapKept(smallmap, anchor, ring[x], r);
      PlantedRoots(treebins, trie, r, k);
      LinkAround(mem.fd.At(x), r);
      ghost var d1 := mem.data;
      TakePlace(x, xp, r, trie, pos, k, chunks);
      BytesTrans(old(mem.data), d1, mem.data, chunks);
      LinksFewer(old(mem.data), mem.data, chunks, ring, chunks - {x}, ring - {x});
      net := Net(ring - {x}, anchor[ring[x] := r], net.rank, net.clock, trie[k := r], pos[r := k]);
      chunks := chunks - {x};
    }

    /** The last chunk of its size: a leaf simply goes, any other node is replaced by a leaf below it. */
    method UnlinkLastOfSize(x: int)
      requires Valid() && Linked() && x in chunks && chunks[x] >= MIN_LARGE && mem.bk.At(x) == x
      modifies this, mem`left, mem`right, mem`parent, mem`data
      ensures Valid() && Linked() && chunks == old(chunks) - {x}
      ensures OnlyFreeBytes(old(mem.data), mem.data, old(chunks))
      ensures net.rank == old(net.rank) && net.clock == old(net.clock)
    {
      hide ListsOk, TreesOk, LinksWhole, Spaced, CoherentWith, HasWord, Bytes.SetWord, OffsetOf, RootsOk, SmallMapOk,
           TreeMapOk, ChunksOk, MembersOk, RanksOk, RingsOk, TagsOk, TrieOk, NodesOk,
        TreeIndex, Field.Set, Field.At, OnlyFreeBytes, SizesOk, LeftTo, RightTo, ParentAt, SetUnlessNull, RootsTo,
        PosOk, MayStand, Fewer, IsLeaf, Under;
      ghost var ring, anchor, trie, pos := net.ring, net.anchor, net.trie, net.pos;
      ghost var left0, right0 := mem.left, mem.right;
      var xp := mem.parent.At(x);
      Parts(mem.fd, mem.bk, mem.left, mem.right, mem.parent, mem.index, chunks, ring, anchor, net.rank, net.clock, trie,
            pos, x);
      BeforeUnlink(mem.fd, mem.bk, mem.left, mem.right, mem.parent, mem.index, chunks, ring, anchor, net.rank,
                   net.clock, trie, pos, x);
      LoneChunk(mem.fd, mem.bk, chunks, ring, anchor, net.rank, net.clock, x);
      LargeClosed(mem.fd, mem.bk, chunks, ring, anchor, net.rank, net.clock, x);
      SmallMapKept(smallmap, anchor, ring[x], 0);
      ghost var kx := pos[x];
      var r;
      ghost var k;
      r, k := DetachLeaf(x, kx);
      ghost var d1 := mem.data;
      NodesHeld(chunks, ring, anchor, trie, pos);
      HeldSizes(mem.fd, mem.bk, chunks, ring, anchor, net.rank, net.clock);
      if r == 0 {
        TreeLeafGone(left0, right0, mem.parent, mem.index, ring, anchor, trie, pos, x, kx);
        UnhookedRoots(treebins, trie, kx);
        RedirectParent(x, xp, r, trie, pos, kx, chunks);
        BytesTrans(old(mem.data), d1, mem.data, chunks);
        LinksFewer(old(mem.data), mem.data, chunks, ring, chunks - {x}, ring - {x});
        net := Net(ring - {x}, anchor - {ring[x]}, net.rank, net.clock, trie - {kx}, pos);
        chunks := chunks - {x};
      } else {
        LinksFewer(old(mem.data), d1, chunks, ring, chunks, ring);
        MoveLeafUp(x, xp, r, left0, right0, kx, k);
        BytesTrans(old(mem.data), d1, mem.data, old(chunks));
      }
    }

    /** The second half of that: the unhooked leaf `r` takes over the place of `x`. */
    method MoveLeafUp(x: int, xp: int, r: int, ghost left0: Field, ghost right0: Field, ghost kx: nat, ghost k: nat)
      requires ListsOk(mem.fd, mem.bk, chunks, net.ring, net.anchor, net.rank, net.clock) && Linked()
      requires TreesOk(left0, right0, mem.parent, mem.index, net.ring, net.anchor, net.trie, net.pos)
      requires RootsOk(treebins, net.trie) && SmallMapOk(smallmap, net.anchor) && TreeMapOk(treemap, net.trie)
      requires x in chunks && chunks[x] >= MIN_LARGE && mem.bk.At(x) == x && xp == mem.parent.At(x)
      requires x in net.pos && kx == net.pos[x] && IsSlot(kx) && IsLeaf(net.trie, k) && Under(k, kx) && k != kx
               && net.trie[k] == r
      requires mem.left == LeftTo(left0, net.trie, k, 0) && mem.right == RightTo(right0, net.trie, k, 0)
      modifies this, mem`left, mem`right, mem`parent, mem`data
      ensures Valid() && Linked() && chunks == old(chunks) - {x}
      ensures OnlyFreeBytes(old(mem.data), mem.data, old(chunks))
      ensures net.rank == old(net.rank) && net.clock == old(net.clock)
    {
      hide ListsOk, TreesOk, LinksWhole, Spaced, CoherentWith, HasWord, Bytes.SetWord, OffsetOf, RootsOk, SmallMapOk,
           TreeMapOk, ChunksOk, MembersOk, RanksOk, RingsOk, TagsOk, TrieOk, NodesOk,
        TreeIndex, Field.Set, Field.At, OnlyFreeBytes, SizesOk, LeftTo, RightTo, ParentAt, SetUnlessNull, PosOk,
        MayStand, IsLeaf, Under, RootsTo, FitToTake;
      ghost var ring, anchor, trie, pos := net.ring, net.anchor, net.trie, net.pos;
      ghost var trie1 := trie - {k};
      LeafReady(mem.fd, mem.bk, left0, right0, mem.left, mem.right, mem.parent, mem.index, chunks, ring, anchor,
                net.rank, net.clock, trie, pos, x, r, kx, k);
      SlotThere(mem.left, mem.right, mem.parent, mem.index, chunks, trie1, pos, x, xp, r, kx);
      SmallMapKept(smallmap, anchor, ring[x], 0);
      UnhookedInner(treebins, trie, k);
      TreeMapKept(treemap, trie, k, 0);
      PlantedRoots(treebins, trie1, r, kx);
      TakePlace(x, xp, r, trie1, pos, kx, chunks);
      LinksFewer(old(mem.data), mem.data, chunks, ring, chunks - {x}, ring - {x});
      net := Net(ring - {x}, anchor - {ring[x]}, net.rank, net.clock, trie1[kx := r], pos[r := kx]);
      chunks := chunks - {x};
    }

    /** The neighbours of `x` in its ring point back to it. */
    ghost predicate RingIntact(x: int)
      reads this, mem
    {
      && mem.fd.At(x) in chunks && mem.bk.At(mem.fd.At(x)) == x
      && mem.bk.At(x) in chunks && mem.fd.At(mem.bk.At(x)) == x
    }

    /** If `x` is a tree node, it is the root of its bin or a child of its parent, and its children point back to it. */
    ghost predicate TreeIntact(x: int)
      reads this, mem
    {
      && 0 <= mem.index.At(x) < |treebins|
      && (mem.parent.At(x) != 0 && treebins[mem.index.At(x)] != x ==>
            mem.parent.At(x) in chunks && (mem.left.At(mem.parent.At(x)) == x || mem.right.At(mem.parent.At(x)) == x))
      && (mem.left.At(x) != 0 ==> mem.left.At(x) in chunks && mem.parent.At(mem.left.At(x)) == x)
      && (mem.right.At(x) != 0 ==> mem.right.At(x) in chunks && mem.parent.At(mem.right.At(x)) == x)
    }

    /** The links of a large chunk are intact, all those that `unlink_large_chunk` checks among them. */
    lemma LargeLinks(x: int)
      requires Valid() && x in chunks && chunks[x] >= MIN_LARGE
      ensures RingIntact(x) && TreeIntact(x)
    {
      hide ListsOk, TreesOk, SmallMapOk, TreeMapOk, ChunksOk, MembersOk, RanksOk, TagsOk, TrieOk, NodesOk, TreeIndex,
           Field.At, RingsOk, RingIntact, TreeIntact, RootsOk;
      RingOfLarge(x);
      TreeOfLarge(x);
    }

    lemma RingOfLarge(x: int)
      requires Valid() && x in chunks && chunks[x] >= MIN_LARGE
      ensures RingIntact(x)
    {
      hide ListsOk, TreesOk, SmallMapOk, TreeMapOk, RootsOk, Field.At, ChunksOk, MembersOk, RanksOk, TagsOk, TrieOk,
           NodesOk;
      Parts(mem.fd, mem.bk, mem.left, mem.right, mem.parent, mem.index, chunks, net.ring, net.anchor, net.rank,
            net.clock, net.trie, net.pos, x);
      assert LinkedAt(mem.fd, mem.bk, net.ring, x);
      if mem.bk.At(x) != x {
        LargeLeft(mem.fd, mem.bk, chunks, net.ring, net.anchor, net.rank, net.clock, x);
      }
    }

    lemma TreeOfLarge(x: int)
      requires Valid() && x in chunks && chunks[x] >= MIN_LARGE
      ensures TreeIntact(x)
    {
      hide ListsOk, TreesOk, SmallMapOk, TreeMapOk, ChunksOk, MembersOk, RanksOk, RingsOk, TrieOk, NodesOk, TreeIndex,
           Field.At;
      ghost var ring, anchor, trie, pos := net.ring, net.anchor, net.trie, net.pos;
      Parts(mem.fd, mem.bk, mem.left, mem.right, mem.parent, mem.index, chunks, ring, anchor, net.rank, net.clock, trie,
            pos, x);
      BeforeUnlink(mem.fd, mem.bk, mem.left, mem.right, mem.parent, mem.index, chunks, ring, anchor, net.rank,
                   net.clock, trie, pos, x);
      if x == anchor[ring[x]] {
        ghost var k := pos[x];
        NodeLinks(mem.left, mem.right, mem.parent, trie, k);
        ChildLinks(mem.left, mem.right, mem.parent, chunks, ring, anchor, trie, pos, k, 0);
        ChildLinks(mem.left, mem.right, mem.parent, chunks, ring, anchor, trie, pos, k, 1);
        if k >= 64 {
          NodeLinks(mem.left, mem.right, mem.parent, trie, k / 2);
          NodeFacts(chunks, ring, anchor, trie, pos, k / 2);
        }
      }
    }

    /** `unlink_large_chunk`; the links it checks on the way are always intact. */
    method UnlinkLarge(x: int)
      requires Valid() && Linked() && x in chunks && chunks[x] >= MIN_LARGE
      modifies this, mem`fd, mem`bk, mem`left, mem`right, mem`parent, mem`data
      ensures Valid() && Linked() && chunks == old(chunks) - {x}
      ensures OnlyFreeBytes(old(mem.data), mem.data, old(chunks))
      ensures net.rank == old(net.rank) && net.clock == old(net.clock)
    {
      hide ListsOk, TreesOk, LinksWhole, Spaced, CoherentWith, HasWord, Bytes.SetWord, OffsetOf, RootsOk, SmallMapOk,
           TreeMapOk, Field.At, OnlyFreeBytes;
      LargeLinks(x);
      assert mem.bk.At(mem.fd.At(x)) == x && mem.fd.At(mem.bk.At(x)) == x;
      assert TreeIntact(x);
      if mem.bk.At(x) == x {
        UnlinkLastOfSize(x);
      } else if mem.parent.At(x) != 0 {
        UnlinkNodeWithHeir(x);
      } else {
        UnlinkFromRing(x);
      }
    }

    // ----- any chunk

    /** `insert_chunk`. */
    method Insert(p: int, s: nat)
      requires Valid() && Linked() && HeadsAgree() && p > 0 && p !in chunks && Spaced(chunks[p := s]) && IsChunkSize(s)
      modifies this, mem`fd, mem`bk, mem`left, mem`right, mem`parent, mem`index, mem`data
      ensures Valid() && Linked() && chunks == old(chunks)[p := s]
      ensures OnlyFreeBytes(old(mem.data), mem.data, chunks)
      ensures CameLast(old(net), net, p)
    {
      hide ListsOk, TreesOk, LinksWhole, Spaced, CoherentWith, HasWord, Bytes.SetWord, OffsetOf, RootsOk, SmallMapOk,
           TreeMapOk, OnlyFreeBytes;
      if IsSmall(s) {
        InsertSmall(p, s);
      } else {
        InsertLarge(p, s);
      }
    }

    /** `unlink_chunk`. */
    method Unlink(p: int, s: nat)
      requires Valid() && Linked() && p in chunks && chunks[p] == s
      modifies this, mem`fd, mem`bk, mem`left, mem`right, mem`parent, mem`data
      ensures Valid() && Linked() && chunks == old(chunks) - {p}
      ensures OnlyFreeBytes(old(mem.data), mem.data, old(chunks))
      ensures net.rank == old(net.rank) && net.clock == old(net.clock)
    {
      hide ListsOk, TreesOk, LinksWhole, Spaced, CoherentWith, HasWord, Bytes.SetWord, OffsetOf, RootsOk, SmallMapOk,
           TreeMapOk, OnlyFreeBytes;
      if IsSmall(s) {
        UnlinkSmall(p, s);
      } else {
        UnlinkLarge(p);
      }
    }
  }
}
