/** Giving blocks back together or one by one comes to the same heap. */
module Bulk {
  import opened Sizes
  import opened Memory
  import opened Bins
  import opened Layout
  import opened Heap
  import opened System
  import opened Steps
  import opened Words
  import opened Blocks
  import opened Tiling
  import opened Malloc

  /** Which blocks of segments remain, and that their chunks are as they were. */
  lemma LeftInSegments(g: Ghost, g': Ghost, H: set<int>, gone: set<int>, d: Bytes, d': Bytes)
    requires Keeps(g, g', H - gone, d, d') && g.live <= H && g'.live <= H - gone
    requires (forall q | q in g.live :: q in g.C) && (forall q | q in g'.live :: q in g'.C)
             && (forall q | q in g.maps :: q !in g.live)
    ensures g'.live == g.live - gone && forall q | q in g'.live :: q in g.C && q in g'.C && g'.C[q] == g.C[q]
  {
    forall q ensures q in g'.live <==> q in g.live && q !in gone {
      if q in H - gone {
        assert SameBlock(g, g', q, d, d');
      }
    }
    forall q | q in g'.live ensures q in g.C && q in g'.C && g'.C[q] == g.C[q] {
      assert SameBlock(g, g', q, d, d');
    }
  }

  /** Two heaps have the same segments and the same chunks handed out. */
  ghost predicate SameHoldings(h: MallocState, k: MallocState)
    reads h, k
  {
    && h.segs == k.segs && h.g.live == k.g.live && h.Held() == k.Held()
    && forall q | q in h.g.live :: q in h.g.C && q in k.g.C && h.g.C[q] == k.g.C[q]
  }

  /** Then they have the same layout, `top` and free chunks. */
  lemma SameHeap(h: MallocState, k: MallocState)
    requires h.Valid() && k.Valid() && SameHoldings(h, k)
    ensures h.g.C == k.g.C && h.top == k.top && h.topsize == k.topsize
    ensures Pool(h.bins.chunks, h.dv, h.dvsize) == Pool(k.bins.chunks, k.dv, k.dvsize)
  {
    hide ViewsOk, Whole, CoherentWith, Spaced, Bins.Valid;
    LayoutDetermined(k.g, k.mem.head, k.mem.foot, k.top, k.topsize, Pool(k.bins.chunks, k.dv, k.dvsize),
                     h.g, h.mem.head, h.mem.foot, h.top, h.topsize, Pool(h.bins.chunks, h.dv, h.dvsize), h.segs);
  }

  /** One heap gives back the blocks of `a` together, another one those of `s` one by one, where `s` lists the same
      blocks in any order.  If the heaps held the same chunks before, they have the same layout afterwards: the same
      tiling, the same `top` and the same free chunks. */
  method TogetherOrOneByOne(h: MallocState, k: MallocState, a: array<int>, s: seq<int>)
    requires h.Valid() && k.Valid() && h != k && h.mem != k.mem && h.bins != k.bins && h.sys != k.sys
             && SameHoldings(h, k)
    requires NoneTwice(a[..]) && NoneTwice(s) && ChunksOf(a[..]) == ChunksOf(s) && ChunksOf(s) <= h.Held()
    modifies a, h, h.mem, h.bins, h.sys, k, k.mem, k.bins, k.sys
    ensures h.Valid() && k.Valid() && h.g.C == k.g.C && h.top == k.top && h.topsize == k.topsize
    ensures Pool(h.bins.chunks, h.dv, h.dvsize) == Pool(k.bins.chunks, k.dv, k.dvsize)
  {
    hide MallocState.Valid, Keeps, ChunksOf, NoneTwice;
    ghost var H, gone := h.Held(), ChunksOf(s);
    h.LiveInLayout();
    k.LiveInLayout();
    h.MapsNotLive();
    k.MapsNotLive();
    h.BulkLoop(a);
    h.LiveInLayout();
    h.MapsNotLive();
    LeftInSegments(old(h.g), h.g, H, gone, old(h.mem.data), h.mem.data);
    k.DisposeEach(s);
    k.LiveInLayout();
    k.MapsNotLive();
    LeftInSegments(old(k.g), k.g, H, gone, old(k.mem.data), k.mem.data);
    SameHeap(h, k);
  }
}
