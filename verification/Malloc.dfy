/** `malloc_state`: the allocator itself. */
module Malloc {
  import opened Bitmap
  import opened Sizes
  import opened Slots
  import opened Memory
  import opened BinNet
  import opened Bins
  import opened Search
  import opened Layout
  import opened Heap
  import opened System
  import opened Books
  import opened Steps
  import opened Words
  import opened Regions
  import opened Segments
  import opened Release
  import opened Ledger
  import opened Blocks
  import opened Resize
  import opened Align

  const MAX_RELEASE_CHECK_RATE: nat := 4095

  /** The chunk that `malloc` gives `internal_memalign` to work in was free before, has 16 bytes more than needed, and
      its aligned place is the one farthest in. */
  ghost predicate LeavesExcess(F: map<int, nat>, from: int, a: nat, bytes: nat)
    requires a > 0 && bytes < WORD_RANGE
  {
    from in F && F[from] == WithRoom(bytes, a) + 16 && (from + 32) % a == 0
  }

  /** An aligned chunk is tight exactly if the chunk it was cut from does not leave an excess. */
  lemma AlignedSnug(g: Ghost, q: int, F: map<int, nat>, fresh0: bool, from: nat, a: nat, k: nat, bytes: nat, size: nat)
    requires a == Pow2(k) && 5 <= k && bytes < MAX_REQUEST && IsAligned(from) && IsAligned(size)
    requires size == (if fresh0 then WithRoom(bytes, a) else CutTo(F, from, WithRoom(bytes, a)))
             && WithRoom(bytes, a) <= size < WithRoom(bytes, a) + MIN_CHUNK
    requires q in g.live && HasSize(g, q, KeptOf(size - (PlaceFor(from, a) - from), Request2Size(bytes)))
    ensures a > 0 && (Snug(g, q, Request2Size(bytes)) <==> fresh0 || !LeavesExcess(F, from, a, bytes))
    ensures q in g.C && Request2Size(bytes) <= g.C[q].size <= Request2Size(bytes) + MIN_CHUNK
  {
    hide Pow2, PlaceFor, Request2Size;
    PowerOfSixteen(k);
    PaddingFits(bytes);
    ExcessIff(from, a, k, Request2Size(bytes), size);
  }

  lemma RequestOfRoom(bytes: nat, a: nat)
    requires a >= 32 && IsAligned(a) && bytes + a < MAX_REQUEST
    ensures var req := WithRoom(bytes, a) - CHUNK_OVERHEAD;
            0 <= req < WORD_RANGE && (req < MAX_REQUEST ==> Request2Size(req) == WithRoom(bytes, a))
  {
    hide Request2Size;
    PaddingFits(bytes);
    SizeBound(bytes);
    if WithRoom(bytes, a) - CHUNK_OVERHEAD < MAX_REQUEST {
      RequestOfSize(Request2Size(bytes), a);
    }
  }

  /** In a segment, the chunk at `q` is what is kept of the chunk that began at `p`. */
  ghost predicate CutFrom(g: Ghost, g': Ghost, p: int, q: int, nb: nat) {
    q in g'.live ==> p in g.C && HasSize(g', q, KeptOf(g.C[p].size - (q - p), nb))
  }

  /** One check less, in size_t arithmetic. */
  function ChecksLess(checks: nat): nat {
    if checks == 0 then WORD_RANGE - 1 else checks - 1
  }

  predicate IsSmallSize(size: int) {
    size < MIN_LARGE
  }

  /** `mmap_resize` keeps a mapped chunk of `size` bytes. */
  predicate MayKeep(size: int, nb: nat, unit: nat) {
    !IsSmall(nb) && nb + 8 <= size <= nb + 2 * unit % WORD_RANGE
  }

  /** A state of the allocator, as far as a request for memory from the system goes by it. */
  datatype Snapshot = Snapshot(g: Ghost, data: Bytes, segs: seq<Seg>, top: int, topsize: nat, mapped: seq<Region>,
                               refusals: nat, footprint: nat, trimCheck: nat, releaseChecks: nat)

  class MallocState {
    const mem: Memory
    const bins: Bins
    const sys: System
    var dv: int
    var dvsize: nat
    var top: int
    var topsize: nat
    var segs: seq<Seg>
    var leastAddr: int
    var trimCheck: nat
    var releaseChecks: nat
    var footprint: nat
    var maxFootprint: nat
    var footprintLimit: nat
    var granularity: nat
    var mmapThreshold: nat
    var trimThreshold: nat

    ghost var g: Ghost

    /** Mapped chunks that were given back but that the system did not take. */
    ghost var lost: set<int>

    /** The views of the heap agree, with `F` the free chunks besides `top`, and all words they rest on are whole. */
    ghost predicate Views(F: map<int, nat>)
      reads this, mem, bins
    {
      && bins.mem == mem && mem.Coherent() && Spaced(bins.chunks)
      && ViewsOk(g.C, mem.head, mem.foot, segs, top, topsize, F, g.live, g.maps)
      && Whole(g, mem.head, F, bins.chunks, bins.net.ring, mem.data)
    }

    /** The heap itself: what `do_check_malloc_state` checks, apart from the footprint. */
    ghost predicate Core()
      reads this, mem, bins
    {
      bins.mem == mem && bins.Valid() && DvOk(bins.chunks, dv, dvsize) && Views(Pool(bins.chunks, dv, dvsize))
    }

    ghost predicate ParamsOk()
      reads this
    {
      0 < granularity < WORD_RANGE && granularity % PAGE == 0 && footprintLimit < WORD_RANGE
    }

    ghost predicate Valid()
      reads this, mem, bins, sys
    {
      Core() && ParamsOk() && BooksOk(segs, g.maps, sys.mapped, footprint, maxFootprint, leastAddr)
      && lost <= g.maps.Keys
    }

    /** The chunks whose blocks callers hold. */
    ghost function Held(): set<int>
      reads this
    {
      g.live + (g.maps.Keys - lost)
    }

    /** A heap that holds nothing yet. */
    constructor (m: Memory, s: System, unit: nat)
      requires m.Coherent() && s.mapped == [] && 0 < unit < WORD_RANGE && unit % PAGE == 0
      ensures Valid() && g.live == {} && g.maps == map[] && lost == {} && mem == m && sys == s && fresh(bins)
      ensures segs == [] && bins.chunks == map[] && dvsize == 0 && topsize == 0 && footprint == footprintLimit == 0
              && granularity == unit
    {
      hide ViewsOk, Whole, LinksWhole, CoherentWith, Spaced, BooksOk, Bins.Valid, Pool, DvOk;
      mem, sys := m, s;
      bins := new Bins(m);
      dv, dvsize, top, topsize, segs, leastAddr := 0, 0, 0, 0, [], 0;
      trimCheck, releaseChecks, footprint, maxFootprint, footprintLimit := 0, 0, 0, 0, 0;
      granularity, mmapThreshold, trimThreshold := unit, 256 * 1024, 2 * 1024 * 1024;
      g, lost := Ghost(map[], {}, map[]), {};
      new;
      NothingYet(mem.head, mem.foot, mem.data, bins.net.ring);
    }

    // ----- handing out free chunks

    /** A free chunk `p` of `s` bytes is handed out as a whole. */
    method TakeWhole(p: int, s: nat, ghost F: map<int, nat>)
      requires Views(F) && p in F && F[p] == s && p !in bins.chunks
      modifies mem`head, mem`data, this`g
      ensures Views(F - {p})
      ensures g.live == old(g.live) + {p} && p !in old(g.live) && p in g.C && g.C[p] == Chunk(s, Used)
      ensures Undisturbed(old(g), g, old(g.live), old(mem.data), mem.data)
    {
      hide ViewsOk, WordsOk, LinksWhole, CoherentWith, Spaced, HasWord, Undisturbed, Ghost1, Heads.Set, Heads.At,
           TagBytes, HeadBytes;
      FreeIsBig(g, mem.head, mem.foot, segs, top, topsize, F, p);
      mem.SetInuseAndPinuse(p, s);
      HeadsAreTags(old(mem.data), mem.data, p, p + s);
      TookWhole(g, old(mem.head), mem.head, mem.foot, segs, top, topsize, F, p, s, old(mem.data), mem.data, bins.chunks,
                bins.net.ring);
      g := Ghost1(g, p, p + s, Used);
    }

    /** The first `nb` bytes of a free chunk `p` of `s` bytes are handed out; the rest stays free. */
    method TakeFront(p: int, s: nat, nb: nat, ghost F: map<int, nat>)
      requires Views(F) && p in F && F[p] == s && p !in bins.chunks && MIN_CHUNK <= nb && nb + MIN_CHUNK <= s
               && IsAligned(nb)
      modifies mem`head, mem`foot, mem`data, this`g
      ensures Views((F - {p})[p + nb := s - nb]) && p + nb !in F
      ensures g.live == old(g.live) + {p} && p !in old(g.live) && p in g.C && g.C[p] == Chunk(nb, Used)
      ensures Undisturbed(old(g), g, old(g.live), old(mem.data), mem.data)
    {
      hide ViewsOk, WordsOk, LinksWhole, CoherentWith, Spaced, HasWord, Undisturbed, Ghost2, Heads.Set, Heads.At,
           Field.Set, Field.At, TagBytes;
      mem.SetFrontInuse(p, nb, s);
      TookFront(g, old(mem.head), mem.head, old(mem.foot), mem.foot, segs, top, topsize, F, p, nb, s, old(mem.data),
                mem.data, bins.chunks, bins.net.ring);
      g := Ghost2(g, p, p + nb, p + s, Used, Kind.Free);
    }

    /** The first `nb` bytes of `top` are handed out. */
    method TakeFromTop(nb: nat, ghost F: map<int, nat>) returns (p: int)
      requires Views(F) && top != 0 && MIN_CHUNK <= nb < topsize && IsAligned(nb)
      modifies this`top, this`topsize, mem`head, mem`data, this`g
      ensures Views(F) && p == old(top) && top == p + nb && topsize == old(topsize) - nb
      ensures g.live == old(g.live) + {p} && p !in old(g.live) && p in g.C && g.C[p] == Chunk(nb, Used)
      ensures Undisturbed(old(g), g, old(g.live), old(mem.data), mem.data)
    {
      hide ViewsOk, WordsOk, LinksWhole, CoherentWith, Spaced, HasWord, Undisturbed, Ghost2, Heads.Set, Heads.At,
           Field.Set, Field.At, TagBytes;
      p := top;
      var rsize := topsize - nb;
      TopAligned(g, mem.head, mem.foot, segs, top, topsize, F, nb);
      mem.SetTopFront(p, nb, topsize);
      TookFromTop(g, old(mem.head), mem.head, mem.foot, segs, top, topsize, F, nb, old(mem.data), mem.data, bins.chunks,
                  bins.net.ring);
      g := Ghost2(g, p, p + nb, p + topsize, Used, Top);
      top, topsize := p + nb, rsize;
    }

    // ----- taking chunks back

    /** Chunk `p` and what comes before it, from `lo` on, join `top`. */
    method JoinTop(p: int, lo: int, size: nat, ghost F: map<int, nat>)
      requires Views(F) && p in g.live && Joins(g.C, mem.head, mem.foot, p, lo, top + topsize, Top) && size == top - lo
               && size > 0 && top != 0 && lo !in bins.chunks
      modifies this`top, this`topsize, mem`head, mem`data, this`g
      ensures Views(F - {lo}) && top == lo && topsize == old(topsize) + size
      ensures g.live == old(g.live) - {p} && Undisturbed(old(g), g, old(g.live) - {p}, old(mem.data), mem.data)
    {
      hide ViewsOk, WordsOk, LinksWhole, CoherentWith, Spaced, HasWord, Undisturbed, Ghost1, Joins, TagBytes, HeadBytes;
      ghost var hi := top + topsize;
      JoinTopFacts(g, mem.head, mem.foot, segs, top, topsize, F, p, lo);
      JoinIsBig(g, mem.head, mem.foot, segs, top, topsize, F, p, lo, hi, Top);
      var tsize := topsize + size;
      OneHead(mem.data, lo, Head(tsize, true, false).Word());
      mem.SetHead(lo, Head(tsize, true, false));
      HeadsInRow(old(mem.data), mem.data, lo, lo, lo, hi, hi);
      TopNotBinned(g, old(mem.head), mem.foot, segs, top, topsize, F, bins.chunks, bins.net.ring, old(mem.data));
      Released(g, old(mem.head), mem.head, mem.foot, mem.foot, segs, top, topsize, F, p, lo, hi, Top, old(mem.data),
               mem.data, bins.chunks, bins.net.ring);
      g := Ghost1(g, lo, hi, Top);
      topsize, top := tsize, lo;
    }

    /** Chunk `p` and its free neighbours become one free chunk of `size` bytes at `lo`. */
    method JoinFree(p: int, lo: int, size: nat, ghost F: map<int, nat>)
      requires Views(F) && p in g.live && Joins(g.C, mem.head, mem.foot, p, lo, lo + size, Kind.Free) && size > 0
      requires lo !in bins.chunks && p + mem.head.At(p).size !in bins.chunks
      modifies mem`head, mem`foot, mem`data, this`g
      ensures p in old(g.C) && Views((F - {lo} - {p + old(g.C[p].size)})[lo := size])
      ensures g.live == old(g.live) - {p} && Undisturbed(old(g), g, old(g.live) - {p}, old(mem.data), mem.data)
    {
      hide ViewsOk, WordsOk, LinksWhole, CoherentWith, Spaced, HasWord, Undisturbed, Ghost1, TagBytes, FreeBytes, Joins;
      JoinIsBig(g, mem.head, mem.foot, segs, top, topsize, F, p, lo, lo + size, Kind.Free);
      Surroundings(g, mem.head, mem.foot, segs, top, topsize, F, p);
      mem.SetFreeWithPinuse(lo, size);
      Released(g, old(mem.head), mem.head, old(mem.foot), mem.foot, segs, top, topsize, F, p, lo, lo + size, Kind.Free,
               old(mem.data), mem.data,
               bins.chunks, bins.net.ring);
      g := Ghost1(g, lo, lo + size, Kind.Free);
    }

    /** The same where the next chunk was free: the PINUSE bit behind it is clear already. */
    method JoinNextFree(p: int, lo: int, size: nat, ghost F: map<int, nat>)
      requires Views(F) && p in g.live && Joins(g.C, mem.head, mem.foot, p, lo, lo + size, Kind.Free) && size > 0
               && !mem.head.At(lo + size).pinuse
      requires lo !in bins.chunks && p + mem.head.At(p).size !in bins.chunks
      modifies mem`head, mem`foot, mem`data, this`g
      ensures p in old(g.C) && Views((F - {lo} - {p + old(g.C[p].size)})[lo := size])
      ensures g.live == old(g.live) - {p} && Undisturbed(old(g), g, old(g.live) - {p}, old(mem.data), mem.data)
    {
      hide ViewsOk, WordsOk, LinksWhole, CoherentWith, Spaced, HasWord, Undisturbed, Ghost1, TagBytes, FreeBytes, Joins;
      JoinIsBig(g, mem.head, mem.foot, segs, top, topsize, F, p, lo, lo + size, Kind.Free);
      Surroundings(g, mem.head, mem.foot, segs, top, topsize, F, p);
      mem.SetFree(lo, size);
      Released(g, old(mem.head), mem.head, old(mem.foot), mem.foot, segs, top, topsize, F, p, lo, lo + size, Kind.Free,
               old(mem.data), mem.data,
               bins.chunks, bins.net.ring);
      g := Ghost1(g, lo, lo + size, Kind.Free);
    }

    /** Joining `p` with a chunk in use after it: the free chunk at `lo` goes into a bin. */
    method BinJoined(p: int, lo: int, size: nat, ghost F: map<int, nat>)
      requires bins.mem == mem && bins.Valid() && Views(F) && p in g.live && Apart(F, lo, bins.chunks, dv, dvsize)
               && lo != dv
      requires lo == Before(mem.head, mem.foot, p) && p + mem.head.At(p).size == lo + size
               && mem.head.At(lo + size).cinuse
      modifies mem, bins, this`g
      ensures Core() && g.live == old(g.live) - {p}
              && Undisturbed(old(g), g, old(g.live) - {p}, old(mem.data), mem.data)
    {
      hide ViewsOk, WordsOk, LinksWhole, CoherentWith, Spaced, HasWord, Undisturbed, Bins.Valid, OnlyFreeBytes, Joins;
      Surroundings(g, mem.head, mem.foot, segs, top, topsize, F, p);
      JoinFree(p, lo, size, F);
      ghost var g1, d1, F1 := g, mem.data, (F - {lo} - {lo + size})[lo := size];
      ApartJoined(F, lo, size, lo + size, bins.chunks, dv, dvsize);
      InsertJoined(lo, size, F1);
      UndisturbedTrans(old(g), g1, g, old(g.live) - {p}, g1.live, old(g.live) - {p}, old(mem.data), d1, mem.data);
    }

    /** A free chunk that is in no bin yet goes into one. */
    method InsertJoined(p: int, size: nat, ghost F: map<int, nat>)
      requires bins.mem == mem && bins.Valid() && Views(F) && p in F && F[p] == size
               && Apart(F, p, bins.chunks, dv, dvsize) && dv != p
      modifies bins, mem`fd, mem`bk, mem`left, mem`right, mem`parent, mem`index, mem`data
      ensures Core() && Undisturbed(g, g, g.live, old(mem.data), mem.data)
    {
      hide ViewsOk, WordsOk, LinksWhole, CoherentWith, Spaced, HasWord, Undisturbed, Bins.Valid, OnlyFreeBytes,
           IsChunkSize;
      FreeHeads(g, mem.head, mem.foot, segs, top, topsize, F);
      ghost var B := bins.chunks;
      PoolInsert(F, p, size, B, dv, dvsize);
      PoolSpaced(g, mem.head, mem.foot, segs, top, topsize, F, B[p := size]);
      bins.Insert(p, size);
      BinsKept(g, mem.head, mem.foot, segs, top, topsize, F, bins.chunks, old(mem.data), mem.data, B, bins.chunks);
    }

    /** Joining `p` with `top` after it. */
    method TopJoined(p: int, lo: int, size: nat, ghost F: map<int, nat>)
      requires bins.mem == mem && bins.Valid() && Views(F) && p in g.live && Apart(F, lo, bins.chunks, dv, dvsize)
      requires lo == Before(mem.head, mem.foot, p) && p + mem.head.At(p).size == lo + size == top
      modifies mem`head, mem`data, this`dv, this`dvsize, this`top, this`topsize, this`g
      ensures Core() && g.live == old(g.live) - {p}
              && Undisturbed(old(g), g, old(g.live) - {p}, old(mem.data), mem.data)
      ensures top == lo && topsize == old(topsize) + size
      ensures if lo == old(dv) then dv == 0 && dvsize == 0 else dv == old(dv) && dvsize == old(dvsize)
    {
      hide ViewsOk, WordsOk, LinksWhole, CoherentWith, Spaced, HasWord, Undisturbed, Bins.Valid, Joins;
      Surroundings(g, mem.head, mem.foot, segs, top, topsize, F, p);
      PoolWithout(F, lo, bins.chunks, dv, dvsize);
      JoinTop(p, lo, size, F);
      if lo == dv {
        dv, dvsize := 0, 0;
      }
    }

    /** Joining `p` with the designated victim, after it or before it. */
    method VictimJoined(p: int, lo: int, size: nat, ghost F: map<int, nat>)
      requires bins.mem == mem && bins.Valid() && Views(F) && p in g.live && Apart(F, lo, bins.chunks, dv, dvsize)
               && dv != top && dvsize > 0
      requires lo == Before(mem.head, mem.foot, p) && p + mem.head.At(p).size == lo + size == dv
      modifies mem`head, mem`foot, mem`data, this`dv, this`dvsize, this`g
      ensures Core() && g.live == old(g.live) - {p}
              && Undisturbed(old(g), g, old(g.live) - {p}, old(mem.data), mem.data)
      ensures dv == lo && dvsize == old(dvsize) + size
    {
      hide ViewsOk, WordsOk, LinksWhole, CoherentWith, Spaced, HasWord, Undisturbed, Bins.Valid, Joins;
      Surroundings(g, mem.head, mem.foot, segs, top, topsize, F, p);
      var dsize := dvsize + size;
      PoolVictim(F, lo, dsize, dv, bins.chunks, dv, dvsize);
      JoinNextFree(p, lo, dsize, F);
      dvsize := dsize;
      dv := lo;
    }

    /** Joining `p` with the designated victim before it and a chunk in use after it. */
    method VictimGrown(p: int, size: nat, ghost F: map<int, nat>)
      requires bins.mem == mem && bins.Valid() && Views(F) && p in g.live && Apart(F, dv, bins.chunks, dv, dvsize)
      requires dv == Before(mem.head, mem.foot, p) && p + mem.head.At(p).size == dv + size
               && mem.head.At(dv + size).cinuse
      modifies mem`head, mem`foot, mem`data, this`dv, this`dvsize, this`g
      ensures Core() && g.live == old(g.live) - {p}
              && Undisturbed(old(g), g, old(g.live) - {p}, old(mem.data), mem.data)
      ensures dv == old(dv) && dvsize == size
    {
      hide ViewsOk, WordsOk, LinksWhole, CoherentWith, Spaced, HasWord, Undisturbed, Bins.Valid, Joins;
      Surroundings(g, mem.head, mem.foot, segs, top, topsize, F, p);
      PoolVictim(F, dv, size, dv + size, bins.chunks, dv, dvsize);
      JoinFree(p, dv, size, F);
      dvsize := size;
    }

    /** A binned chunk leaves its bin. */
    method UnlinkBinned(n: int, s: nat, ghost F: map<int, nat>)
      requires bins.mem == mem && bins.Valid() && Views(F) && n in bins.chunks && bins.chunks[n] == s
               && (forall q | q in bins.chunks :: q in F && F[q] == bins.chunks[q])
      modifies bins, mem`fd, mem`bk, mem`left, mem`right, mem`parent, mem`data
      ensures bins.Valid() && bins.chunks == old(bins.chunks) - {n} && Views(F)
              && Undisturbed(g, g, g.live, old(mem.data), mem.data)
    {
      hide ViewsOk, WordsOk, LinksWhole, CoherentWith, Spaced, HasWord, Undisturbed, Bins.Valid, OnlyFreeBytes;
      bins.Unlink(n, s);
      BinsKept(g, mem.head, mem.foot, segs, top, topsize, F, old(bins.chunks), old(mem.data), mem.data,
               old(bins.chunks), bins.chunks);
    }

    /** Joining `p` with a binned chunk after it. */
    method NextJoined(p: int, lo: int, size: nat, ghost F: map<int, nat>)
      requires bins.mem == mem && bins.Valid() && Views(F) && p in g.live && Apart(F, lo, bins.chunks, dv, dvsize)
      requires lo == Before(mem.head, mem.foot, p) && p + mem.head.At(p).size == lo + size && lo + size in bins.chunks
      modifies mem, bins, this`dv, this`dvsize, this`g
      ensures Core() && g.live == old(g.live) - {p}
              && Undisturbed(old(g), g, old(g.live) - {p}, old(mem.data), mem.data)
      ensures dv == old(dv) && dvsize == if lo == dv then size + old(bins.chunks[lo + size]) else old(dvsize)
    {
      hide ViewsOk, WordsOk, LinksWhole, CoherentWith, Spaced, HasWord, Undisturbed, Bins.Valid, Joins, Apart;
      Surroundings(g, mem.head, mem.foot, segs, top, topsize, F, p);
      var next := lo + size;
      ApartUnlinked(F, lo, next, bins.chunks, dv, dvsize);
      var nsize := mem.head.At(next).size;
      var psize := size + nsize;
      UnlinkBinned(next, nsize, F);
      ghost var d1 := mem.data;
      JoinNextFree(p, lo, psize, F);
      ghost var g2, d2 := g, mem.data;
      UndisturbedTrans(old(g), old(g), g2, old(g.live), old(g.live) - {p}, old(g.live) - {p}, old(mem.data), d1, d2);
      assert F - {lo} - {next} == F - {next} - {lo} - {next};
      if lo == dv {
        PoolVictim(F - {next}, lo, psize, next, bins.chunks, dv, dvsize);
        dvsize := psize;
      } else {
        ApartJoined(F - {next}, lo, psize, next, bins.chunks, dv, dvsize);
        InsertJoined(lo, psize, (F - {next} - {lo} - {next})[lo := psize]);
        UndisturbedTrans(old(g), g2, g, old(g.live) - {p}, g2.live, old(g.live) - {p}, old(mem.data), d2, mem.data);
      }
    }

    /** Both neighbours of chunk `p` are in use. */
    ghost predicate BetweenUsed(p: int)
      reads this, mem
    {
      mem.head.At(p).pinuse && mem.head.At(p + mem.head.At(p).size).cinuse
    }

    /** `dispose_chunk` and the body of `_free`: the chunk at `p` is given back and joined with its free
        neighbours.  Tells where it went. */
    method Consolidate(p: int) returns (into: Place, size: nat)
      requires Core() && p in g.live
      modifies mem, bins, this`dv, this`dvsize, this`top, this`topsize, this`g
      ensures old(BetweenUsed(p)) ==> into == InBin && size == old(mem.head.At(p).size)
      ensures Core() && g.live == old(g.live) - {p}
              && Undisturbed(old(g), g, old(g.live) - {p}, old(mem.data), mem.data)
      ensures JoinsInto(old(Before(mem.head, mem.foot, p)), old(p + mem.head.At(p).size),
                        Pool(old(bins.chunks), old(dv), old(dvsize)), old(top), old(topsize), old(dv), old(dvsize),
                        into,
                        size, top, topsize, dv, dvsize)
    {
      hide ViewsOk, WordsOk, LinksWhole, CoherentWith, Spaced, HasWord, Undisturbed, Bins.Valid, Joins, Apart,
           OnlyFreeBytes;
      ghost var F := Pool(bins.chunks, dv, dvsize);
      Surroundings(g, mem.head, mem.foot, segs, top, topsize, F, p);
      size := mem.head.At(p).size;
      var next, lo := p + size, p;
      PoolUnlinked(F, Before(mem.head, mem.foot, p), bins.chunks, dv, dvsize);
      if !mem.head.At(p).pinuse {
        var prevsize := mem.foot.At(p);
        lo, size := p - prevsize, size + prevsize;
        if lo != dv {
          UnlinkBinned(lo, prevsize, F);
        } else if mem.head.At(next).pinuse && mem.head.At(next).cinuse {
          VictimGrown(p, size, F);
          return InVictim, size;
        }
      }
      ghost var d1 := mem.data;
      into, size := ConsolidateForward(p, lo, size, F);
      if lo != p && lo != old(dv) {
        UndisturbedTrans(old(g), old(g), g, old(g.live), g.live, g.live, old(mem.data), d1, mem.data);
      }
    }

    method ConsolidateForward(p: int, lo: int, psize: nat, ghost F: map<int, nat>) returns (into: Place, size: nat)
      requires bins.mem == mem && bins.Valid() && Views(F) && p in g.live && Apart(F, lo, bins.chunks, dv, dvsize)
      requires lo == Before(mem.head, mem.foot, p) && p + mem.head.At(p).size == lo + psize
      requires lo == dv ==> !mem.head.At(lo + psize).cinuse
      modifies mem, bins, this`dv, this`dvsize, this`top, this`topsize, this`g
      ensures old(mem.head.At(lo + psize).cinuse) ==> into == InBin && size == psize
      ensures Core() && g.live == old(g.live) - {p}
              && Undisturbed(old(g), g, old(g.live) - {p}, old(mem.data), mem.data)
      ensures JoinsInto(lo, lo + psize, F, old(top), old(topsize), old(dv), old(dvsize), into, size, top, topsize, dv,
                        dvsize)
    {
      hide ViewsOk, WordsOk, LinksWhole, CoherentWith, Spaced, HasWord, Undisturbed, Bins.Valid, Joins, OnlyFreeBytes;
      var next := lo + psize;
      Surroundings(g, mem.head, mem.foot, segs, top, topsize, F, p);
      size := psize;
      if !mem.head.At(next).cinuse {
        if next == top {
          TopJoined(p, lo, psize, F);
          return InTop, topsize;
        } else if next == dv {
          VictimJoined(p, lo, psize, F);
          return InVictim, dvsize;
        } else {
          size := size + mem.head.At(next).size;
          into := if lo == dv then InVictim else InBin;
          NextJoined(p, lo, psize, F);
        }
      } else {
        BinJoined(p, lo, psize, F);
        into := InBin;
      }
    }

    // ----- handing out binned chunks

    /** `replace_dv`: `r` becomes the designated victim, and the old one, which is small, goes into a bin. */
    method ReplaceVictim(r: int, rsize: nat, ghost F: map<int, nat>)
      requires bins.mem == mem && bins.Valid() && Views(F) && r in F && F[r] == rsize
               && Apart(F, r, bins.chunks, dv, dvsize) && r != dv && IsSmall(dvsize)
      modifies bins, mem`fd, mem`bk, mem`data, this`dv, this`dvsize
      ensures Core() && dv == r && dvsize == rsize && Undisturbed(g, g, g.live, old(mem.data), mem.data)
    {
      hide ViewsOk, WordsOk, LinksWhole, CoherentWith, Spaced, HasWord, Undisturbed, Bins.Valid, OnlyFreeBytes;
      FreeHeads(g, mem.head, mem.foot, segs, top, topsize, F);
      UndisturbedRefl(g, mem.head, mem.foot, segs, top, topsize, F, mem.data);
      PoolReplaced(F, r, rsize, bins.chunks, dv, dvsize);
      var dvs := dvsize;
      if dvs != 0 {
        PoolSpaced(g, mem.head, mem.foot, segs, top, topsize, F, bins.chunks[dv := dvs]);
        bins.InsertSmall(dv, dvs);
        BinsKept(g, mem.head, mem.foot, segs, top, topsize, F, bins.chunks, old(mem.data), mem.data, old(bins.chunks),
                 bins.chunks);
      }
      dvsize := rsize;
      dv := r;
    }

    /** The chunk `v`, just unlinked, serves a request of `nb` bytes; what remains of it becomes the designated
        victim or goes into a bin. */
    method GiveUnlinked(v: int, s: nat, nb: nat, toVictim: bool, ghost B: map<int, nat>)
      requires bins.mem == mem && bins.Valid() && DvOk(B, dv, dvsize) && Views(Pool(B, dv, dvsize))
               && bins.chunks == B - {v}
      requires v in B && B[v] == s && MIN_CHUNK <= nb <= s && IsAligned(nb)
               && (toVictim && nb + MIN_CHUNK <= s ==> IsSmall(dvsize))
      modifies mem, bins, this`dv, this`dvsize, this`g
      ensures Core() && Gave(old(g), g, v, nb, old(mem.data), mem.data)
              && HasSize(g, v, if s < nb + MIN_CHUNK then s else nb)
      ensures LeftOver(toVictim, v, s, nb, old(dv), old(dvsize), dv, dvsize)
    {
      hide ViewsOk, WordsOk, LinksWhole, CoherentWith, Spaced, HasWord, Undisturbed, Bins.Valid, Apart, OnlyFreeBytes;
      ghost var F := Pool(B, dv, dvsize);
      FreeHeads(g, mem.head, mem.foot, segs, top, topsize, F);
      PoolHolds(B, dv, dvsize);
      UndisturbedRefl(g, mem.head, mem.foot, segs, top, topsize, F, mem.data);
      var rsize := s - nb;
      if rsize < MIN_CHUNK {
        PoolTaken(F, v, B, dv, dvsize);
        TakeWhole(v, s, F);
      } else {
        TakeFront(v, s, nb, F);
        PoolSplit(F, v, v + nb, rsize, B, dv, dvsize);
        ghost var g1, d1 := g, mem.data;
        if toVictim {
          ReplaceVictim(v + nb, rsize, (F - {v})[v + nb := rsize]);
        } else {
          InsertJoined(v + nb, rsize, (F - {v})[v + nb := rsize]);
        }
        GaveAround(old(g), g1, g, v, nb, old(mem.data), old(mem.data), d1, mem.data);
      }
    }

    /** The first chunk of small bin `i` serves the request. */
    method GiveSmall(i: nat, nb: nat) returns (p: int)
      requires Core() && i < NBINS && 8 * i in bins.net.anchor && MIN_CHUNK <= nb <= 8 * i && IsAligned(nb)
               && (nb + MIN_CHUNK <= 8 * i ==> IsSmall(dvsize))
      modifies mem, bins, this`dv, this`dvsize, this`g
      ensures Core() && Gave(old(g), g, p, nb, old(mem.data), mem.data) && p in old(bins.chunks)
              && old(bins.chunks)[p] == 8 * i && HasSize(g, p, if 8 * i < nb + MIN_CHUNK then 8 * i else nb)
      ensures LeftOver(true, p, 8 * i, nb, old(dv), old(dvsize), dv, dvsize)
      ensures Newest(old(bins.chunks), old(bins.net.rank), p)
    {
      hide ViewsOk, WordsOk, LinksWhole, CoherentWith, Spaced, HasWord, Undisturbed, Bins.Valid, OnlyFreeBytes;
      ghost var B, F := bins.chunks, Pool(bins.chunks, dv, dvsize);
      PoolHolds(B, dv, dvsize);
      p := bins.UnlinkFirstSmall(i);
      ghost var d1 := mem.data;
      BinsKept(g, mem.head, mem.foot, segs, top, topsize, F, B, old(mem.data), d1, B, bins.chunks);
      GiveUnlinked(p, 8 * i, nb, true, B);
      UndisturbedTrans(old(g), old(g), g, old(g.live), old(g.live), old(g.live), old(mem.data), d1, mem.data);
    }

    /** The large chunk `v` serves the request. */
    method GiveLarge(v: int, s: nat, nb: nat, toVictim: bool)
      requires Core() && v in bins.chunks && bins.chunks[v] == s && MIN_LARGE <= s && MIN_CHUNK <= nb <= s
               && IsAligned(nb) && (toVictim ==> IsSmall(dvsize))
      modifies mem, bins, this`dv, this`dvsize, this`g
      ensures Core() && Gave(old(g), g, v, nb, old(mem.data), mem.data)
              && HasSize(g, v, if s < nb + MIN_CHUNK then s else nb)
      ensures LeftOver(toVictim, v, s, nb, old(dv), old(dvsize), dv, dvsize)
    {
      hide ViewsOk, WordsOk, LinksWhole, CoherentWith, Spaced, HasWord, Undisturbed, Bins.Valid, OnlyFreeBytes;
      ghost var B, F := bins.chunks, Pool(bins.chunks, dv, dvsize);
      PoolHolds(B, dv, dvsize);
      bins.UnlinkLarge(v);
      ghost var d1 := mem.data;
      BinsKept(g, mem.head, mem.foot, segs, top, topsize, F, B, old(mem.data), d1, B, bins.chunks);
      GiveUnlinked(v, s, nb, toVictim, B);
      UndisturbedTrans(old(g), old(g), g, old(g.live), old(g.live), old(g.live), old(mem.data), d1, mem.data);
    }

    /** The designated victim serves the request: split, or exhausted. */
    method GiveVictim(nb: nat) returns (p: int)
      requires Core() && MIN_CHUNK <= nb <= dvsize && IsAligned(nb)
      modifies mem, this`dv, this`dvsize, this`g
      ensures Core() && Gave(old(g), g, p, nb, old(mem.data), mem.data) && p == old(dv)
              && HasSize(g, p, if old(dvsize) < nb + MIN_CHUNK then old(dvsize) else nb)
      ensures if nb + MIN_CHUNK <= old(dvsize) then dv == p + nb && dvsize == old(dvsize) - nb else dv == 0 == dvsize
    {
      hide ViewsOk, WordsOk, LinksWhole, CoherentWith, Spaced, HasWord, Undisturbed, Bins.Valid, Apart;
      ghost var B, F := bins.chunks, Pool(bins.chunks, dv, dvsize);
      p := dv;
      var rsize := dvsize - nb;
      PoolVictimTaken(F, B, dv, dvsize);
      if rsize >= MIN_CHUNK {
        TakeFront(p, dvsize, nb, F);
        PoolVictimSplit(F, nb, rsize, B, dv, dvsize);
        dv, dvsize := p + nb, rsize;
      } else {
        TakeWhole(p, dvsize, F);
        dvsize, dv := 0, 0;
      }
    }

    method GiveTop(nb: nat) returns (p: int)
      requires Core() && MIN_CHUNK <= nb < topsize && IsAligned(nb)
      modifies mem`head, mem`data, this`top, this`topsize, this`g
      ensures Core() && Gave(old(g), g, p, nb, old(mem.data), mem.data) && p == old(top) && HasSize(g, p, nb)
      ensures topsize == old(topsize) - nb && top == old(top) + nb
    {
      hide ViewsOk, WordsOk, LinksWhole, CoherentWith, Spaced, HasWord, Undisturbed, Bins.Valid;
      TopPresent(g, mem.head, mem.foot, segs, top, topsize, Pool(bins.chunks, dv, dvsize));
      p := TakeFromTop(nb, Pool(bins.chunks, dv, dvsize));
    }

    /** The bins serve a small request, if they can do so better than the designated victim. */
    method MallocSmall(nb: nat) returns (p: int)
      requires Core() && IsChunkSize(nb) && nb < MIN_LARGE
      modifies mem, bins, this`dv, this`dvsize, this`g
      ensures Core() && (p != 0 ==> Gave(old(g), g, p, nb, old(mem.data), mem.data))
      ensures p == 0 ==>
              g == old(g) && mem.data == old(mem.data) && bins.chunks == old(bins.chunks) && dv == old(dv)
              && dvsize == old(dvsize)
      ensures p != 0 ==> BestBinned(old(bins.chunks), nb, p) && (old(dvsize) < nb || old(bins.chunks)[p] == nb)
      ensures p != 0 ==> HasSize(g, p, CutTo(old(bins.chunks), p, nb))
      ensures p == 0 ==> NoneOf(bins.chunks, nb) && (nb <= dvsize || NoneFits(bins.chunks, nb))
      ensures p != 0 ==> LeftOver(true, p, old(bins.chunks)[p], nb, old(dv), old(dvsize), dv, dvsize)
      ensures p != 0 ==> NextInTurn(old(bins.chunks), old(bins.net.rank), p)
    {
      hide ViewsOk, WordsOk, LinksWhole, CoherentWith, Spaced, HasWord, Undisturbed, Bins.Valid, OnlyFreeBytes, Gave;
      BinHeads(g, mem.head, mem.foot, segs, top, topsize, bins.chunks, dv, dvsize);
      var found, i := FindExactBin(bins, nb);
      if found {
        p := GiveSmall(i, nb);
        return;
      }
      p := 0;
      if nb > dvsize {
        found, i := FindNextBin(bins, nb);
        if found {
          p := GiveSmall(i, nb);
        } else if bins.treemap != 0 {
          var v, rsize := FindSmallFit(bins, nb);
          p := v;
          GiveLarge(v, nb + rsize, nb, true);
        } else {
          NoLargeChunk(bins);
        }
      }
    }

    // ----- memory from the system

    /** `init_top`. */
    method InitTop(p: int, psize: nat)
      requires mem.Coherent() && psize >= AlignOffset(p + 16) + 16
      modifies this`top, this`topsize, this`trimCheck, mem`head, mem`data
      ensures mem.Coherent() && top == p + AlignOffset(p + 16) && topsize == psize - AlignOffset(p + 16)
              && trimCheck == trimThreshold
      ensures mem.head == ResizedHeads(old(mem.head), top, topsize)
              && TagBytes(old(mem.data), mem.data, top, top + topsize, top + topsize)
      ensures HasWord(mem.data, top, HeadW) && HasWord(mem.data, top + topsize, HeadW)
    {
      hide CoherentWith, HeadBytes, TagBytes, HasWord, Heads.Set;
      var offset := AlignOffset(p + 16);
      top, topsize := p + offset, psize - offset;
      mem.SetHeads(top, Head(topsize, true, false), top + topsize, Head(TOP_FOOT, false, false));
      HeadsAreTags(old(mem.data), mem.data, top, top + topsize);
      trimCheck := trimThreshold;
    }

    /** The first segment grows at its end by `size` bytes. */
    method AppendRegion(size: nat)
      requires Core() && segs != [] && size % PAGE == 0 && NewRegion(segs, g.maps, segs[0].End(), size)
      modifies this`segs, this`top, this`topsize, this`trimCheck, mem`head, mem`data, this`g
      ensures Core() && old(segs != []) && segs == ResizedSegs(old(segs), old(topsize), old(topsize) + size)
      ensures topsize == old(topsize) + size && g.live == old(g.live)
              && Undisturbed(old(g), g, g.live, old(mem.data), mem.data)
      ensures top == old(top)
      ensures trimCheck == trimThreshold
    {
      hide ViewsOk, WordsOk, LinksWhole, CoherentWith, Spaced, HasWord, Undisturbed, Bins.Valid, ResizedHeads, TagBytes,
           RoomFor, NewRegion, ResizedSegs;
      ghost var F, ts := Pool(bins.chunks, dv, dvsize), topsize + size;
      AppendFits(g, mem.head, mem.foot, segs, top, topsize, F, size);
      TopPresent(g, mem.head, mem.foot, segs, top, topsize, F);
      TopAligned(g, mem.head, mem.foot, segs, top, topsize, F, 0);
      segs := ResizedSegs(segs, topsize, topsize + size);
      InitTop(top, topsize + size);
      ResizedViews(g, old(mem.head), mem.foot, old(segs), top, old(topsize), F, ts, old(mem.data), mem.data,
                   bins.chunks, bins.net.ring);
      g := Ghost(Resized(g.C, top, old(topsize), ts), g.live, g.maps);
    }

    /** The very first segment. */
    method FirstRegion(base: int, size: nat)
      requires Core() && segs == [] && NewRegion([], g.maps, base, size)
      modifies this`segs, this`top, this`topsize, this`trimCheck, mem`head, mem`data, this`g
      ensures Core() && segs == [Seg(base, size, 0)] && top == base
      ensures topsize == size - TOP_FOOT && g.live == old(g.live)
              && Undisturbed(old(g), g, g.live, old(mem.data), mem.data)
      ensures trimCheck == trimThreshold
    {
      hide ViewsOk, WordsOk, LinksWhole, CoherentWith, Spaced, HasWord, Undisturbed, Bins.Valid, ResizedHeads, Opened;
      ghost var F := Pool(bins.chunks, dv, dvsize);
      PageAligned(base);
      AlignedOffset(base);
      segs := [Seg(base, size, 0)];
      InitTop(base, size - TOP_FOOT);
      FirstViews(g, old(mem.head), mem.foot, old(top), old(topsize), F, base, size, old(mem.data), mem.data,
                 bins.chunks, bins.net.ring);
      g := Ghost(Opened(g.C, base, size - TOP_FOOT), g.live, g.maps);
    }

    /** `segment_holding`: the first segment that holds address `a`, or the number of segments. */
    method SegmentHolding(a: int) returns (i: nat)
      ensures i <= |segs| && (i < |segs| ==> segs[i].base <= a < segs[i].End())
      ensures forall j | 0 <= j < i :: !(segs[j].base <= a < segs[j].End())
    {
      i := 0;
      while i < |segs| && !(segs[i].base <= a < segs[i].End())
        invariant i <= |segs| && forall j | 0 <= j < i :: !(segs[j].base <= a < segs[j].End())
      {
        i := i + 1;
      }
    }

    /** The record of segment `s` is written into the chunk at `rec`, with a link to the next record. */
    method WriteRecord(rec: int, s: Seg, next: int)
      requires mem.Coherent()
      modifies mem`data
      ensures mem.Coherent() && SameOutside(old(mem.data), mem.data, rec + 16, rec + RECORD)
    {
      hide CoherentWith;
      mem.SetRecord(rec + 16, s.base);
      mem.SetRecord(rec + 24, s.size);
      mem.SetRecord(rec + 32, next);
      mem.SetRecord(rec + 40, 1);
    }

    /** The writes of `add_segment`: a new `top`, and a record and fenceposts where the old one ended. */
    method CloseTop(base: int, size: nat, rec: int, end: int)
      requires mem.Coherent() && segs != [] && base > 0 && size >= TOP_FOOT + 16 && AlignOffset(base + 16) == 0
               && rec == RecordPlace(top, topsize) && end == top + topsize + TOP_FOOT
      requires IsAligned(top) && IsAligned(topsize) && topsize > 0 && (base + size <= top || end <= base)
      modifies this`top, this`topsize, this`trimCheck, mem`head, mem`foot, mem`data
      ensures mem.Coherent() && top == base && topsize == size - TOP_FOOT
      ensures AddedTouched(old(mem.data), mem.data, old(top), old(topsize), base, size)
              && AddedWords(mem.data, old(top), old(topsize), base, size)
      ensures ClosedHeads(ResizedHeads(old(mem.head), base, size - TOP_FOOT), old(mem.foot), mem.head, mem.foot,
                          old(top), old(topsize))
      ensures AddedBytes(old(mem.data), mem.data, old(top), old(topsize), base, size)
      ensures trimCheck == trimThreshold
    {
      hide ResizedHeads, ClosedHeads, AddedBytes, TagBytes, SameOutside, Heads.Set, Heads.At, Field.Set, Field.At,
           AddedTouched, AddedWords, CoherentWith,
        HasWord, HeadBytes, Bytes.SetWord;
      var q := top;
      ghost var top0, ts0, foot0 := top, topsize, mem.foot;
      RecordAligned(top, topsize);
      InitTop(base, size - TOP_FOOT);
      ghost var head0, d0 := mem.head, mem.data;
      OneHeadOutside(d0, rec, Head(RECORD, true, true).Word());
      mem.SetHead(rec, Head(RECORD, true, true));
      ghost var head1, d1 := mem.head, mem.data;
      WriteRecord(rec, segs[0], if |segs| > 1 then segs[1].rec + 16 else 0);
      ghost var d2 := mem.data;
      var nfences := mem.WriteFenceposts(rec + RECORD, end);
      assert nfences >= 2;
      ghost var head2, d3 := mem.head, mem.data;
      TagBytesRefl(d3, q, rec);
      if rec != q {
        mem.SetFreeWithPinuse(q, rec - q);
      }
      ClosedWritten(head0, head1, head2, mem.head, foot0, mem.foot, top0, ts0);
      AddedWritten(old(mem.data), d0, d1, d2, d3, mem.data, top0, ts0, base, size);
      AddedWholeWords(d0, d1, d2, d3, mem.data, top0, ts0, base, size);
    }

    /** `add_segment`: a new first segment that adjoins no other one. */
    method AddSegment(base: int, size: nat)
      requires Core() && segs != [] && NewRegion(segs, g.maps, base, size)
      modifies this`segs, this`top, this`topsize, this`trimCheck, mem, bins, this`g
      ensures Core() && segs == AddedSegs(old(segs), old(top), old(topsize), base, size)
      ensures topsize == size - TOP_FOOT && g.live == old(g.live)
              && Undisturbed(old(g), g, g.live, old(mem.data), mem.data)
      ensures top == base
      ensures trimCheck == trimThreshold
    {
      hide ViewsOk, WordsOk, LinksWhole, CoherentWith, Spaced, HasWord, Undisturbed, Bins.Valid, ResizedHeads,
           ClosedHeads, NewRegion, AddedSegs, AddedChunks, AddedBytes, Apart, OnlyFreeBytes, Pool, IsAligned;
      ghost var F := Pool(bins.chunks, dv, dvsize);
      AddFits(g, mem.head, mem.foot, segs, top, topsize, F, base, size);
      var oldTop, oldSize := top, topsize;
      var i := SegmentHolding(top);
      var end := segs[i].End();
      var raw := end - (RECORD + 32 + 15);
      var at := raw + AlignOffset(raw + 16);
      var rec := if at < top + MIN_CHUNK then top else at;
      RecordSpot(top, topsize);
      CloseTop(base, size, rec, end);
      ghost var g0, d1 := g, mem.data;
      AddedViews(g0, old(mem.head), old(mem.foot), old(segs), oldTop, oldSize, F, base, size, mem.head, mem.foot,
                 old(mem.data), d1, bins.chunks, bins.net.ring);
      segs := AddedSegs(segs, oldTop, oldSize, base, size);
      g := Ghost(AddedChunks(g.C, oldTop, oldSize, base, size), g.live, g.maps);
      ghost var g1 := g;
      if rec != oldTop {
        AddedApartPool(F, oldTop, oldSize, bins.chunks, dv, dvsize);
        InsertJoined(oldTop, rec - oldTop, AddedPool(F, oldTop, oldSize));
        UndisturbedTrans(g0, g1, g, g.live, g.live, g.live, old(mem.data), d1, mem.data);
      }
    }

    /** Segment `i` takes in the region before it, as two used chunks. */
    method PrependRegion(i: nat, base: int, size: nat, nb: nat)
      requires Core() && MayPrepend(segs, g.maps, i, base, nb, size)
      modifies this`segs, mem`head, mem`data, this`g
      ensures old(i < |segs|) && segs == PrependedSegs(old(segs), i, base, size) && Views(Pool(bins.chunks, dv, dvsize))
      ensures g == Ghost(Prepended(old(g.C), base, nb, size), old(g.live) + {base, base + nb}, old(g.maps))
              && mem.head.At(base + nb) == Head(size - nb, true, true)
      ensures Undisturbed(old(g), g, old(g.live), old(mem.data), mem.data) && base !in old(g.live)
              && base + nb !in old(g.live)
    {
      hide ViewsOk, WordsOk, LinksWhole, CoherentWith, Spaced, HasWord, Undisturbed, Bins.Valid, PrependedHeads,
           NewRegion, PrependedSegs, Prepended, Pool, IsAligned, SameOutside, HeadBytes;
      ghost var F := Pool(bins.chunks, dv, dvsize);
      mem.SetHeads(base, Head(nb, true, true), base + nb, Head(size - nb, true, true));
      ghost var d1 := mem.data;
      PrependedWritten(old(mem.head), mem.head, base, nb, size);
      PrependedViews(g, old(mem.head), mem.foot, segs, top, topsize, F, i, base, nb, size, old(mem.data), d1,
                     bins.chunks, bins.net.ring);
      segs := PrependedSegs(segs, i, base, size);
      ghost var g0 := g;
      g := Ghost(Prepended(g.C, base, nb, size), g.live + {base, base + nb}, g.maps);
      if i > 0 {
        WriteRecord(segs[i].rec, segs[i], if i + 1 < |segs| then segs[i + 1].rec + 16 else 0);
        RecordKept(g, mem.head, mem.foot, segs, top, topsize, F, i, d1, mem.data, bins.chunks, bins.net.ring);
        UndisturbedTrans(g0, g, g, g0.live, g.live, g0.live, old(mem.data), d1, mem.data);
      }
    }

    /** `prepend_alloc`: the region in front of segment `i` serves the request, and the rest of it joins the
        chunk the segment began with.  The head written at `q` is overwritten when the chunk there is joined. */
    method PrependAlloc(i: nat, base: int, size: nat, nb: nat) returns (p: int)
      requires Core() && MayPrepend(segs, g.maps, i, base, nb, size)
      modifies this`segs, this`top, this`topsize, this`dv, this`dvsize, mem, bins, this`g
      ensures Core() && old(i < |segs|) && segs == PrependedSegs(old(segs), i, base, size)
      ensures Gave(old(g), g, p, nb, old(mem.data), mem.data) && p == base && HasSize(g, p, nb)
    {
      hide ViewsOk, WordsOk, LinksWhole, CoherentWith, Spaced, HasWord, Undisturbed, Bins.Valid, NewRegion,
           PrependedSegs, Prepended, Apart, OnlyFreeBytes, Pool, IsAligned;
      ghost var F := Pool(bins.chunks, dv, dvsize);
      PrependedApartPool(g, mem.head, mem.foot, segs, top, topsize, g.maps, i, base, nb, size, bins.chunks, dv, dvsize);
      p := base;
      var q, qsize := p + nb, size - nb;
      PrependRegion(i, base, size, nb);
      ghost var g1, d1 := g, mem.data;
      var into, s := ConsolidateForward(q, q, qsize, F);
      PrependedGave(old(g), g1, g, base, nb, size, old(mem.data), d1, mem.data);
    }

    /** Whether the footprint limit lets `size` more bytes in. */
    method WithinLimit(size: nat) returns (ok: bool)
      requires footprint < WORD_RANGE && size < WORD_RANGE && footprintLimit < WORD_RANGE
      ensures ok ==> footprintLimit == 0 || footprint + size <= footprintLimit
      ensures !ok ==> footprintLimit != 0 && (size == 0 || footprint + size > footprintLimit)
    {
      ok := true;
      if footprintLimit != 0 {
        var fp := Plus(footprint, size);
        ok := fp > footprint && fp <= footprintLimit;
      }
    }

    /** The tags of a mapped chunk. */
    method WriteMapped(base: int, offset: nat, size: nat)
      requires mem.Coherent() && size >= offset + 64 && offset < 16
      modifies mem`head, mem`foot, mem`data
      ensures mem.Coherent() && mem.foot.At(base + offset) == offset
              && mem.head.At(base + offset) == Head(size - offset - 32, false, false)
      ensures mem.head.At(base + size - 32) == Head(8, true, true) && mem.head.At(base + size - 24)
              == Head(0, false, false)
      ensures forall a {:trigger mem.head.At(a)} {:trigger mem.foot.At(a)} | !(base <= a < base + size) ::
              mem.head.At(a) == old(mem.head).At(a) && mem.foot.At(a) == old(mem.foot).At(a)
      ensures SameOutside(old(mem.data), mem.data, base, base + size)
              && MapWhole(map[base + offset := Region(base, size)], mem.data, base + offset)
      ensures AllZero(mem.data, base + offset + 16, base + size - 32)
    {
      hide CoherentWith, HasWord, AllZero;
      var psize, p := size - offset - 32, base + offset;
      mem.Clear(base, size);
      ghost var d1 := mem.data;
      mem.SetMappedEnds(p, offset, psize);
      MappedBytes(old(mem.data), d1, mem.data, base, offset, size);
    }

    /** Counts `size` more bytes as obtained. */
    method CountObtained(size: nat)
      modifies this`footprint, this`maxFootprint
      ensures footprint == old(footprint) + size && maxFootprint == Max(old(maxFootprint), footprint)
    {
      footprint := footprint + size;
      if footprint > maxFootprint {
        maxFootprint := footprint;
      }
    }

    /** Makes the region just granted at `mm` a mapped chunk. */
    method MapRegion(mm: int, mmsize: nat, ghost mapped0: seq<Region>) returns (p: int)
      requires Core() && ParamsOk() && lost <= g.maps.Keys
               && BooksOk(segs, g.maps, mapped0, footprint, maxFootprint, leastAddr)
               && sys.mapped == mapped0 + [Region(mm, mmsize)]
      requires mmsize % PAGE == 0 && mmsize > TOP_FOOT && 0 < mm && mm % PAGE == 0 && mm + mmsize <= WORD_RANGE
               && Vacant(mapped0, mm, mm + mmsize)
      modifies mem`head, mem`foot, mem`data, this`footprint, this`maxFootprint, this`leastAddr, this`g
      ensures Valid() && Mapped(old(g), g, p, mmsize - 63, old(mem.data), mem.data)
              && footprint == old(footprint) + mmsize
      ensures maxFootprint == Max(old(maxFootprint), footprint)
    {
      hide ViewsOk, WordsOk, LinksWhole, CoherentWith, Spaced, HasWord, BooksOk, Bins.Valid, Undisturbed, SameOutside,
           Vacant, NewRegion, Pool, AllZero;
      ghost var F := Pool(bins.chunks, dv, dvsize);
      MapFits(g, mem.head, mem.foot, segs, top, topsize, F, mapped0, footprint, maxFootprint, leastAddr, mm, mmsize);
      var offset := AlignOffset(mm + 16);
      p := mm + offset;
      WriteMapped(mm, offset, mmsize);
      MapIsOk(mm, offset, mmsize, mem.head, mem.foot);
      MappedViews(g, old(mem.head), old(mem.foot), segs, top, topsize, F, p, Region(mm, mmsize), mem.head, mem.foot,
                  old(mem.data), mem.data, bins.chunks, bins.net.ring);
      ghost var fp0, max0, least0 := footprint, maxFootprint, leastAddr;
      LowerLeast(mm);
      LeastIsLeast(segs, g.maps, mapped0, fp0, max0, least0, mm, leastAddr);
      CountObtained(mmsize);
      MappedBooks(segs, g.maps, mapped0, fp0, max0, leastAddr, p, mm, mmsize, maxFootprint);
      g := Ghost(g.C, g.live, g.maps[p := Region(mm, mmsize)]);
    }

    ghost function Now(): Snapshot
      reads this, mem, sys
    {
      Snapshot(g, mem.data, segs, top, topsize, sys.mapped, sys.refusals, footprint, trimCheck, releaseChecks)
    }

    /** The system has mapped one region more, of that size, all of which counts in the footprint. */
    ghost predicate Obtained(was: Snapshot, size: nat)
      reads this, sys
    {
      && |sys.mapped| == |was.mapped| + 1 && sys.mapped[..|was.mapped|] == was.mapped
      && sys.mapped[|was.mapped|].size == size && footprint == was.footprint + size
    }

    /** What a request served by a mapping of its own takes from the system. */
    ghost predicate TookMapping(was: Snapshot, nb: nat)
      reads this, sys
    {
      && 0 < granularity < WORD_RANGE && nb < WORD_RANGE && Obtained(was, AlignUp(Plus(nb, 63), granularity))
      && segs == was.segs && trimCheck == was.trimCheck && releaseChecks == was.releaseChecks
    }

    /** What a request served through `top` takes from the system, and which segment the region comes to lie in. */
    ghost predicate TookRegion(was: Snapshot, nb: nat)
      reads this, sys
    {
      && 0 < granularity < WORD_RANGE && nb < WORD_RANGE && Obtained(was, AlignUp(Plus(nb, 96), granularity))
      && var r := sys.mapped[|was.mapped|];
         && RegionUsed(was.segs, was.top, was.topsize, r.base, r.size, segs)
         && CountersAfter(was.segs, r.base, r.size, was.trimCheck, was.releaseChecks)
    }

    /** The threshold for trimming is set anew whenever `top` gets a region, and the first region starts the count of
        checks. */
    ghost predicate CountersAfter(segs0: seq<Seg>, base: int, size: nat, trimCheck0: nat, checks0: nat)
      reads this
    {
      && trimCheck == (if Prepends(segs0, base, size) then trimCheck0 else trimThreshold)
      && releaseChecks == if segs0 == [] then MAX_RELEASE_CHECK_RATE else checks0
    }

    /** What `sys_alloc` gives a request of that size: a mapping of its own if it is large enough, and memory through
        `top` otherwise, or when no mapping could be had. */
    ghost predicate Supplied(was: Snapshot, p: int, nb: nat)
      reads this, mem, sys
    {
      var mapsFirst := nb >= mmapThreshold && was.topsize != 0;
      || (Mapped(was.g, g, p, nb, was.data, mem.data) && mapsFirst && TookMapping(was, nb))
      || (&& Gave(was.g, g, p, nb, was.data, mem.data) && HasSize(g, p, nb) && TookRegion(was, nb)
          && (mapsFirst ==>
                sys.refusals > was.refusals || CannotMap(nb, granularity, was.footprint, footprintLimit)))
    }

    /** `mmap_alloc`: a chunk with a mapping of its own, or 0. */
    method MmapAlloc(nb: nat) returns (p: int)
      requires Valid() && MIN_CHUNK <= nb < WORD_RANGE
      modifies mem`head, mem`foot, mem`data, sys, this`footprint, this`maxFootprint, this`leastAddr, this`g
      ensures Valid()
      ensures p == 0 ==>
              g == old(g) && mem.data == old(mem.data) && mem.head == old(mem.head) && mem.foot == old(mem.foot)
              && sys.mapped == old(sys.mapped)
      ensures p == 0 ==> footprint == old(footprint) && maxFootprint == old(maxFootprint) && leastAddr == old(leastAddr)
      ensures sys.refusals >= old(sys.refusals) && sys.stuck >= old(sys.stuck)
      ensures p != 0 ==> Mapped(old(g), g, p, nb, old(mem.data), mem.data) && nb + 63 < WORD_RANGE
      ensures footprintLimit != 0 && old(footprint) <= footprintLimit ==> footprint <= footprintLimit
      ensures p != 0 ==> TookMapping(old(Now()), nb) && maxFootprint == Max(old(maxFootprint), footprint)
      ensures p == 0 ==> sys.refusals > old(sys.refusals) || CannotMap(nb, granularity, footprint, footprintLimit)
    {
      hide ViewsOk, WordsOk, LinksWhole, CoherentWith, Spaced, HasWord, BooksOk, Bins.Valid, Undisturbed, AlignUp,
           Vacant;
      ghost var F := Pool(bins.chunks, dv, dvsize);
      FootprintBound(g, mem.head, mem.foot, segs, top, topsize, F, sys.mapped, footprint, maxFootprint, leastAddr);
      PaddedUp(nb, 63, granularity);
      var mmsize := AlignUp(Plus(nb, 63), granularity);
      p := 0;
      var ok := WithinLimit(mmsize);
      if ok && mmsize > nb {
        ghost var mapped0 := sys.mapped;
        var mm := sys.Mmap(mmsize);
        if mm != 0 {
          p := MapRegion(mm, mmsize, mapped0);
        }
      }
    }

    /** Valid but for a region just granted, which is nowhere recorded yet. */
    ghost predicate Pending(base: int, size: nat, mapped0: seq<Region>)
      reads this, mem, bins, sys
    {
      && Core() && ParamsOk() && lost <= g.maps.Keys
      && BooksOk(segs, g.maps, mapped0, footprint, maxFootprint, leastAddr)
      && sys.mapped == mapped0 + [Region(base, size)] && NewRegion(segs, g.maps, base, size)
    }

    method LowerLeast(base: int)
      modifies this`leastAddr
      ensures leastAddr == if old(leastAddr) == 0 || base < old(leastAddr) then base else old(leastAddr)
    {
      if leastAddr == 0 || base < leastAddr {
        leastAddr := base;
      }
    }

    method GrowFirst(base: int, size: nat, ghost mapped0: seq<Region>)
      requires Pending(base, size, mapped0) && segs == []
      modifies this`segs, this`top, this`topsize, this`trimCheck, this`releaseChecks, this`footprint, this`maxFootprint,
               this`leastAddr, mem`head, mem`data, this`g
      ensures Valid() && topsize == size - TOP_FOOT && footprint == old(footprint) + size
      ensures segs == [Seg(base, size, 0)] && top == base
      ensures g.live == old(g.live) && Undisturbed(old(g), g, g.live, old(mem.data), mem.data)
      ensures maxFootprint == Max(old(maxFootprint), footprint)
      ensures trimCheck == trimThreshold && releaseChecks == MAX_RELEASE_CHECK_RATE
    {
      hide ViewsOk, WordsOk, LinksWhole, CoherentWith, Spaced, HasWord, BooksOk, Bins.Valid, Undisturbed, Unclaimed;
      LeastIsLeast(segs, g.maps, mapped0, footprint, maxFootprint, leastAddr, base,
                   if leastAddr == 0 || base < leastAddr then base else leastAddr);
      LowerLeast(base);
      CountObtained(size);
      FirstBooks(g.maps, mapped0, old(footprint), old(maxFootprint), leastAddr, base, size, maxFootprint);
      releaseChecks := MAX_RELEASE_CHECK_RATE;
      FirstRegion(base, size);
      hide Core;
      MapsOfUndisturbed(old(g), g, g.live, old(mem.data), mem.data);
    }

    method GrowAppend(base: int, size: nat, ghost mapped0: seq<Region>)
      requires Pending(base, size, mapped0) && segs != [] && base == segs[0].End()
      modifies this`segs, this`top, this`topsize, this`trimCheck, this`footprint, this`maxFootprint, mem`head, mem`data,
               this`g
      ensures Valid() && topsize == old(topsize) + size && footprint == old(footprint) + size
      ensures g.live == old(g.live) && Undisturbed(old(g), g, g.live, old(mem.data), mem.data)
      ensures maxFootprint == Max(old(maxFootprint), footprint)
      ensures old(segs) != [] && segs == ResizedSegs(old(segs), old(topsize), old(topsize) + size) && top == old(top)
      ensures trimCheck == trimThreshold
    {
      hide ViewsOk, WordsOk, LinksWhole, CoherentWith, Spaced, HasWord, BooksOk, Bins.Valid, Undisturbed, Unclaimed;
      CountObtained(size);
      AppendedBooks(segs, topsize, g.maps, mapped0, old(footprint), old(maxFootprint), leastAddr, base, size,
                    maxFootprint);
      AppendRegion(size);
      hide Core;
      MapsOfUndisturbed(old(g), g, g.live, old(mem.data), mem.data);
    }

    method GrowAdd(base: int, size: nat, ghost mapped0: seq<Region>)
      requires Pending(base, size, mapped0) && segs != []
      modifies this`segs, this`top, this`topsize, this`trimCheck, this`footprint, this`maxFootprint, this`leastAddr,
               mem, bins, this`g
      ensures Valid() && topsize == size - TOP_FOOT && footprint == old(footprint) + size
      ensures g.live == old(g.live) && Undisturbed(old(g), g, g.live, old(mem.data), mem.data)
      ensures maxFootprint == Max(old(maxFootprint), footprint)
      ensures old(segs) != [] && segs == AddedSegs(old(segs), old(top), old(topsize), base, size) && top == base
      ensures trimCheck == trimThreshold
    {
      hide ViewsOk, WordsOk, LinksWhole, CoherentWith, Spaced, HasWord, BooksOk, Bins.Valid, Undisturbed, Unclaimed;
      LeastIsLeast(segs, g.maps, mapped0, footprint, maxFootprint, leastAddr, base,
                   if leastAddr == 0 || base < leastAddr then base else leastAddr);
      LowerLeast(base);
      CountObtained(size);
      AddedBooks(segs, top, topsize, g.maps, mapped0, old(footprint), old(maxFootprint), leastAddr, base, size,
                 maxFootprint);
      AddSegment(base, size);
      hide Core;
      MapsOfUndisturbed(old(g), g, g.live, old(mem.data), mem.data);
    }

    method GrowPrepend(i: nat, base: int, size: nat, nb: nat, ghost mapped0: seq<Region>) returns (p: int)
      requires Pending(base, size, mapped0) && i < |segs| && base + size == segs[i].base && MIN_CHUNK <= nb
               && nb + MIN_CHUNK <= size && IsAligned(nb)
      modifies this`segs, this`top, this`topsize, this`dv, this`dvsize, this`footprint, this`maxFootprint,
               this`leastAddr, mem, bins, this`g
      ensures Valid() && footprint == old(footprint) + size && Gave(old(g), g, p, nb, old(mem.data), mem.data)
              && p == base && HasSize(g, p, nb)
      ensures maxFootprint == Max(old(maxFootprint), footprint)
      ensures old(i < |segs|) && segs == PrependedSegs(old(segs), i, base, size)
    {
      hide ViewsOk, WordsOk, LinksWhole, CoherentWith, Spaced, HasWord, BooksOk, Bins.Valid, Undisturbed, Unclaimed;
      LeastIsLeast(segs, g.maps, mapped0, footprint, maxFootprint, leastAddr, base,
                   if leastAddr == 0 || base < leastAddr then base else leastAddr);
      LowerLeast(base);
      CountObtained(size);
      PrependedBooks(segs, g.maps, mapped0, old(footprint), old(maxFootprint), leastAddr, i, base, size, maxFootprint);
      p := PrependAlloc(i, base, size, nb);
      hide Core;
      MapsOfUndisturbed(old(g), g, old(g.live), old(mem.data), mem.data);
    }

    /** The first segment that ends at `a`, or the number of segments. */
    method SegmentEndingAt(a: int) returns (i: nat)
      ensures i <= |segs| && (i < |segs| ==> segs[i].End() == a) && forall j | 0 <= j < i :: segs[j].End() != a
    {
      i := 0;
      while i < |segs| && a != segs[i].End()
        invariant i <= |segs| && forall j | 0 <= j < i :: segs[j].End() != a
      {
        i := i + 1;
      }
    }

    /** The first segment that begins at `a`, or the number of segments. */
    method SegmentStartingAt(a: int) returns (i: nat)
      ensures i <= |segs| && (i < |segs| ==> segs[i].base == a) && forall j | 0 <= j < i :: segs[j].base != a
    {
      i := 0;
      while i < |segs| && segs[i].base != a
        invariant i <= |segs| && forall j | 0 <= j < i :: segs[j].base != a
      {
        i := i + 1;
      }
    }

    /** `top` serves the request. */
    method GiveGrown(nb: nat) returns (p: int)
      requires Valid() && MIN_CHUNK <= nb < topsize && IsAligned(nb)
      modifies mem`head, mem`data, this`top, this`topsize, this`g
      ensures Valid() && p != 0 && Gave(old(g), g, p, nb, old(mem.data), mem.data) && HasSize(g, p, nb) && p == old(top)
              && p in g.live
    {
      hide ViewsOk, WordsOk, LinksWhole, CoherentWith, Spaced, HasWord, BooksOk, Bins.Valid, Undisturbed, IsAligned;
      TopPresent(g, mem.head, mem.foot, segs, top, topsize, Pool(bins.chunks, dv, dvsize));
      p := GiveTop(nb);
      MapsOfUndisturbed(old(g), g, old(g.live), old(mem.data), mem.data);
    }

    /** A region just granted extends `top`, or becomes a new segment with a new `top`. */
    method Grow(base: int, size: nat, append: bool, ghost mapped0: seq<Region>)
      requires Pending(base, size, mapped0) && (append ==> segs != [] && base == segs[0].End())
      modifies this`segs, this`top, this`topsize, this`trimCheck, this`releaseChecks, this`footprint, this`maxFootprint,
               this`leastAddr, mem, bins, this`g
      ensures Valid() && topsize >= size - TOP_FOOT && footprint == old(footprint) + size
      ensures old(segs) == [] ==> segs == [Seg(base, size, 0)] && top == base
      ensures g.live == old(g.live) && Undisturbed(old(g), g, g.live, old(mem.data), mem.data)
      ensures maxFootprint == Max(old(maxFootprint), footprint)
      ensures old(segs) != [] ==>
              if append then segs == ResizedSegs(old(segs), old(topsize), old(topsize) + size) && top == old(top)
              else segs == AddedSegs(old(segs), old(top), old(topsize), base, size) && top == base
      ensures trimCheck == trimThreshold
      ensures releaseChecks == if old(segs) == [] then MAX_RELEASE_CHECK_RATE else old(releaseChecks)
    {
      hide ViewsOk, WordsOk, LinksWhole, CoherentWith, Spaced, HasWord, BooksOk, Bins.Valid, Undisturbed, Unclaimed,
           Pool;
      TopPresent(g, mem.head, mem.foot, segs, top, topsize, Pool(bins.chunks, dv, dvsize));
      if top == 0 {
        GrowFirst(base, size, mapped0);
      } else if append {
        GrowAppend(base, size, mapped0);
      } else {
        GrowAdd(base, size, mapped0);
      }
    }

    /** And `top` then serves the request. */
    method GrowAndGive(base: int, size: nat, append: bool, nb: nat, ghost mapped0: seq<Region>) returns (p: int)
      requires Pending(base, size, mapped0) && (append ==> segs != [] && base == segs[0].End())
      requires MIN_CHUNK <= nb && IsAligned(nb) && nb + 96 <= size
      modifies this`segs, this`top, this`topsize, this`trimCheck, this`releaseChecks, this`footprint, this`maxFootprint,
               this`leastAddr, mem, bins, this`g
      ensures Valid() && p != 0 && Gave(old(g), g, p, nb, old(mem.data), mem.data) && footprint == old(footprint) + size
              && HasSize(g, p, nb) && p in g.live
      ensures maxFootprint == Max(old(maxFootprint), footprint)
      ensures old(segs) == [] ==> segs == [Seg(base, size, 0)] && p == base
      ensures old(segs) != [] ==>
              if append then segs == ResizedSegs(old(segs), old(topsize), old(topsize) + size) && p == old(top)
              else segs == AddedSegs(old(segs), old(top), old(topsize), base, size) && p == base
      ensures trimCheck == trimThreshold
      ensures releaseChecks == if old(segs) == [] then MAX_RELEASE_CHECK_RATE else old(releaseChecks)
    {
      hide Core, BooksOk, Undisturbed, Gave, IsAligned, Pending, ParamsOk, ResizedSegs, AddedSegs;
      Grow(base, size, append, mapped0);
      ghost var g1, d1 := g, mem.data;
      p := GiveGrown(nb);
      GaveAfter(old(g), g1, g, p, nb, old(mem.data), d1, mem.data);
    }

    /** The second half of `sys_alloc`: a region just granted is put to use, and always serves the request. */
    method UseRegion(base: int, size: nat, nb: nat, ghost mapped0: seq<Region>) returns (p: int)
      requires Pending(base, size, mapped0) && MIN_CHUNK <= nb && IsAligned(nb) && nb + 96 <= size
      modifies this`segs, this`top, this`topsize, this`dv, this`dvsize, this`trimCheck, this`releaseChecks,
               this`footprint, this`maxFootprint, this`leastAddr, mem, bins, this`g
      ensures Valid() && p != 0 && Gave(old(g), g, p, nb, old(mem.data), mem.data) && footprint == old(footprint) + size
              && HasSize(g, p, nb)
      ensures old(segs) == [] ==> segs == [Seg(base, size, 0)] && p == base && p in g.live
      ensures maxFootprint == Max(old(maxFootprint), footprint)
      ensures RegionUsed(old(segs), old(top), old(topsize), base, size, segs)
      ensures p == if old(segs) != [] && base == old(segs)[0].End() then old(top) else base
      ensures CountersAfter(old(segs), base, size, old(trimCheck), old(releaseChecks))
    {
      hide ViewsOk, WordsOk, LinksWhole, CoherentWith, Spaced, HasWord, BooksOk, Bins.Valid, Undisturbed, Unclaimed,
           Gave, IsAligned, Pool, RegionUsed, Prepends, ResizedSegs, AddedSegs;
      TopPresent(g, mem.head, mem.foot, segs, top, topsize, Pool(bins.chunks, dv, dvsize));
      var append := false;
      if top != 0 {
        TopHeld(g, mem.head, mem.foot, segs, top, topsize, Pool(bins.chunks, dv, dvsize));
        var i := SegmentEndingAt(base);
        append := i < |segs| && segs[i].base <= top < segs[i].End();
        assert append <==> base == segs[0].End();
        if !append {
          i := SegmentStartingAt(base + size);
          if i < |segs| {
            PrependUsed(segs, top, topsize, base, size, i);
            p := GrowPrepend(i, base, size, nb, mapped0);
            return;
          }
        }
      }
      TopUsed(segs, top, topsize, base, size);
      p := GrowAndGive(base, size, append, nb, mapped0);
    }

    /** Memory for `top` is asked for, and the request is served through it. */
    method SysGrow(nb: nat, ghost was: Snapshot) returns (p: int)
      requires Valid() && (nb == WORD_RANGE - 1 || (MIN_CHUNK <= nb < WORD_RANGE && IsAligned(nb)))
      requires was.(refusals := sys.refusals) == Now()
      modifies this`segs, this`top, this`topsize, this`dv, this`dvsize, this`trimCheck, this`releaseChecks,
               this`footprint, this`maxFootprint, this`leastAddr, mem, bins, sys, this`g
      ensures sys.refusals >= old(sys.refusals) && sys.stuck >= old(sys.stuck)
      ensures Valid() && (p == 0 ==>
              g == old(g) && mem.data == old(mem.data) && sys.mapped == old(sys.mapped) && footprint == old(footprint))
      ensures p == 0 ==> sys.refusals > old(sys.refusals) || CannotAsk(nb, granularity, old(footprint), footprintLimit)
      ensures p != 0 ==>
              nb < WORD_RANGE - 1 && Gave(old(g), g, p, nb, old(mem.data), mem.data) && HasSize(g, p, nb)
              && TookRegion(was, nb)
      ensures footprintLimit != 0 && old(footprint) <= footprintLimit ==> footprint <= footprintLimit
      ensures old(segs) == [] && p != 0 ==> |segs| == 1 && segs[0].base == p && p % PAGE == 0 && p in g.live
      ensures p == 0 ==> maxFootprint == old(maxFootprint) && segs == old(segs)
      ensures p != 0 ==> maxFootprint == Max(old(maxFootprint), footprint)
    {
      hide ViewsOk, WordsOk, LinksWhole, CoherentWith, Spaced, HasWord, BooksOk, Bins.Valid, Undisturbed, Gave, Pool,
           IsAligned, AlignUp, Vacant, RegionUsed;
      p := 0;
      ghost var F := Pool(bins.chunks, dv, dvsize);
      FootprintBound(g, mem.head, mem.foot, segs, top, topsize, F, sys.mapped, footprint, maxFootprint, leastAddr);
      PaddedUp(nb, 96, granularity);
      var asize := AlignUp(Plus(nb, 96), granularity);
      if asize <= nb {
        return;
      }
      var ok := WithinLimit(asize);
      if !ok {
        return;
      }
      ghost var mapped0 := sys.mapped;
      var base := sys.Mmap(asize);
      if base != 0 {
        MapFits(g, mem.head, mem.foot, segs, top, topsize, F, mapped0, footprint, maxFootprint, leastAddr, base, asize);
        p := UseRegion(base, asize, nb, mapped0);
      }
    }

    lemma TopThere()
      requires Valid()
      ensures (topsize > 0 <==> top != 0) && (topsize > 0 <==> segs != [])
    {
      hide ViewsOk, WordsOk, LinksWhole, CoherentWith, Spaced, HasWord, BooksOk, Bins.Valid;
      TopPresent(g, mem.head, mem.foot, segs, top, topsize, Pool(bins.chunks, dv, dvsize));
    }

    /** `sys_alloc`: the request is served from new memory, in a mapping of its own or through `top`.  It fails
        only if no memory was obtained, and then nothing has changed. */
    method SysAlloc(nb: nat) returns (p: int)
      requires Valid() && (nb == WORD_RANGE - 1 || (MIN_CHUNK <= nb < WORD_RANGE && IsAligned(nb)))
      modifies this`segs, this`top, this`topsize, this`dv, this`dvsize, this`trimCheck, this`releaseChecks,
               this`footprint, this`maxFootprint, this`leastAddr, mem, bins, sys, this`g
      ensures sys.refusals >= old(sys.refusals) && sys.stuck >= old(sys.stuck)
      ensures Valid() && (p == 0 ==>
              g == old(g) && mem.data == old(mem.data) && sys.mapped == old(sys.mapped) && footprint == old(footprint))
      ensures p == 0 ==> sys.refusals > old(sys.refusals) || CannotAsk(nb, granularity, old(footprint), footprintLimit)
      ensures p != 0 ==> nb < WORD_RANGE - 1 && Supplied(old(Now()), p, nb)
      ensures footprintLimit != 0 && old(footprint) <= footprintLimit ==> footprint <= footprintLimit
      ensures old(segs) == [] && p != 0 ==> |segs| == 1 && segs[0].base == p && p % PAGE == 0 && p in g.live
      ensures p == 0 ==> maxFootprint == old(maxFootprint) && segs == old(segs)
      ensures p != 0 ==> maxFootprint == Max(old(maxFootprint), footprint)
    {
      hide Core, BooksOk, Gave, IsAligned, CannotAsk, CannotMap, Mapped, HasSize, TookMapping, TookRegion, ParamsOk;
      TopThere();
      if nb >= mmapThreshold && topsize != 0 {
        p := MmapAlloc(nb);
        if p != 0 {
          return;
        }
      }
      p := SysGrow(nb, old(Now()));
    }

    // ----- malloc

    /** `tmalloc_large`: the best fitting large chunk, unless the designated victim fits better. */
    method MallocLarge(nb: nat) returns (p: int)
      requires Core() && IsTreeSize(nb)
      modifies mem, bins, this`dv, this`dvsize, this`g
      ensures Core() && (p != 0 ==> Gave(old(g), g, p, nb, old(mem.data), mem.data))
      ensures p == 0 ==>
              g == old(g) && mem.data == old(mem.data) && bins.chunks == old(bins.chunks) && dv == old(dv)
              && dvsize == old(dvsize)
      ensures p != 0 ==> BestBinned(old(bins.chunks), nb, p) && (old(dvsize) < nb || old(bins.chunks)[p] < old(dvsize))
      ensures p != 0 ==> HasSize(g, p, CutTo(old(bins.chunks), p, nb))
      ensures p == 0 ==>
              NoneFits(bins.chunks, nb) || (nb <= dvsize && forall q | q in bins.chunks && nb <= bins.chunks[q] ::
              dvsize <= bins.chunks[q])
      ensures p != 0 ==> LeftOver(false, p, old(bins.chunks)[p], nb, old(dv), old(dvsize), dv, dvsize)
      ensures p != 0 ==> NextInTurn(old(bins.chunks), old(bins.net.rank), p)
    {
      hide ViewsOk, WordsOk, LinksWhole, CoherentWith, Spaced, HasWord, Undisturbed, Bins.Valid, OnlyFreeBytes, Gave;
      BinHeads(g, mem.head, mem.foot, segs, top, topsize, bins.chunks, dv, dvsize);
      p := 0;
      if bins.treemap != 0 {
        var v, rsize := FindLargeFit(bins, nb);
        if v != 0 && rsize < Minus(dvsize, nb) {
          p := v;
          GiveLarge(v, nb + rsize, nb, false);
        }
      } else {
        NoLargeChunk(bins);
      }
    }

    /** The part of `_malloc` that needs no new memory: the free chunk that serves a request of `nb` bytes. */
    method TakeFree(nb: nat) returns (p: int)
      requires Core() && (nb == WORD_RANGE - 1 || IsChunkSize(nb))
      modifies mem, bins, this`dv, this`dvsize, this`top, this`topsize, this`g
      ensures Core() && (p != 0 ==>
              Gave(old(g), g, p, nb, old(mem.data), mem.data)
              && ServedFrom(old(bins.chunks), old(dv), old(dvsize), old(top), old(topsize), nb, p))
      ensures p != 0 ==> HasSize(g, p, CutTo(Pool(old(bins.chunks), old(dv), old(dvsize)), p, nb))
      ensures p == 0 ==>
              g == old(g) && mem.data == old(mem.data) && NothingServes(old(bins.chunks), old(dvsize), old(topsize), nb)
      ensures p == 0 ==>
              bins.chunks == old(bins.chunks) && dv == old(dv) && dvsize == old(dvsize) && top == old(top)
              && topsize == old(topsize)
      ensures nb == WORD_RANGE - 1 ==> p == 0
      ensures p != 0 ==> VictimAfter(old(bins.chunks), old(dv), old(dvsize), nb, p, dv, dvsize)
      ensures p != 0 ==> NextInTurn(old(bins.chunks), old(bins.net.rank), p)
    {
      hide ViewsOk, WordsOk, LinksWhole, CoherentWith, Spaced, HasWord, Undisturbed, Bins.Valid, OnlyFreeBytes, Gave;
      BinHeads(g, mem.head, mem.foot, segs, top, topsize, bins.chunks, dv, dvsize);
      TopPresent(g, mem.head, mem.foot, segs, top, topsize, Pool(bins.chunks, dv, dvsize));
      p := 0;
      if nb < MIN_LARGE {
        p := MallocSmall(nb);
      } else if nb < WORD_RANGE - 1 {
        p := MallocLarge(nb);
      }
      if p == 0 {
        if nb <= dvsize {
          p := GiveVictim(nb);
        } else if nb < topsize {
          TopNotFree(g, mem.head, mem.foot, segs, top, topsize, Pool(bins.chunks, dv, dvsize));
          p := GiveTop(nb);
        }
      }
    }

    /** A free chunk serves the request, as a new block. */
    method MallocFree(nb: nat, ghost bytes: nat) returns (p: int)
      requires Valid() && ((nb == WORD_RANGE - 1 && bytes >= MAX_REQUEST) || (IsChunkSize(nb) && bytes + 8 <= nb))
      modifies mem, bins, this`dv, this`dvsize, this`top, this`topsize, this`g
      ensures Valid() && (p == 0 ==> g == old(g) && mem.data == old(mem.data)) && (nb == WORD_RANGE - 1 ==> p == 0)
      ensures p != 0 ==>
              NewBlock(old(g), g, p, bytes, old(mem.data), mem.data) && g.maps == old(g.maps) && Snug(g, p, nb)
              && p in g.live
      ensures p == 0 ==>
              NothingServes(bins.chunks, dvsize, topsize, nb) && bins.chunks == old(bins.chunks)
              && dvsize == old(dvsize) && topsize == old(topsize) && top == old(top)
      ensures p != 0 ==>
              ServedFrom(old(bins.chunks), old(dv), old(dvsize), old(top), old(topsize), nb, p)
              && HasSize(g, p, CutTo(Pool(old(bins.chunks), old(dv), old(dvsize)), p, nb))
      ensures p != 0 ==> VictimAfter(old(bins.chunks), old(dv), old(dvsize), nb, p, dv, dvsize)
      ensures p != 0 ==> NextInTurn(old(bins.chunks), old(bins.net.rank), p)
    {
      hide ViewsOk, WordsOk, LinksWhole, CoherentWith, Spaced, HasWord, BooksOk, Bins.Valid, ServedFrom, NothingServes,
           NewBlock, Undisturbed;
      ghost var F := Pool(bins.chunks, dv, dvsize);
      p := TakeFree(nb);
      if p != 0 {
        MapsOfUndisturbed(old(g), g, old(g.live), old(mem.data), mem.data);
        GaveBlock(old(g), g, old(mem.head), old(mem.foot), segs, old(top), old(topsize), F, mem.head, mem.foot, segs,
                  top, topsize, Pool(bins.chunks, dv, dvsize),
                  p, nb, bytes, old(mem.data), mem.data);
      }
    }

    /** New memory serves the request, as a new block. */
    method MallocNew(nb: nat, ghost bytes: nat) returns (p: int)
      requires Valid() && ((nb == WORD_RANGE - 1 && bytes >= MAX_REQUEST) || (IsChunkSize(nb) && bytes + 8 <= nb))
      modifies this`segs, this`top, this`topsize, this`dv, this`dvsize, this`trimCheck, this`releaseChecks,
               this`footprint, this`maxFootprint, this`leastAddr, mem, bins, sys, this`g
      ensures sys.refusals >= old(sys.refusals) && sys.stuck >= old(sys.stuck)
      ensures Valid() && (p == 0 ==>
              g == old(g) && mem.data == old(mem.data) && sys.mapped == old(sys.mapped) && footprint == old(footprint))
      ensures p != 0 ==> NewBlock(old(g), g, p, bytes, old(mem.data), mem.data) && nb < WORD_RANGE - 1 && Snug(g, p, nb)
      ensures p != 0 && p in g.live ==> HasSize(g, p, nb)
      ensures old(segs) == [] && p != 0 ==> |segs| == 1 && segs[0].base == p && p % PAGE == 0 && p in g.live
      ensures p == 0 ==> sys.refusals > old(sys.refusals) || CannotAsk(nb, granularity, old(footprint), footprintLimit)
      ensures footprintLimit != 0 && old(footprint) <= footprintLimit ==> footprint <= footprintLimit
      ensures p != 0 ==> Supplied(old(Now()), p, nb)
      ensures maxFootprint == Max(old(maxFootprint), footprint) || (p == 0 && maxFootprint == old(maxFootprint))
    {
      hide ViewsOk, WordsOk, LinksWhole, CoherentWith, Spaced, HasWord, BooksOk, Bins.Valid, NewBlock, Gave, Mapped;
      ghost var F := Pool(bins.chunks, dv, dvsize);
      p := SysAlloc(nb);
      if p != 0 {
        if !Mapped(old(g), g, p, nb, old(mem.data), mem.data) {
          GaveBlock(old(g), g, old(mem.head), old(mem.foot), old(segs), old(top), old(topsize), F, mem.head, mem.foot,
                    segs, top, topsize, Pool(bins.chunks, dv, dvsize),
                    p, nb, bytes, old(mem.data), mem.data);
        } else {
          MappedBlock(old(g), g, old(mem.head), old(mem.foot), old(segs), old(top), old(topsize), F, p, nb, bytes,
                      old(mem.data), mem.data);
        }
      }
    }

    /** A request of `bytes` bytes could not be served with new memory: it is too big, the system has refused some
        since it had done so `refusals` times, or with the footprint `fp` none could be asked for. */
    ghost predicate NoMemory(bytes: nat, refusals: nat, fp: nat)
      reads this, sys
    {
      bytes >= MAX_REQUEST || sys.refusals > refusals || CannotAsk(Request2Size(bytes), granularity, fp, footprintLimit)
    }

    /** `_malloc`: the address of a new block of at least `bytes` bytes, aligned to 16, or 0.  No other block is
        touched.  Memory is asked of the system only if no free chunk serves, and 0 means that it gave none. */
    method Malloc(bytes: nat) returns (m: int)
      requires Valid() && bytes < WORD_RANGE
      modifies this`segs, this`top, this`topsize, this`dv, this`dvsize, this`trimCheck, this`releaseChecks,
               this`footprint, this`maxFootprint, this`leastAddr, mem, bins, sys, this`g
      ensures sys.refusals >= old(sys.refusals) && sys.stuck >= old(sys.stuck)
      ensures Valid()
      ensures m == 0 ==>
              g == old(g) && mem.data == old(mem.data) && sys.mapped == old(sys.mapped) && footprint == old(footprint)
      ensures m == 0 ==> NoMemory(bytes, old(sys.refusals), old(footprint))
      ensures m != 0 ==>
              NewBlock(old(g), g, m - 16, bytes, old(mem.data), mem.data) && Held() == old(Held()) + {m - 16}
              && bytes < MAX_REQUEST
      ensures m != 0 ==> Snug(g, m - 16, Request2Size(bytes))
      ensures m != 0 ==> SizedFor(g, old(bins.chunks), old(dv), old(dvsize), old(topsize), Request2Size(bytes), m - 16)
      ensures m != 0 && old(segs) == []
              && NothingServes(old(bins.chunks), old(dvsize), old(topsize), Request2Size(bytes)) ==>
                |segs| == 1 && segs[0].base == m - 16 && (m - 16) % PAGE == 0 && m - 16 in g.live
      ensures bytes < MAX_REQUEST
              && !NothingServes(old(bins.chunks), old(dvsize), old(topsize), Request2Size(bytes)) ==>
                && m != 0 && m - 16 in g.live && segs == old(segs) && sys.mapped == old(sys.mapped)
                && footprint == old(footprint) && trimCheck == old(trimCheck) && releaseChecks == old(releaseChecks)
                && ServedFrom(old(bins.chunks), old(dv), old(dvsize), old(top), old(topsize), Request2Size(bytes),
                              m - 16)
                && VictimAfter(old(bins.chunks), old(dv), old(dvsize), Request2Size(bytes), m - 16, dv, dvsize)
                && NextInTurn(old(bins.chunks), old(bins.net.rank), m - 16)
      ensures footprintLimit != 0 && old(footprint) <= footprintLimit ==> footprint <= footprintLimit
      ensures m != 0 && NothingServes(old(bins.chunks), old(dvsize), old(topsize), Request2Size(bytes)) ==>
                Supplied(old(Now()), m - 16, Request2Size(bytes)) && maxFootprint == Max(old(maxFootprint), footprint)
    {
      hide Core, BooksOk, ServedFrom, NothingServes, IsAligned, Keeps, AllZero, CannotAsk, AlignUp, RegionUsed, Mapped,
           Gave, CannotMap, VictimAfter, NextInTurn, Supplied, Snug, HasSize, ParamsOk;
      var nb;
      if bytes <= MAX_SMALL_REQUEST {
        nb := if bytes < MIN_REQUEST then MIN_CHUNK else PadRequest(bytes);
      } else if bytes >= MAX_REQUEST {
        nb := WORD_RANGE - 1;
      } else {
        nb := PadRequest(bytes);
      }
      if bytes < MAX_REQUEST {
        PaddingFits(bytes);
      }
      var p := MallocFree(nb, bytes);
      if p == 0 {
        p := MallocNew(nb, bytes);
      } else {
        SomethingServes(old(bins.chunks), old(dv), old(dvsize), old(top), old(topsize), nb, p);
      }
      m := if p == 0 then 0 else p + 16;
    }

    // ----- memory given back to the system

    /** The large free chunk at `b` leaves the bins, or stops being the designated victim. */
    method DetachLarge(b: int, s: nat, ghost F: map<int, nat>)
      requires Core() && F == Pool(bins.chunks, dv, dvsize) && b in F && F[b] == s >= MIN_LARGE && b > 0
      modifies bins, mem`fd, mem`bk, mem`left, mem`right, mem`parent, mem`data, this`dv, this`dvsize
      ensures bins.Valid() && Views(F) && Apart(F, b, bins.chunks, dv, dvsize) && b != dv
              && DvOk(bins.chunks, dv, dvsize) && Pool(bins.chunks, dv, dvsize) == F - {b} && b !in bins.chunks
      ensures Undisturbed(g, g, g.live, old(mem.data), mem.data)
    {
      hide ViewsOk, WordsOk, LinksWhole, CoherentWith, Spaced, HasWord, Undisturbed, Bins.Valid, OnlyFreeBytes, Apart;
      ghost var B := bins.chunks;
      PoolHolds(B, dv, dvsize);
      UndisturbedRefl(g, mem.head, mem.foot, segs, top, topsize, F, mem.data);
      if b == dv {
        VictimDetached(F, B, dv, dvsize);
        dv, dvsize := 0, 0;
      } else {
        PoolTaken(F, b, B, dv, dvsize);
        PoolUnlinked(F, b, B, dv, dvsize);
        bins.UnlinkLarge(b);
        BinsKept(g, mem.head, mem.foot, segs, top, topsize, F, B, old(mem.data), mem.data, B, bins.chunks);
      }
    }

    /** An idle segment, whose free chunk is in no bin any more, leaves the heap. */
    method DropSegment(i: nat, ghost F: map<int, nat>)
      requires bins.Valid() && Views(F) && DvOk(bins.chunks, dv, dvsize) && IsIdle(g.C, segs, i)
      requires segs[i].base in F && segs[i].base !in bins.chunks && Pool(bins.chunks, dv, dvsize) == F - {segs[i].base}
      modifies this`segs, this`g
      ensures Core() && old(i < |segs|) && segs == DroppedSegs(old(segs), i) && g.live == old(g.live)
              && g.maps == old(g.maps) && g.C == Dropped(old(g.C), old(segs)[i])
      ensures Undisturbed(old(g), g, g.live, mem.data, mem.data)
    {
      hide ViewsOk, Whole, CoherentWith, Spaced, Undisturbed, Bins.Valid, DvOk, Dropped, DroppedSegs, Pool;
      DroppedViews(g, mem.head, mem.foot, segs, top, topsize, F, i, mem.data, bins.chunks, bins.net.ring);
      segs, g := DroppedSegs(segs, i), Ghost(Dropped(g.C, segs[i]), g.live, g.maps);
    }

    /** An idle segment goes back to the system, unless that refuses. */
    method ReleaseSegment(i: nat, s: nat) returns (ok: bool)
      requires Valid() && IsIdle(g.C, segs, i) && segs[i].base in Pool(bins.chunks, dv, dvsize)
               && s == Pool(bins.chunks, dv, dvsize)[segs[i].base] >= MIN_LARGE && segs[i].base > 0
      modifies this`segs, this`dv, this`dvsize, this`footprint, mem, bins, sys, this`g
      ensures sys.refusals >= old(sys.refusals) && sys.stuck >= old(sys.stuck)
      ensures Valid() && g.live == old(g.live) && Undisturbed(old(g), g, g.live, old(mem.data), mem.data)
      ensures if ok then
              segs == DroppedSegs(old(segs), i) && footprint == old(footprint) - old(segs)[i].size
              && g.C == Dropped(old(g.C), old(segs)[i]) && sys.stuck == old(sys.stuck)
              else segs == old(segs) && footprint == old(footprint) && g == old(g) && sys.stuck > old(sys.stuck)
    {
      hide ViewsOk, WordsOk, LinksWhole, CoherentWith, Spaced, HasWord, Undisturbed, Bins.Valid, OnlyFreeBytes, Apart,
           BooksOk, DroppedSegs, Carve;
      ghost var F := Pool(bins.chunks, dv, dvsize);
      var b, size := segs[i].base, segs[i].size;
      ghost var g0 := g;
      IdleApart(g, mem.head, mem.foot, segs, top, topsize, F, i);
      DroppedBooks(segs, g.maps, sys.mapped, footprint, maxFootprint, leastAddr, i);
      DetachLarge(b, s, F);
      ghost var d1 := mem.data;
      ok := sys.Munmap(b, size);
      if ok {
        footprint := footprint - size;
        DropSegment(i, F);
        UndisturbedTrans(g0, g0, g, g.live, g.live, g.live, old(mem.data), d1, d1);
      } else {
        InsertJoined(b, s, F);
        UndisturbedTrans(g0, g0, g0, g.live, g.live, g.live, old(mem.data), d1, mem.data);
      }
    }

    /** The record of segment `i` is rewritten with the link to the one after it. */
    method Relink(i: nat)
      requires Valid() && i < |segs|
      modifies mem`data
      ensures Valid() && Undisturbed(g, g, g.live, old(mem.data), mem.data)
    {
      hide ViewsOk, WordsOk, LinksWhole, CoherentWith, Spaced, HasWord, Undisturbed, Bins.Valid, BooksOk, SameOutside;
      ghost var F := Pool(bins.chunks, dv, dvsize);
      UndisturbedRefl(g, mem.head, mem.foot, segs, top, topsize, F, mem.data);
      if i > 0 {
        WriteRecord(segs[i].rec, segs[i], if i + 1 < |segs| then segs[i + 1].rec + 16 else 0);
        RecordKept(g, mem.head, mem.foot, segs, top, topsize, F, i, old(mem.data), mem.data, bins.chunks,
                   bins.net.ring);
      }
    }

    /** One turn of the loop of `release_unused_segments`. */
    method ReleaseIfIdle(i: nat) returns (released: nat)
      requires Valid() && 1 <= i < |segs|
      modifies this`segs, this`dv, this`dvsize, this`footprint, mem, bins, sys, this`g
      ensures sys.refusals >= old(sys.refusals) && sys.stuck >= old(sys.stuck)
      ensures Valid() && g.live == old(g.live) && Undisturbed(old(g), g, g.live, old(mem.data), mem.data)
      ensures footprint + released == old(footprint)
      ensures released == 0 ==>
              segs == old(segs) && g == old(g) && (sys.stuck == old(sys.stuck) ==> !Releasable(g.C, segs[i]))
      ensures released != 0 ==>
              segs == DroppedSegs(old(segs), i) && released == old(segs)[i].size && IsIdle(old(g.C), old(segs), i)
              && Releasable(old(g.C), old(segs)[i]) && g.C == Dropped(old(g.C), old(segs)[i])
    {
      hide ViewsOk, WordsOk, LinksWhole, CoherentWith, Spaced, HasWord, Undisturbed, Bins.Valid, BooksOk, IsIdle,
           DroppedSegs, Dropped, Releasable;
      released := 0;
      ghost var F := Pool(bins.chunks, dv, dvsize);
      IdleIff(g, mem.head, mem.foot, segs, top, topsize, F, i);
      UndisturbedRefl(g, mem.head, mem.foot, segs, top, topsize, F, mem.data);
      SegmentHasSize(g, mem.head, mem.foot, segs, top, topsize, F, i);
      var base, size := segs[i].base, segs[i].size;
      var h := mem.head.At(base);
      if h.pinuse && !h.cinuse && base + h.size >= base + size - TOP_FOOT {
        IdleFound(g, mem.head, mem.foot, segs, top, topsize, F, i);
        var ok := ReleaseSegment(i, h.size);
        if ok {
          released := size;
          ghost var g1, d1 := g, mem.data;
          DroppedLength(old(segs), i);
          Relink(i - 1);
          UndisturbedTrans(old(g), g1, g, g.live, g.live, g.live, old(mem.data), d1, mem.data);
        }
      }
    }

    /** `release_unused_segments`: idle segments go back to the system; tells how many bytes that were.  Unless the
        system refuses to take one, exactly those that can be released are gone. */
    method ReleaseUnusedSegments() returns (released: nat)
      requires Valid()
      modifies this`segs, this`dv, this`dvsize, this`footprint, this`releaseChecks, mem, bins, sys, this`g
      ensures sys.refusals >= old(sys.refusals) && sys.stuck >= old(sys.stuck)
      ensures Valid() && g.live == old(g.live) && Undisturbed(old(g), g, g.live, old(mem.data), mem.data)
      ensures footprint + released == old(footprint)
      ensures OnlyIdleGone(old(segs), old(g.C), segs)
      ensures sys.stuck == old(sys.stuck) ==> AllIdleGone(old(g.C), segs) && AllIdleGone(g.C, segs)
      ensures releaseChecks == Max(|old(segs)| - 1, MAX_RELEASE_CHECK_RATE)
    {
      hide ViewsOk, WordsOk, LinksWhole, CoherentWith, Spaced, HasWord, Undisturbed, Bins.Valid, BooksOk, DroppedSegs,
           Pool, Dropped, Releasable;
      SelfUndisturbed();
      released := 0;
      if segs != [] { FirstStays(g, mem.head, mem.foot, segs, top, topsize, Pool(bins.chunks, dv, dvsize)); }
      var nsegs, i := 0, 1;
      ghost var C0 := g.C;
      while i < |segs|
        invariant sys.refusals >= old(sys.refusals) && sys.stuck >= old(sys.stuck)
        invariant 1 <= i && Valid() && g.live == old(g.live) && Undisturbed(old(g), g, g.live, old(mem.data), mem.data)
        invariant footprint + released == old(footprint) && nsegs + Max(|segs|, 1) - i == Max(|old(segs)|, 1) - 1
        invariant i <= Max(|segs|, 1)
        invariant OnlyIdleGone(old(segs), C0, segs) && SameIdle(C0, g.C, segs)
        invariant sys.stuck == old(sys.stuck) ==> forall j | 0 <= j < i && j < |segs| :: !Releasable(C0, segs[j])
        decreases |segs| - i
      {
        ghost var g1, d1, segs1 := g, mem.data, segs;
        nsegs := nsegs + 1;
        IdleDropped(g, mem.head, mem.foot, segs, top, topsize, Pool(bins.chunks, dv, dvsize), i, old(segs), C0);
        var r := ReleaseIfIdle(i);
        UndisturbedTrans(old(g), g1, g, g.live, g.live, g.live, old(mem.data), d1, mem.data);
        released := released + r;
        if r == 0 {
          assert Releasable(C0, segs[i]) <==> Releasable(g.C, segs[i]);
          i := i + 1;
        }
      }
      releaseChecks := if nsegs > MAX_RELEASE_CHECK_RATE then nsegs else MAX_RELEASE_CHECK_RATE;
    }

    lemma SelfUndisturbed()
      requires Core()
      ensures Undisturbed(g, g, g.live, mem.data, mem.data)
    {
      hide ViewsOk, WordsOk, LinksWhole, CoherentWith, Spaced, HasWord, Undisturbed, Bins.Valid;
      UndisturbedRefl(g, mem.head, mem.foot, segs, top, topsize, Pool(bins.chunks, dv, dvsize), mem.data);
    }

    /** `has_segment_link`: whether a segment record lies in segment `i`. */
    method HasSegmentLink(i: nat) returns (b: bool)
      requires i < |segs|
      ensures b <==> exists j :: 1 <= j < |segs| && segs[i].base <= segs[j].rec + 16 < segs[i].End()
    {
      var j := 1;
      while j < |segs|
        invariant 1 <= j && forall k | 1 <= k < j && k < |segs| :: !(segs[i].base <= segs[k].rec + 16 < segs[i].End())
      {
        if segs[i].base <= segs[j].rec + 16 < segs[i].End() {
          return true;
        }
        j := j + 1;
      }
      return false;
    }

    /** The first segment shrinks at its end by `extra` bytes. */
    method TrimRegion(extra: nat)
      requires Core() && top != 0 && 0 < extra < topsize && extra % PAGE == 0 && segs != []
      modifies this`segs, this`top, this`topsize, this`trimCheck, mem`head, mem`data, this`g
      ensures Core() && old(segs != []) && segs == ResizedSegs(old(segs), old(topsize), old(topsize) - extra)
      ensures topsize == old(topsize) - extra && top == old(top) && g.live == old(g.live)
              && Undisturbed(old(g), g, g.live, old(mem.data), mem.data)
      ensures trimCheck == trimThreshold
    {
      hide ViewsOk, WordsOk, LinksWhole, CoherentWith, Spaced, HasWord, Undisturbed, Bins.Valid, ResizedHeads, TagBytes,
           RoomFor, ResizedSegs, Resized;
      ghost var F, ts := Pool(bins.chunks, dv, dvsize), topsize - extra;
      TrimFits(g, mem.head, mem.foot, segs, top, topsize, F, extra);
      segs := ResizedSegs(segs, topsize, topsize - extra);
      InitTop(top, topsize - extra);
      ResizedViews(g, old(mem.head), mem.foot, old(segs), top, old(topsize), F, ts, old(mem.data), mem.data,
                   bins.chunks, bins.net.ring);
      g := Ghost(Resized(g.C, top, old(topsize), ts), g.live, g.maps);
    }

    /** `top` and the first segment end `extra` bytes earlier. */
    method ShrinkTop(extra: nat, ghost mapped0: seq<Region>)
      requires Core() && ParamsOk() && lost <= g.maps.Keys
               && BooksOk(segs, g.maps, mapped0, footprint, maxFootprint, leastAddr)
      requires top != 0 && 0 < extra < topsize && extra % PAGE == 0 && segs != []
               && sys.mapped == Carve(mapped0, segs[0].End() - extra, segs[0].End())
      modifies this`segs, this`top, this`topsize, this`trimCheck, this`footprint, mem`head, mem`data, this`g
      ensures Valid() && g.live == old(g.live) && Undisturbed(old(g), g, g.live, old(mem.data), mem.data)
      ensures footprint == old(footprint) - extra && topsize == old(topsize) - extra && top == old(top)
      ensures trimCheck == trimThreshold
    {
      hide ViewsOk, WordsOk, LinksWhole, CoherentWith, Spaced, HasWord, Undisturbed, BooksOk, Bins.Valid, ResizedSegs,
           Carve;
      TrimFits(g, mem.head, mem.foot, segs, top, topsize, Pool(bins.chunks, dv, dvsize), extra);
      TrimmedBooks(segs, topsize, topsize - extra, g.maps, mapped0, footprint, maxFootprint, leastAddr, extra);
      footprint := footprint - extra;
      TrimRegion(extra);
      hide Core;
      MapsOfUndisturbed(old(g), g, g.live, old(mem.data), mem.data);
    }

    /** No record lies in the first segment. */
    lemma NoLink()
      requires Core() && segs != []
      ensures forall j | 1 <= j < |segs| :: !(segs[0].base <= segs[j].rec + 16 < segs[0].End())
    {
      hide WordsOk, LinksWhole, CoherentWith, Spaced, HasWord, Bins.Valid, SegsOk;
      forall j | 1 <= j < |segs| ensures !(segs[0].base <= segs[j].rec + 16 < segs[0].End()) {
        NoLinkInFirst(g.C, segs, top, topsize, j);
      }
    }

    /** The first half of `sys_trim`: `top` gives back all whole units above the padding but one. */
    method TrimTop(pad: nat) returns (released: nat)
      requires Valid() && top != 0 && pad < topsize
      modifies this`segs, this`top, this`topsize, this`trimCheck, this`footprint, mem`head, mem`data, sys, this`g
      ensures sys.refusals >= old(sys.refusals) && sys.stuck >= old(sys.stuck)
      ensures Valid() && g.live == old(g.live) && Undisturbed(old(g), g, g.live, old(mem.data), mem.data)
      ensures footprint + released == old(footprint) && topsize + released == old(topsize) && topsize > pad
              && top == old(top)
      ensures released == if sys.stuck == old(sys.stuck) then TrimExtra(old(topsize), pad, granularity) else 0
      ensures trimCheck == if released != 0 then trimThreshold else old(trimCheck)
    {
      hide ViewsOk, WordsOk, LinksWhole, CoherentWith, Spaced, HasWord, Undisturbed, Bins.Valid, BooksOk, Carve,
           TrimExtra;
      ghost var F := Pool(bins.chunks, dv, dvsize);
      SelfUndisturbed();
      TopPresent(g, mem.head, mem.foot, segs, top, topsize, F);
      TopHeld(g, mem.head, mem.foot, segs, top, topsize, F);
      TrimLeaves(topsize, pad, granularity);
      var extra := TrimExtra(topsize, pad, granularity);
      TrimFits(g, mem.head, mem.foot, segs, top, topsize, F, extra);
      released := 0;
      NoLink();
      var sp := SegmentHolding(top);
      var linked := HasSegmentLink(sp);
      if segs[sp].size >= extra && !linked {
        ghost var mapped0 := sys.mapped;
        var newsize := segs[sp].size - extra;
        var ok := sys.Munmap(segs[sp].base + newsize, extra);
        if ok {
          released := extra;
        }
        NothingCarved(segs, g.maps, mapped0, footprint, maxFootprint, leastAddr, segs[sp].End());
        if released != 0 {
          ShrinkTop(extra, mapped0);
        }
      }
    }

    /** `sys_trim`: gives memory back from the end of `top` and from idle segments.  All blocks stay, and `top` keeps
        more than the padding.  Unless the system refuses to take memory back, it keeps no more than a unit beyond
        that, and no idle segment is left.  A trim that could give nothing back switches further ones off. */
    method SysTrim(pad: nat) returns (trimmed: bool)
      requires Valid()
      modifies this`segs, this`top, this`topsize, this`dv, this`dvsize, this`trimCheck, this`releaseChecks,
               this`footprint, mem, bins, sys, this`g
      ensures sys.refusals >= old(sys.refusals) && sys.stuck >= old(sys.stuck)
      ensures Valid() && g.live == old(g.live) && Undisturbed(old(g), g, g.live, old(mem.data), mem.data)
      ensures trimmed <==> footprint < old(footprint)
      ensures footprint <= old(footprint) && top == old(top) && (topsize == old(topsize) || topsize > pad + TOP_FOOT)
      ensures pad < MAX_REQUEST && top != 0 && sys.stuck == old(sys.stuck) ==>
              TrimmedTo(old(topsize), topsize, pad + TOP_FOOT, granularity) && AllIdleGone(g.C, segs)
      ensures trimCheck == if pad >= MAX_REQUEST || top == 0 then old(trimCheck)
                           else if topsize < old(topsize) then trimThreshold
                           else if !trimmed && topsize > old(trimCheck) then WORD_RANGE - 1
                           else old(trimCheck)
    {
      hide ViewsOk, WordsOk, LinksWhole, CoherentWith, Spaced, HasWord, Undisturbed, Bins.Valid, BooksOk, Pool,
           TrimExtra,
           AllIdleGone, OnlyIdleGone;
      SelfUndisturbed();
      TopPresent(g, mem.head, mem.foot, segs, top, topsize, Pool(bins.chunks, dv, dvsize));
      var released := 0;
      if pad < MAX_REQUEST && top != 0 {
        if topsize > pad + TOP_FOOT {
          TrimMeans(topsize, pad + TOP_FOOT, granularity);
          released := TrimTop(pad + TOP_FOOT);
        }
        ghost var g1, d1 := g, mem.data;
        var r := ReleaseUnusedSegments();
        UndisturbedTrans(old(g), g1, g, g.live, g.live, g.live, old(mem.data), d1, mem.data);
        released := released + r;
        if released == 0 && topsize > trimCheck {
          trimCheck := WORD_RANGE - 1;
        }
      }
      trimmed := released != 0;
    }

    // ----- free

    /** The mapping of chunk `p` has gone, and nothing else: just its bytes are not mapped any more, and the footprint
        is less by its size. */
    ghost predicate GaveBack(g0: Ghost, g1: Ghost, p: int, fp: nat, mapped0: seq<Region>, lost0: set<int>)
      reads this, sys
    {
      && p in g0.maps && g1 == Ghost(g0.C, g0.live, g0.maps - {p}) && footprint == fp - g0.maps[p].size && lost == lost0
      && Carved(mapped0, sys.mapped, g0.maps[p].base, g0.maps[p].End())
    }

    /** A mapped chunk is given back to the system. */
    method FreeMapped(p: int)
      requires Valid() && p in g.maps && p !in lost
      modifies sys, this`footprint, this`g, this`lost
      ensures sys.refusals >= old(sys.refusals) && sys.stuck >= old(sys.stuck)
      ensures Valid() && Held() == old(Held()) - {p} && g.live == old(g.live)
              && Keeps(old(g), g, old(Held()) - {p}, mem.data, mem.data)
      ensures footprint <= old(footprint)
      ensures sys.stuck == old(sys.stuck) ==> GaveBack(old(g), g, p, old(footprint), old(sys.mapped), old(lost))
      ensures sys.stuck > old(sys.stuck) ==>
              g == old(g) && footprint == old(footprint) && sys.mapped == old(sys.mapped) && lost == old(lost) + {p}
    {
      hide ViewsOk, WordsOk, LinksWhole, CoherentWith, Spaced, HasWord, Bins.Valid, BooksOk, Keeps, Carve, Pool, Carved;
      ghost var F, g0, mapped0 := Pool(bins.chunks, dv, dvsize), g, sys.mapped;
      MapTags(g, mem.head, mem.foot, segs, top, topsize, F, p);
      MapsElsewhere(g, mem.head, mem.foot, segs, top, topsize, F);
      SelfKeeps(g, mem.data);
      UnmappedKeeps(g, p, mem.data);
      UnmappedBooks(segs, g.maps, mapped0, footprint, maxFootprint, leastAddr, p);
      UnmappedViews(g, mem.head, mem.foot, segs, top, topsize, F, p);
      UnmappedWhole(g, mem.head, F, bins.chunks, bins.net.ring, mem.data, p);
      CarveCarves(sys.mapped, g.maps[p].base, g.maps[p].End());
      var prevsize := mem.foot.At(p);
      var psize := mem.head.At(p).size + prevsize + 32;
      var ok := sys.Munmap(p - prevsize, psize);
      if ok {
        footprint := footprint - psize;
        g := Ghost(g.C, g.live, g.maps - {p});
      } else {
        lost := lost + {p};
        KeepsFewer(g0, g0, g0.live + g0.maps.Keys, g0.live + g0.maps.Keys - {p}, mem.data, mem.data);
      }
      KeepsFewer(g0, g, g0.live + g0.maps.Keys - {p}, old(Held()) - {p}, mem.data, mem.data);
    }

    /** How the chunk `p` was given back. */
    twostate predicate Freed(p: int)
      reads this, mem, bins, sys
    {
      var lo, n := old(Before(mem.head, mem.foot, p)), old(p + mem.head.At(p).size);
      var into := JoinPlace(lo, n, old(top), old(dv));
      var size := JoinSize(lo, n, Pool(old(bins.chunks), old(dv), old(dvsize)), old(top), old(topsize));
      SettledFrom(into, size, old(segs), old(footprint), old(trimCheck), old(releaseChecks), old(sys.stuck),
                  if into == InTop then lo else old(top))
    }

    /** A chunk in a segment is given back, and memory may go back to the system. */
    method FreeChunkAt(p: int)
      requires Valid() && p in g.live
      modifies this`segs, this`top, this`topsize, this`dv, this`dvsize, this`trimCheck, this`releaseChecks,
               this`footprint, mem, bins, sys, this`g
      ensures sys.refusals >= old(sys.refusals) && sys.stuck >= old(sys.stuck)
      ensures Valid() && g.live == old(g.live) - {p} && Undisturbed(old(g), g, g.live, old(mem.data), mem.data)
      ensures footprint <= old(footprint)
      ensures old(BetweenUsed(p)) && IsSmall(old(mem.head.At(p).size)) ==> segs == old(segs)
      ensures Freed(p)
    {
      hide ViewsOk, WordsOk, LinksWhole, CoherentWith, Spaced, HasWord, Undisturbed, Bins.Valid, BooksOk, Pool, Before,
           TrimmedTo, AllIdleGone, JoinPlace, JoinSize, SettledFrom;
      ghost var F, n := Pool(bins.chunks, dv, dvsize), p + mem.head.At(p).size;
      Surroundings(g, mem.head, mem.foot, segs, top, topsize, F, p);
      var into, size := Consolidate(p);
      MapsOfUndisturbed(old(g), g, g.live, old(mem.data), mem.data);
      ghost var g1, d1 := g, mem.data;
      assert Valid();
      hide Core, Valid;
      Settle(into, size);
      UndisturbedTrans(old(g), g1, g, g1.live, g1.live, g1.live, old(mem.data), d1, mem.data);
    }

    /** What follows once a stretch of `size` bytes has been given back.  If it went into `top` and that got beyond the
        threshold, memory is trimmed.  If it went into a tree bin, the count of checks goes down, and at 0 idle segments
        are released.  Otherwise nothing goes back to the system. */
    ghost predicate SettledFrom(into: Place, size: int, segs0: seq<Seg>, footprint0: nat, trimCheck0: nat, checks0: nat,
                                stuck0: nat, top0: int)
      reads this, sys
    {
      var counts := into == InBin && !IsSmallSize(size);
      if into == InTop && size > trimCheck0 then
        && size >= 0 && top == top0
        && (sys.stuck == stuck0 ==> TrimmedTo(size, topsize, TOP_FOOT, granularity) && AllIdleGone(g.C, segs))
      else if counts && ChecksLess(checks0) == 0 then
        releaseChecks == Max(|segs0| - 1, MAX_RELEASE_CHECK_RATE) && (sys.stuck == stuck0 ==> AllIdleGone(g.C, segs))
      else
        && segs == segs0 && footprint == footprint0 && trimCheck == trimCheck0
        && (into == InTop ==> top == top0 && topsize == size)
        && releaseChecks == if counts then ChecksLess(checks0) else checks0
    }

    /** What `_free` does once the chunk has been joined. */
    method Settle(into: Place, size: nat)
      requires Valid() && (into == InTop ==> top > 0 && size == topsize)
      modifies this`segs, this`top, this`topsize, this`dv, this`dvsize, this`trimCheck, this`releaseChecks,
               this`footprint, mem, bins, sys, this`g
      ensures sys.refusals >= old(sys.refusals) && sys.stuck >= old(sys.stuck)
      ensures Valid() && g.live == old(g.live) && Undisturbed(old(g), g, g.live, old(mem.data), mem.data)
      ensures footprint <= old(footprint)
      ensures SettledFrom(into, size, old(segs), old(footprint), old(trimCheck), old(releaseChecks), old(sys.stuck),
                          old(top))
      ensures into != InTop && (into == InBin ==> IsSmallSize(size)) ==> segs == old(segs)
    {
      hide ViewsOk, WordsOk, LinksWhole, CoherentWith, Spaced, HasWord, Undisturbed, Bins.Valid, BooksOk, Pool,
           TrimmedTo,
           AllIdleGone, OnlyIdleGone;
      SelfUndisturbed();
      if into == InTop {
        if size > trimCheck {
          var trimmed := SysTrim(0);
        }
      } else if into == InBin && !IsSmall(size) {
        releaseChecks := ChecksLess(releaseChecks);
        if releaseChecks == 0 {
          var released := ReleaseUnusedSegments();
        }
      }
    }

    /** `dlfree`: the block at `m` is given back; every other block stays, bytes included. */
    method Free(m: int)
      requires Valid() && (m == 0 || m - 16 in Held())
      modifies this`segs, this`top, this`topsize, this`dv, this`dvsize, this`trimCheck, this`releaseChecks,
               this`footprint, mem, bins, sys, this`g, this`lost
      ensures sys.refusals >= old(sys.refusals) && sys.stuck >= old(sys.stuck)
      ensures Valid() && Held() == old(Held()) - {m - 16}
              && Keeps(old(g), g, old(Held()) - {m - 16}, old(mem.data), mem.data)
      ensures footprint <= old(footprint)
      ensures m - 16 in old(g.live) && old(BetweenUsed(m - 16)) && IsSmall(old(mem.head.At(m - 16).size)) ==>
              segs == old(segs)
      ensures m - 16 in old(g.maps) && m - 16 !in old(g.live) && sys.stuck == old(sys.stuck) ==>
              GaveBack(old(g), g, m - 16, old(footprint), old(sys.mapped), old(lost))
      ensures m - 16 in old(g.maps) && m - 16 !in old(g.live) && sys.stuck > old(sys.stuck) ==>
              g == old(g) && footprint == old(footprint) && sys.mapped == old(sys.mapped)
              && lost == old(lost) + {m - 16}
      ensures m - 16 in old(g.live) ==> g.maps == old(g.maps) && lost == old(lost)
      ensures m - 16 in old(g.live) ==> Freed(m - 16)
    {
      hide ViewsOk, WordsOk, LinksWhole, CoherentWith, Spaced, HasWord, Undisturbed, Bins.Valid, BooksOk, Keeps, Pool;
      ghost var F := Pool(bins.chunks, dv, dvsize);
      MapsElsewhere(g, mem.head, mem.foot, segs, top, topsize, F);
      if m == 0 {
        NoBlockBelowZero(g, mem.head, mem.foot, segs, top, topsize, F);
        SelfKeeps(g, mem.data);
        KeepsFewer(g, g, g.live + g.maps.Keys, Held() - {m - 16}, mem.data, mem.data);
      } else {
        var p := m - 16;
        HeadTellsMapped(g, mem.head, mem.foot, segs, top, topsize, F, p);
        if !mem.head.At(p).pinuse && !mem.head.At(p).cinuse {
          FreeMapped(p);
        } else {
          FreeChunkAt(p);
          MapsElsewhere(g, mem.head, mem.foot, segs, top, topsize, Pool(bins.chunks, dv, dvsize));
          MapsOfUndisturbed(old(g), g, g.live, old(mem.data), mem.data);
          UndisturbedKeeps(old(g), g, g.live, old(mem.data), mem.data);
          KeepsFewer(old(g), g, g.live + g.maps.Keys, old(Held()) - {p}, old(mem.data), mem.data);
        }
      }
    }

    // ----- changing the size of a chunk in place

    /** The stretch from `p` to `hi` becomes a chunk of `nb` bytes and a used chunk behind it. */
    method SplitUsed(p: int, nb: nat, hi: int, ghost F: map<int, nat>)
      requires Views(F) && p in g.live && Reaches(g.C, p, hi) && MIN_CHUNK <= nb && IsAligned(nb)
               && p + nb + MIN_CHUNK <= hi && !(p + g.C[p].size == top && hi != top)
      requires hi != p + g.C[p].size ==> p + g.C[p].size !in bins.chunks
      modifies mem`head, mem`data, this`g
      ensures p in old(g.C) && Views(Rest(F, old(g.C), p, hi)) && g.live == old(g.live) + {p + nb}
              && p + nb !in old(g.live)
      ensures p in g.C && g.C[p] == Chunk(nb, Used) && p + nb in g.C && g.C[p + nb] == Chunk(hi - p - nb, Used)
      ensures Undisturbed(old(g), g, old(g.live) - {p}, old(mem.data), mem.data)
              && FrontKept(p, p + nb + 8, old(mem.data), mem.data)
    {
      hide ViewsOk, WordsOk, LinksWhole, CoherentWith, Spaced, HasWord, Undisturbed, Ghost2, TagBytes, FrontKept,
           Heads.Set, Heads.At, IsAligned, Rest;
      SetTwoInuse(p, nb, hi);
      Regrown2(g, old(mem.head), mem.head, mem.foot, mem.foot, segs, top, topsize, F, p, nb, hi, Used, old(mem.data),
               mem.data, bins.chunks, bins.net.ring);
      g := Ghost2(g, p, p + nb, hi, Used, Used);
    }

    /** `set_inuse` twice, for the two parts of a used stretch. */
    method SetTwoInuse(p: int, nb: nat, hi: int)
      requires mem.Coherent() && MIN_CHUNK <= nb && p + nb + MIN_CHUNK <= hi
      modifies mem`head, mem`data
      ensures mem.Coherent() && HasWord(mem.data, p, HeadW) && HasWord(mem.data, p + nb, HeadW)
      ensures forall a {:trigger mem.head.At(a)} ::
              a != p && a != p + nb && a != hi ==> mem.head.At(a) == old(mem.head).At(a)
      ensures mem.head.At(p) == Head(nb, old(mem.head).At(p).pinuse, true)
              && mem.head.At(p + nb) == Head(hi - p - nb, true, true)
      ensures mem.head.At(hi) == Head(old(mem.head).At(hi).size, true, old(mem.head).At(hi).cinuse)
      ensures TagBytes(old(mem.data), mem.data, p, p + nb, hi) && FrontKept(p, p + nb + 8, old(mem.data), mem.data)
    {
      hide CoherentWith, HasWord, TagBytes, HeadBytes, FrontKept;
      var r, rsize := p + nb, hi - p - nb;
      mem.SetInuse(p, nb);
      ghost var d1 := mem.data;
      HeadsInRow(old(mem.data), d1, p, r, p, r, hi);
      mem.SetInuse(r, rsize);
      HeadsInRow(d1, mem.data, r, hi, p, r, hi);
      TagBytesTrans(old(mem.data), d1, mem.data, p, r, hi);
      FrontOfTwo(p, nb, hi, old(mem.data), d1, mem.data);
    }

    /** The back of a used stretch is cut off and given back. */
    method CutOff(p: int, nb: nat, hi: int, ghost F: map<int, nat>)
      requires bins.mem == mem && bins.Valid() && DvOk(bins.chunks, dv, dvsize) && Views(F) && p in g.live
               && Reaches(g.C, p, hi)
      requires MIN_CHUNK <= nb && IsAligned(nb) && p + nb + MIN_CHUNK <= hi && !(p + g.C[p].size == top && hi != top)
      requires Rest(F, g.C, p, hi) == Pool(bins.chunks, dv, dvsize)
               && (hi != p + g.C[p].size ==> p + g.C[p].size !in bins.chunks)
      modifies mem, bins, this`dv, this`dvsize, this`top, this`topsize, this`g
      ensures Core() && g.live == old(g.live) && p in g.C && g.C[p] == Chunk(nb, Used)
      ensures Undisturbed(old(g), g, old(g.live) - {p}, old(mem.data), mem.data)
              && FrontKept(p, p + nb + 8, old(mem.data), mem.data)
    {
      hide ViewsOk, WordsOk, LinksWhole, CoherentWith, Spaced, HasWord, Undisturbed, Bins.Valid, FrontKept, IsAligned,
           Rest, Reaches;
      SplitUsed(p, nb, hi, F);
      ghost var g1, d1 := g, mem.data;
      var into, size := Consolidate(p + nb);
      UndisturbedTrans(old(g), g1, g, old(g.live) - {p}, g1.live - {p + nb}, old(g.live) - {p}, old(mem.data), d1,
                       mem.data);
      FrontOfUndisturbed(g1, g, g1.live - {p + nb}, p, d1, mem.data);
      FrontTrans(p, p + nb + 8, p + nb + 8, p + nb + 8, old(mem.data), d1, mem.data);
    }

    /** A chunk that is big enough already: the rest is given back if it can be a chunk. */
    method ShrinkChunk(p: int, nb: nat)
      requires Core() && p in g.live && p in g.C && MIN_CHUNK <= nb <= g.C[p].size && IsAligned(nb)
      modifies mem, bins, this`dv, this`dvsize, this`top, this`topsize, this`g
      ensures Core() && ResizedTo(old(g), g, p, nb, old(mem.data), mem.data)
      ensures HasSize(g, p, if old(g.C[p].size) < nb + MIN_CHUNK then old(g.C[p].size) else nb)
    {
      hide ViewsOk, WordsOk, LinksWhole, CoherentWith, Spaced, HasWord, Undisturbed, Bins.Valid, FrontKept, IsAligned;
      ghost var F := Pool(bins.chunks, dv, dvsize);
      Surroundings(g, mem.head, mem.foot, segs, top, topsize, F, p);
      ReachesNext(g, mem.head, mem.foot, segs, top, topsize, F, p);
      var oldsize := mem.head.At(p).size;
      var rsize := oldsize - nb;
      if rsize >= MIN_CHUNK {
        CutOff(p, nb, p + oldsize, F);
      } else {
        SelfUndisturbed();
        SelfResized(g, p, mem.data);
      }
    }

    method SetInuseBeforeTop(p: int, nb: nat, ts: nat)
      requires mem.Coherent() && MIN_CHUNK <= nb
      modifies mem`head, mem`data
      ensures mem.Coherent() && HasWord(mem.data, p, HeadW) && HasWord(mem.data, p + nb, HeadW)
      ensures forall a {:trigger mem.head.At(a)} :: a != p && a != p + nb ==> mem.head.At(a) == old(mem.head).At(a)
      ensures mem.head.At(p) == Head(nb, old(mem.head).At(p).pinuse, true)
              && mem.head.At(p + nb) == Head(ts, true, false)
      ensures HeadBytes(old(mem.data), mem.data, p, p + nb)
    {
      hide CoherentWith, HasWord, HeadBytes, Bytes.SetWord;
      mem.SetInuse(p, nb);
      ghost var d1 := mem.data;
      OneHead(d1, p + nb, Head(ts, true, false).Word());
      mem.SetHead(p + nb, Head(ts, true, false));
      HeadBytesTrans(old(mem.data), d1, mem.data, p, p + nb);
    }

    /** Chunk `p` grows into `top`, which is right behind it. */
    method GrowIntoTop(p: int, nb: nat)
      requires Core() && p in g.live && p in g.C && p + g.C[p].size == top && g.C[p].size <= nb < g.C[p].size + topsize
               && IsAligned(nb)
      modifies mem`head, mem`data, this`top, this`topsize, this`g
      ensures Core() && ResizedTo(old(g), g, p, nb, old(mem.data), mem.data)
      ensures HasSize(g, p, nb)
    {
      hide ViewsOk, WordsOk, LinksWhole, CoherentWith, Spaced, HasWord, Undisturbed, Bins.Valid, FrontKept, IsAligned,
           TagBytes, Ghost2, Heads.Set, Heads.At, HeadBytes;
      ghost var F, oldsize, hi := Pool(bins.chunks, dv, dvsize), g.C[p].size, top + topsize;
      ReachesNext(g, mem.head, mem.foot, segs, top, topsize, F, p);
      JoinsTop(g, mem.head, mem.foot, segs, top, topsize, F, p);
      UsedIsBig(g, mem.head, mem.foot, segs, top, topsize, F, p);
      TopNotBinned(g, mem.head, mem.foot, segs, top, topsize, F, bins.chunks, bins.net.ring, mem.data);
      GrownAligned(g, mem.head, mem.foot, segs, top, topsize, F, p, nb);
      var newtopsize := mem.head.At(p).size + topsize - nb;
      SetInuseBeforeTop(p, nb, newtopsize);
      FrontOfHeads(p, oldsize, nb, hi, old(mem.data), mem.data);
      Regrown2(g, old(mem.head), mem.head, mem.foot, mem.foot, segs, top, topsize, F, p, nb, hi, Top, old(mem.data),
               mem.data, bins.chunks, bins.net.ring);
      g := Ghost2(g, p, p + nb, hi, Used, Top);
      top, topsize := p + nb, newtopsize;
    }

    method SetInuseBeforeFree(p: int, nb: nat, rsize: nat)
      requires mem.Coherent() && MIN_CHUNK <= nb && MIN_CHUNK <= rsize
      modifies mem`head, mem`foot, mem`data
      ensures mem.Coherent() && HasWord(mem.data, p, HeadW) && HasWord(mem.data, p + nb, HeadW)
              && HasWord(mem.data, p + nb + rsize, FootW)
      ensures forall a {:trigger mem.head.At(a)} ::
              a != p && a != p + nb && a != p + nb + rsize ==> mem.head.At(a) == old(mem.head).At(a)
      ensures mem.head.At(p) == Head(nb, old(mem.head).At(p).pinuse, true)
              && mem.head.At(p + nb) == Head(rsize, true, false)
      ensures mem.head.At(p + nb + rsize)
              == Head(old(mem.head).At(p + nb + rsize).size, false, old(mem.head).At(p + nb + rsize).cinuse)
      ensures mem.foot == old(mem.foot).Set(p + nb + rsize, rsize)
      ensures TagBytes(old(mem.data), mem.data, p, p + nb, p + nb + rsize)
              && FrontKept(p, p + nb + 8, old(mem.data), mem.data)
    {
      hide CoherentWith, HasWord, TagBytes, HeadBytes, FrontKept, FreeBytes;
      var r := p + nb;
      var n := r + rsize;
      mem.SetInuse(p, nb);
      ghost var d1 := mem.data;
      mem.SetFreeWithPinuse(r, rsize);
      HeadsInRow(old(mem.data), d1, p, r, p, r, n);
      FreeInRow(d1, mem.data, p, r, n);
      TagBytesTrans(old(mem.data), d1, mem.data, p, r, n);
      FrontOfRow(p, nb, n, old(mem.data), mem.data, d1);
    }

    /** Chunk `p` takes in the whole free chunk behind it. */
    method TakeInNext(p: int, hi: int, ghost F: map<int, nat>)
      requires Views(F) && p in g.live && p in g.C && p + g.C[p].size in F && hi == p + g.C[p].size + F[p + g.C[p].size]
               && g.C[p].size < hi - p
      requires p + g.C[p].size !in bins.chunks
      modifies mem`head, mem`data, this`g
      ensures p in old(g.C) && Views(F - {p + old(g.C[p].size)}) && g.live == old(g.live) && p in g.C
              && g.C[p] == Chunk(hi - p, Used)
      ensures Undisturbed(old(g), g, old(g.live) - {p}, old(mem.data), mem.data)
              && FrontKept(p, p + old(g.C[p].size) + 8, old(mem.data), mem.data)
    {
      hide ViewsOk, WordsOk, LinksWhole, CoherentWith, Spaced, HasWord, Undisturbed, FrontKept, IsAligned, TagBytes,
           Ghost1, Heads.Set, Heads.At, HeadBytes;
      ReachesNext(g, mem.head, mem.foot, segs, top, topsize, F, p);
      UsedIsBig(g, mem.head, mem.foot, segs, top, topsize, F, p);
      mem.SetInuse(p, hi - p);
      FrontOfHeads(p, g.C[p].size, hi - p, hi, old(mem.data), mem.data);
      Regrown1(g, old(mem.head), mem.head, mem.foot, segs, top, topsize, F, p, hi, old(mem.data), mem.data, bins.chunks,
               bins.net.ring);
      g := Ghost1(g, p, hi, Used);
    }

    /** Chunk `p` takes in the front of the free chunk behind it. */
    method TakeInFront(p: int, nb: nat, rsize: nat, ghost F: map<int, nat>)
      requires Views(F) && p in g.live && p in g.C && p + g.C[p].size in F
               && p + nb + rsize == p + g.C[p].size + F[p + g.C[p].size]
      requires MIN_CHUNK <= g.C[p].size <= nb && MIN_CHUNK <= rsize && IsAligned(nb) && F[p + g.C[p].size] > 0
               && p + g.C[p].size !in bins.chunks
      modifies mem`head, mem`foot, mem`data, this`g
      ensures p in old(g.C) && Views((F - {p + old(g.C[p].size)})[p + nb := rsize]) && g.live == old(g.live) && p in g.C
              && g.C[p] == Chunk(nb, Used)
      ensures Undisturbed(old(g), g, old(g.live) - {p}, old(mem.data), mem.data)
              && FrontKept(p, p + nb + 8, old(mem.data), mem.data)
    {
      hide ViewsOk, WordsOk, LinksWhole, CoherentWith, Spaced, HasWord, Undisturbed, FrontKept, IsAligned, TagBytes,
           Ghost2, Heads.Set, Heads.At;
      ReachesNext(g, mem.head, mem.foot, segs, top, topsize, F, p);
      UsedIsBig(g, mem.head, mem.foot, segs, top, topsize, F, p);
      SetInuseBeforeFree(p, nb, rsize);
      Regrown2(g, old(mem.head), mem.head, old(mem.foot), mem.foot, segs, top, topsize, F, p, nb, p + nb + rsize,
               Kind.Free, old(mem.data), mem.data, bins.chunks, bins.net.ring);
      g := Ghost2(g, p, p + nb, p + nb + rsize, Used, Kind.Free);
    }

    /** Chunk `p` grows into the designated victim, which is right behind it. */
    method GrowIntoVictim(p: int, nb: nat)
      requires Core() && p in g.live && p in g.C && p + g.C[p].size == dv && dvsize > 0
               && g.C[p].size <= nb <= g.C[p].size + dvsize && IsAligned(nb)
      modifies mem`head, mem`foot, mem`data, this`dv, this`dvsize, this`g
      ensures Core() && ResizedTo(old(g), g, p, nb, old(mem.data), mem.data)
      ensures var all := old(g.C[p].size) + old(dvsize); HasSize(g, p, if all < nb + MIN_CHUNK then all else nb)
    {
      hide ViewsOk, WordsOk, LinksWhole, CoherentWith, Spaced, HasWord, Undisturbed, Bins.Valid, FrontKept, IsAligned,
           TagBytes, Ghost2, Heads.Set, Heads.At;
      ghost var F, oldsize := Pool(bins.chunks, dv, dvsize), g.C[p].size;
      var hi := dv + dvsize;
      ReachesNext(g, mem.head, mem.foot, segs, top, topsize, F, p);
      UsedIsBig(g, mem.head, mem.foot, segs, top, topsize, F, p);
      PoolVictimTaken(F, bins.chunks, dv, dvsize);
      var dsize := mem.head.At(p).size + dvsize - nb;
      if dsize >= MIN_CHUNK {
        VictimMoved(g, mem.head, mem.foot, segs, top, topsize, F, p, nb, hi, bins.chunks, dv, dvsize);
        TakeInFront(p, nb, dsize, F);
        FrontFewer(p, p + nb + 8, p + oldsize + 8, old(mem.data), mem.data);
        dvsize, dv := dsize, p + nb;
      } else {
        TakeInNext(p, hi, F);
        dvsize, dv := 0, 0;
      }
    }

    /** Chunk `p` grows into a binned chunk right behind it. */
    method GrowIntoNext(p: int, nb: nat)
      requires Core() && p in g.live && p in g.C && var n := p + g.C[p].size;
               n in bins.chunks && g.C[p].size <= nb <= g.C[p].size + bins.chunks[n] && IsAligned(nb)
      modifies mem, bins, this`dv, this`dvsize, this`top, this`topsize, this`g
      ensures Core() && ResizedTo(old(g), g, p, nb, old(mem.data), mem.data)
      ensures var all := old(g.C[p].size + bins.chunks[p + g.C[p].size]);
              HasSize(g, p, if all < nb + MIN_CHUNK then all else nb)
    {
      hide ViewsOk, WordsOk, LinksWhole, CoherentWith, Spaced, HasWord, Undisturbed, Bins.Valid, FrontKept, IsAligned,
           Reaches;
      ghost var F, oldsize, B := Pool(bins.chunks, dv, dvsize), g.C[p].size, bins.chunks;
      PoolHolds(B, dv, dvsize);
      ReachesNext(g, mem.head, mem.foot, segs, top, topsize, F, p);
      UsedIsBig(g, mem.head, mem.foot, segs, top, topsize, F, p);
      var next := p + mem.head.At(p).size;
      var nextsize := mem.head.At(next).size;
      var hi := next + nextsize;
      PoolTaken(F, next, B, dv, dvsize);
      UnlinkBinned(next, nextsize, F);
      ghost var d1 := mem.data;
      FrontOfUndisturbed(g, g, g.live, p, old(mem.data), d1);
      if hi - p - nb < MIN_CHUNK {
        TakeInNext(p, hi, F);
      } else {
        CutOff(p, nb, hi, F);
        FrontFewer(p, p + nb + 8, p + oldsize + 8, d1, mem.data);
      }
      UndisturbedTrans(old(g), old(g), g, old(g.live), old(g.live) - {p}, old(g.live) - {p}, old(mem.data), d1,
                       mem.data);
      FrontTrans(p, p + oldsize + 8, p + oldsize + 8, p + oldsize + 8, old(mem.data), d1, mem.data);
    }

    // ----- realloc

    /** `mmap_resize`, without `mremap`: a mapped chunk that is big enough, but not much too big, stays. */
    method MmapResize(p: int, nb: nat) returns (ok: bool)
      requires Valid() && p in g.maps && nb < WORD_RANGE - 96
      ensures ok <==> MayKeep(g.maps[p].End() - 32 - p, nb, granularity)
    {
      hide ViewsOk, WordsOk, LinksWhole, CoherentWith, Spaced, HasWord, BooksOk, Bins.Valid;
      MapTags(g, mem.head, mem.foot, segs, top, topsize, Pool(bins.chunks, dv, dvsize), p);
      var oldsize := mem.head.At(p).size;
      if IsSmall(nb) {
        return false;
      }
      ok := oldsize >= nb + 8 && oldsize - nb <= 2 * granularity % WORD_RANGE;
    }

    /** The cases of `try_realloc_chunk` for a chunk in a segment. */
    method ResizeChunk(p: int, nb: nat) returns (ok: bool)
      requires Core() && p in g.live && MIN_CHUNK <= nb && IsAligned(nb)
      modifies mem, bins, this`dv, this`dvsize, this`top, this`topsize, this`g
      ensures Core() && (ok ==> ResizedTo(old(g), g, p, nb, old(mem.data), mem.data))
              && (!ok ==> g == old(g) && mem.data == old(mem.data))
      ensures ok <==> old(CanStretch(g.C, top, topsize, Pool(bins.chunks, dv, dvsize), p, nb))
      ensures ok ==>
              Stretched(old(g.C), old(top), old(topsize), Pool(old(bins.chunks), old(dv), old(dvsize)), g, p, nb)
    {
      hide ViewsOk, WordsOk, LinksWhole, CoherentWith, Spaced, HasWord, Undisturbed, Bins.Valid, IsAligned, ResizedTo,
           Joins;
      ghost var F := Pool(bins.chunks, dv, dvsize);
      Surroundings(g, mem.head, mem.foot, segs, top, topsize, F, p);
      PoolHolds(bins.chunks, dv, dvsize);
      VictimIn(F, bins.chunks, dv, dvsize);
      var oldsize := mem.head.At(p).size;
      var next := p + oldsize;
      ok := false;
      if oldsize >= nb {
        ShrinkChunk(p, nb);
        ok := true;
      } else if next == top {
        if oldsize + topsize > nb {
          GrowIntoTop(p, nb);
          ok := true;
        }
      } else if next == dv {
        if oldsize + dvsize >= nb {
          GrowIntoVictim(p, nb);
          ok := true;
        }
      } else if !mem.head.At(next).cinuse {
        if oldsize + mem.head.At(next).size >= nb {
          GrowIntoNext(p, nb);
          ok := true;
        }
      }
    }

    /** The block in chunk `p` can have `nb` bytes where it is; a mapping is kept if it is big enough but not too big.
        */
    ghost predicate CanStay(p: int, nb: nat)
      reads this, bins
    {
      if p in g.live then CanStretch(g.C, top, topsize, Pool(bins.chunks, dv, dvsize), p, nb)
      else p in g.maps && MayKeep(g.maps[p].End() - 32 - p, nb, granularity)
    }

    /** `try_realloc_chunk`. */
    method TryRealloc(p: int, nb: nat, ghost n: nat) returns (ok: bool)
      requires Valid() && p in Held() && MIN_CHUNK <= nb < WORD_RANGE - 96 && IsAligned(nb) && n + 8 <= nb
      modifies mem, bins, this`dv, this`dvsize, this`top, this`topsize, this`g
      ensures Valid() && Held() == old(Held())
      ensures ok ==> InPlace(old(g), g, p, n, old(mem.data), mem.data) && Snug(g, p, nb)
      ensures !ok ==> g == old(g) && mem.data == old(mem.data)
      ensures ok <==> old(CanStay(p, nb))
      ensures ok && p in g.live ==>
              Stretched(old(g.C), old(top), old(topsize), Pool(old(bins.chunks), old(dv), old(dvsize)), g, p, nb)
    {
      hide ViewsOk, WordsOk, LinksWhole, CoherentWith, Spaced, HasWord, BooksOk, Bins.Valid, IsAligned, Keeps,
           FrontKept;
      ghost var F := Pool(bins.chunks, dv, dvsize);
      MapsElsewhere(g, mem.head, mem.foot, segs, top, topsize, F);
      HeadTellsMapped(g, mem.head, mem.foot, segs, top, topsize, F, p);
      if !mem.head.At(p).pinuse && !mem.head.At(p).cinuse {
        ok := MmapResize(p, nb);
        if ok {
          SameInPlace(g, p, n, mem.data);
        }
      } else {
        ok := ResizeChunk(p, nb);
        if ok {
          MapsElsewhere(g, mem.head, mem.foot, segs, top, topsize, Pool(bins.chunks, dv, dvsize));
          ResizedInPlace(old(g), g, p, nb, n, old(mem.data), mem.data);
        }
      }
    }

    /** The usable bytes of a block, as the tags of its chunk give them. */
    method UsableSize(p: int) returns (n: nat)
      requires Valid() && p in Held()
      ensures p + 16 + n == BlockEnd(g, p)
    {
      hide ViewsOk, WordsOk, LinksWhole, CoherentWith, Spaced, HasWord, BooksOk, Bins.Valid;
      ghost var F := Pool(bins.chunks, dv, dvsize);
      MapsElsewhere(g, mem.head, mem.foot, segs, top, topsize, F);
      HeadTellsMapped(g, mem.head, mem.foot, segs, top, topsize, F, p);
      MapRoom(g, mem.head, mem.foot, segs, top, topsize, F, p);
      var h := mem.head.At(p);
      n := if !h.pinuse && !h.cinuse then h.size - 16 else h.size - 8;
    }

    /** The bytes of block `p` are copied to the front of block `q`. */
    method CopyBlock(p: int, q: int, n: nat)
      requires Valid() && p in Held() && q in Held() && p != q && p + 16 + n <= BlockEnd(g, p)
               && q + 16 + n <= BlockEnd(g, q)
      modifies mem`data
      ensures Valid() && Keeps(g, g, g.live + g.maps.Keys - {q}, old(mem.data), mem.data)
      ensures forall a {:trigger mem.data.At(a)} | q + 16 <= a < q + 16 + n ::
              mem.data.At(a).Number() == old(mem.data).At(a - (q + 16) + (p + 16)).Number()
    {
      hide ViewsOk, WordsOk, LinksWhole, CoherentWith, Spaced, HasWord, BooksOk, Bins.Valid, Keeps;
      ghost var F := Pool(bins.chunks, dv, dvsize);
      BlocksApart(g, mem.head, mem.foot, segs, top, topsize, F, p, q);
      mem.Copy(q + 16, p + 16, n);
      WritesKeep(g, mem.head, mem.foot, segs, top, topsize, F, q, old(mem.data), mem.data, bins.chunks, bins.net.ring);
    }

    /** The bytes of block `p` go to the new block `q`, and `p` is given back.  `was` and `d0` are from before `q` was
        there. */
    method ReplaceBlock(p: int, q: int, bytes: nat, ghost was: Ghost, ghost d0: Bytes, ghost H: set<int>)
      requires Valid() && Keeps(was, g, was.live + was.maps.Keys, d0, mem.data) && H <= was.live + was.maps.Keys
      requires p in H && q !in H && Held() == H + {q} && q + 16 + bytes <= BlockEnd(g, q) && bytes < MAX_REQUEST
               && Snug(g, q, Request2Size(bytes))
      modifies this`segs, this`top, this`topsize, this`dv, this`dvsize, this`trimCheck, this`releaseChecks,
               this`footprint, mem, bins, sys, this`g, this`lost
      ensures sys.refusals >= old(sys.refusals) && sys.stuck >= old(sys.stuck) && footprint <= old(footprint)
      ensures Valid() && Held() == H - {p} + {q} && q + 16 + bytes <= BlockEnd(g, q)
      ensures Keeps(was, g, H - {p}, d0, mem.data) && Snug(g, q, Request2Size(bytes))
      ensures Copied(p, q, Min(bytes, BlockEnd(was, p) - p - 16), d0, mem.data)
      ensures sys.stuck == old(sys.stuck) ==> lost == old(lost)
    {
      hide BooksOk, Bins.Valid, Keeps, Copied, Core, ParamsOk, Valid, Freed, Snug, BlockEnd;
      ghost var g1, d1 := g, mem.data;
      SameEnd(was, g1, was.live + was.maps.Keys, p, d0, d1);
      var oc := UsableSize(p);
      var n := if oc < bytes then oc else bytes;
      CopyBlock(p, q, n);
      ghost var d2 := mem.data;
      Free(p + 16);
      MovedThrough(was, g1, g, H, H + {q}, p, q, n, bytes, d0, d1, d2, mem.data);
      LiveInLayout();
      SnugKept(g1, g, H + {q} - {p}, q, Request2Size(bytes), d2, mem.data);
    }

    /** The part of `dlrealloc` that moves a block. */
    method MoveBlock(p: int, bytes: nat) returns (m: int)
      requires Valid() && p in Held() && bytes < MAX_REQUEST
      modifies this`segs, this`top, this`topsize, this`dv, this`dvsize, this`trimCheck, this`releaseChecks,
               this`footprint, this`maxFootprint, this`leastAddr, mem, bins, sys, this`g, this`lost
      ensures sys.refusals >= old(sys.refusals) && sys.stuck >= old(sys.stuck)
      ensures Valid() && (m == 0 ==> g == old(g) && mem.data == old(mem.data) && Held() == old(Held()))
      ensures m != 0 ==>
              Held() == old(Held()) - {p} + {m - 16} && m - 16 !in old(Held()) && m + bytes <= BlockEnd(g, m - 16)
              && IsAligned(m)
      ensures m != 0 ==> Keeps(old(g), g, old(Held()) - {p}, old(mem.data), mem.data)
      ensures m != 0 ==> Copied(p, m - 16, Min(bytes, BlockEnd(old(g), p) - p - 16), old(mem.data), mem.data)
      ensures if m != 0 then
              Snug(g, m - 16, Request2Size(bytes)) else NoMemory(bytes, old(sys.refusals), old(footprint))
      ensures footprintLimit != 0 && old(footprint) <= footprintLimit ==> footprint <= footprintLimit
      ensures sys.stuck == old(sys.stuck) ==> lost == old(lost)
    {
      hide BooksOk, Bins.Valid, Keeps, Copied, ServedFrom, NothingServes, IsAligned, Core, ParamsOk, Valid, Supplied,
           VictimAfter, SizedFor, NextInTurn, CannotAsk, Snug, BlockEnd;
      m := Malloc(bytes);
      if m != 0 {
        BlockAligned(m);
        ReplaceBlock(p, m - 16, bytes, old(g), old(mem.data), old(Held()));
      }
    }

    /** `dlrealloc`: the block at `m` gets room for `bytes` bytes, in place or elsewhere, with the bytes it had as far
        as both sizes reach.  On failure it stays as it was.  No other block is touched. */
    method Realloc(m: int, bytes: nat) returns (m': int)
      requires Valid() && (m == 0 || m - 16 in Held()) && bytes < WORD_RANGE
      modifies this`segs, this`top, this`topsize, this`dv, this`dvsize, this`trimCheck, this`releaseChecks,
               this`footprint, this`maxFootprint, this`leastAddr, mem, bins, sys, this`g, this`lost
      ensures sys.refusals >= old(sys.refusals) && sys.stuck >= old(sys.stuck)
      ensures Valid() && (m' == 0 ==> g == old(g) && mem.data == old(mem.data) && Held() == old(Held()))
      ensures m' == 0 ==> NoMemory(bytes, old(sys.refusals), old(footprint))
      ensures m' != 0 ==>
              m' + bytes <= BlockEnd(g, m' - 16) && IsAligned(m') && bytes < MAX_REQUEST
              && Snug(g, m' - 16, Request2Size(bytes))
      ensures m' != 0 && m == 0 ==>
              Held() == old(Held()) + {m' - 16} && m' - 16 !in old(Held())
              && Keeps(old(g), g, old(Held()), old(mem.data), mem.data)
      ensures m' != 0 && m != 0 ==>
              Held() == old(Held()) - {m - 16} + {m' - 16}
              && Keeps(old(g), g, old(Held()) - {m - 16}, old(mem.data), mem.data)
      ensures m' != 0 && m != 0 ==>
              (m' == m || m' - 16 !in old(Held()))
              && Copied(m - 16, m' - 16, Min(bytes, BlockEnd(old(g), m - 16) - m), old(mem.data), mem.data)
      ensures footprintLimit != 0 && old(footprint) <= footprintLimit ==> footprint <= footprintLimit
      ensures sys.stuck == old(sys.stuck) ==> lost == old(lost)
      ensures m != 0 && bytes < MAX_REQUEST ==> (m' == m <==> old(CanStay(m - 16, Request2Size(bytes))))
      ensures m' == m != 0 && m - 16 in g.live ==>
              Stretched(old(g.C), old(top), old(topsize), Pool(old(bins.chunks), old(dv), old(dvsize)), g, m - 16,
                        Request2Size(bytes))
    {
      hide Keeps, Copied, ServedFrom, NothingServes, IsAligned, Valid, BlockEnd, FrontKept;
      if m == 0 {
        m' := Malloc(bytes);
        BlockAligned(m');
        if m' != 0 {
          KeepsFewer(old(g), g, old(g.live) + old(g.maps).Keys, old(Held()), old(mem.data), mem.data);
        }
      } else if bytes >= MAX_REQUEST {
        m' := 0;
      } else {
        PaddingFits(bytes);
        SizeIsAligned(bytes);
        HeldAligned(m - 16);
        var nb := Request2Size(bytes);
        var ok := TryRealloc(m - 16, nb, bytes);
        if ok {
          m' := m;
          CopiedInPlace(old(g), g, m - 16, bytes, old(mem.data), mem.data);
          KeepsFewer(old(g), g, old(g.live) + old(g.maps).Keys - {m - 16}, old(Held()) - {m - 16}, old(mem.data),
                     mem.data);
        } else {
          m' := MoveBlock(m - 16, bytes);
        }
      }
    }

    lemma LiveInLayout()
      requires Valid()
      ensures forall q | q in g.live :: q in g.C
    {
      hide ViewsOk, WordsOk, LinksWhole, CoherentWith, Spaced, HasWord, BooksOk, Bins.Valid;
      MapsElsewhere(g, mem.head, mem.foot, segs, top, topsize, Pool(bins.chunks, dv, dvsize));
    }

    lemma MapsNotLive()
      requires Valid()
      ensures forall q | q in g.maps :: q !in g.live
    {
      hide ViewsOk, WordsOk, LinksWhole, CoherentWith, Spaced, HasWord, BooksOk, Bins.Valid;
      MapsElsewhere(g, mem.head, mem.foot, segs, top, topsize, Pool(bins.chunks, dv, dvsize));
    }

    lemma UnitPositive()
      requires Valid()
      ensures granularity > 0
    {
    }

    lemma HeldAligned(p: int)
      requires Valid() && p in Held()
      ensures IsAligned(p + 16) && p > 0
    {
      hide ViewsOk, WordsOk, LinksWhole, CoherentWith, Spaced, HasWord, BooksOk, Bins.Valid;
      BlockPlaced(g, mem.head, mem.foot, segs, top, topsize, Pool(bins.chunks, dv, dvsize), p);
    }

    // ----- memalign

    /** The front of chunk `p` up to `q` is given back. */
    method CutFront(p: int, q: int)
      requires Core() && p in g.live && p in g.C && p + MIN_CHUNK <= q && q + MIN_CHUNK <= p + g.C[p].size
               && IsAligned(q - p)
      modifies mem, bins, this`dv, this`dvsize, this`top, this`topsize, this`g
      ensures Core() && p in old(g.C) && g.live == old(g.live) - {p} + {q} && q !in old(g.live) && q in g.C
              && g.C[q] == Chunk(p + old(g.C[p].size) - q, Used)
      ensures Undisturbed(old(g), g, old(g.live) - {p}, old(mem.data), mem.data)
    {
      hide ViewsOk, WordsOk, LinksWhole, CoherentWith, Spaced, HasWord, Undisturbed, Bins.Valid, FrontKept, IsAligned,
           Reaches;
      ghost var F, n := Pool(bins.chunks, dv, dvsize), p + g.C[p].size;
      ReachesNext(g, mem.head, mem.foot, segs, top, topsize, F, p);
      UsedIsBig(g, mem.head, mem.foot, segs, top, topsize, F, p);
      SplitUsed(p, q - p, p + mem.head.At(p).size, F);
      ghost var g1, d1 := g, mem.data;
      var into, size := Consolidate(p);
      UndisturbedTrans(old(g), g1, g, old(g.live) - {p}, g1.live - {p}, old(g.live) - {p}, old(mem.data), d1, mem.data);
      FrontOfUndisturbed(g1, g, g1.live - {p}, q, d1, mem.data);
    }

    /** The mapped chunk at `p` begins at `q` from now on. */
    method MoveMapped(p: int, q: int)
      requires Valid() && p in g.maps && p !in lost && p + 16 <= q && IsAligned(q) && q + 64 <= g.maps[p].End()
      modifies mem`head, mem`foot, mem`data, this`g
      ensures Valid() && p in old(g.maps) && g == Ghost(old(g.C), old(g.live), (old(g.maps) - {p})[q := old(g.maps[p])])
              && q !in old(g.maps) && q !in old(g.live) && q !in g.C
      ensures Keeps(old(g), g, old(g.live) + old(g.maps).Keys - {p}, old(mem.data), mem.data)
    {
      hide ViewsOk, WordsOk, LinksWhole, CoherentWith, Spaced, HasWord, BooksOk, Bins.Valid, Keeps, IsAligned,
           Heads.Set, Field.Set, SameOutside;
      ghost var F := Pool(bins.chunks, dv, dvsize);
      MapTags(g, mem.head, mem.foot, segs, top, topsize, F, p);
      RemappedViews(g, mem.head, mem.foot, segs, top, topsize, F, p, q);
      RemappedBooks(segs, g.maps, sys.mapped, footprint, maxFootprint, leastAddr, p, q);
      var lead := q - p;
      var newsize := mem.head.At(p).size - lead;
      mem.SetMapped(q, mem.foot.At(p) + lead, newsize);
      RemappedKeeps(g, old(mem.head), old(mem.foot), segs, top, topsize, F, p, q, old(mem.data), mem.data);
      RemappedWhole(g, old(mem.head), old(mem.foot), segs, top, topsize, F, p, q, old(mem.data), mem.data, mem.head,
                    mem.foot, bins.chunks, bins.net.ring);
      g := Ghost(g.C, g.live, (g.maps - {p})[q := g.maps[p]]);
    }

    /** The block in chunk `p` gives up its front so that it begins at a multiple of `a`. */
    method AlignBlock(p: int, a: nat, ghost k: nat) returns (q: int)
      requires Valid() && p in Held() && a == Pow2(k) && 5 <= k && p + a + 56 <= BlockEnd(g, p)
      modifies mem, bins, this`dv, this`dvsize, this`top, this`topsize, this`g
      ensures Valid() && Held() == old(Held()) - {p} + {q} && (q == p || q !in old(Held())) && p <= q <= p + a + 16
              && (q + 16) % a == 0 && p >= 0 && q == PlaceFor(p, a)
      ensures BlockEnd(g, q) == BlockEnd(old(g), p) && (q in g.live <==> p in old(g.live))
              && Keeps(old(g), g, old(Held()) - {p}, old(mem.data), mem.data)
    {
      hide ViewsOk, WordsOk, LinksWhole, CoherentWith, Spaced, HasWord, BooksOk, Bins.Valid, Keeps, IsAligned,
           AlignedPlace, Pow2, Undisturbed;
      ghost var F := Pool(bins.chunks, dv, dvsize);
      MapsElsewhere(g, mem.head, mem.foot, segs, top, topsize, F);
      HeadTellsMapped(g, mem.head, mem.foot, segs, top, topsize, F, p);
      HeldAligned(p);
      q := p;
      if (p + 16) % a == 0 {
        SelfKeeps(g, mem.data);
        KeepsFewer(g, g, g.live + g.maps.Keys, Held() - {p}, mem.data, mem.data);
      } else {
        AlignedBack(p);
        PowerOfSixteen(k);
        AlignedPlaceIs(p, a, k);
        q := AlignedPlace(p, a);
        if !mem.head.At(p).pinuse && !mem.head.At(p).cinuse {
          MoveMapped(p, q);
          KeepsFewer(old(g), g, old(g.live) + old(g.maps).Keys - {p}, old(Held()) - {p}, old(mem.data), mem.data);
        } else {
          AlignedDiff(q, p);
          CutFront(p, q);
          MapsElsewhere(g, mem.head, mem.foot, segs, top, topsize, Pool(bins.chunks, dv, dvsize));
          MapsOfUndisturbed(old(g), g, old(g.live) - {p}, old(mem.data), mem.data);
          UndisturbedKeeps(old(g), g, old(g.live) - {p}, old(mem.data), mem.data);
          KeepsFewer(old(g), g, old(g.live) - {p} + old(g.maps).Keys, old(Held()) - {p}, old(mem.data), mem.data);
        }
      }
    }

    /** A chunk in a segment gives back what it has beyond `nb` bytes, if that is more than a smallest chunk. */
    method TrimBlock(p: int, nb: nat)
      requires Valid() && p in Held() && MIN_CHUNK <= nb && IsAligned(nb)
               && (p in g.live ==> p in g.C && nb <= g.C[p].size)
      modifies mem, bins, this`dv, this`dvsize, this`top, this`topsize, this`g
      ensures Valid() && Held() == old(Held()) && g.live == old(g.live) && g.maps == old(g.maps)
              && Keeps(old(g), g, old(Held()) - {p}, old(mem.data), mem.data)
      ensures CutFrom(old(g), g, p, p, nb) && (p !in g.live ==> BlockEnd(g, p) == BlockEnd(old(g), p))
    {
      hide ViewsOk, WordsOk, LinksWhole, CoherentWith, Spaced, HasWord, BooksOk, Bins.Valid, Keeps, IsAligned,
           Undisturbed, Reaches;
      ghost var F := Pool(bins.chunks, dv, dvsize);
      MapsElsewhere(g, mem.head, mem.foot, segs, top, topsize, F);
      HeadTellsMapped(g, mem.head, mem.foot, segs, top, topsize, F, p);
      MapRoom(g, mem.head, mem.foot, segs, top, topsize, F, p);
      SelfKeeps(g, mem.data);
      KeepsFewer(g, g, g.live + g.maps.Keys, Held() - {p}, mem.data, mem.data);
      if mem.head.At(p).pinuse || mem.head.At(p).cinuse {
        var size := mem.head.At(p).size;
        if size > nb + MIN_CHUNK {
          ReachesNext(g, mem.head, mem.foot, segs, top, topsize, F, p);
          CutOff(p, nb, p + size, F);
          MapsElsewhere(g, mem.head, mem.foot, segs, top, topsize, Pool(bins.chunks, dv, dvsize));
          MapsOfUndisturbed(old(g), g, old(g.live) - {p}, old(mem.data), mem.data);
          UndisturbedKeeps(old(g), g, old(g.live) - {p}, old(mem.data), mem.data);
          KeepsFewer(old(g), g, old(g.live) - {p} + old(g.maps).Keys, old(Held()) - {p}, old(mem.data), mem.data);
        }
      }
    }

    /** The second half of `internal_memalign`: a block with room enough is aligned and cut to size. */
    method AlignAndTrim(p: int, a: nat, nb: nat, ghost k: nat) returns (q: int)
      requires Valid() && p in Held() && a == Pow2(k) && 5 <= k && MIN_CHUNK <= nb && IsAligned(nb)
               && p + nb + a + 40 <= BlockEnd(g, p)
      modifies mem, bins, this`dv, this`dvsize, this`top, this`topsize, this`g
      ensures Valid() && Held() == old(Held()) - {p} + {q} && (q == p || q !in old(Held())) && (q + 16) % a == 0
              && q > 0
      ensures q + nb + 8 <= BlockEnd(g, q) && p >= 0 && q == PlaceFor(p, a)
              && (q in g.live <==> p in old(g.live))
              && CutFrom(old(g), g, p, q, nb)
              && Keeps(old(g), g, old(Held()) - {p}, old(mem.data), mem.data)
    {
      hide Valid, Keeps, Pow2, IsAligned, PlaceFor;
      HeldIsReal(p);
      q := AlignBlock(p, a, k);
      ghost var g1, d1, H1 := g, mem.data, Held();
      HeldIsReal(q);
      TrimBlock(q, nb);
      KeepsTrans(old(g), g1, g, old(Held()) - {p}, H1 - {q}, old(Held()) - {p}, old(mem.data), d1, mem.data);
    }

    lemma HeldIsReal(q: int)
      requires Valid() && q in Held()
      ensures (q in g.live ==> q in g.C) && q > 0
    {
      hide ViewsOk, WordsOk, LinksWhole, CoherentWith, Spaced, HasWord, BooksOk, Bins.Valid;
      MapsElsewhere(g, mem.head, mem.foot, segs, top, topsize, Pool(bins.chunks, dv, dvsize));
      NoBlockBelowZero(g, mem.head, mem.foot, segs, top, topsize, Pool(bins.chunks, dv, dvsize));
    }

    /** Why there may be no aligned block: the request, or what it becomes with room for aligning, is too big or not
        served. */
    ghost predicate NoAligned(bytes: nat, a: nat, refusals: nat, fp: nat)
      requires bytes < WORD_RANGE
      reads this, sys
    {
      bytes + a >= MAX_REQUEST || NoMemory(WithRoom(bytes, a) - CHUNK_OVERHEAD, refusals, fp)
    }

    lemma LiveSizes(p: int)
      requires Valid() && p in g.live
      ensures p in g.C && IsAligned(g.C[p].size) && IsAligned(p) && p > 0
    {
      hide ViewsOk, WordsOk, LinksWhole, CoherentWith, Spaced, HasWord, BooksOk, Bins.Valid;
      UsedAligned(g, mem.head, mem.foot, segs, top, topsize, Pool(bins.chunks, dv, dvsize), p);
    }

    /** `internal_memalign`: a new block of at least `bytes` bytes whose address is a multiple of the alignment rounded
        up to `Pow2(k)`, or 0.  No other block is touched.  It lies in the chunk `from` that `malloc` gives for the
        padded request.  In a segment its chunk is as tight as one from `malloc`, except exactly if `from` was free
        before, has 16 bytes more than needed and its aligned place is farthest in: then it is 32 bytes too big. */
    method Memalign(alignment: nat, bytes: nat) returns (m: int, ghost from: int, ghost k: nat)
      requires Valid() && alignment <= Pow2(63) && bytes < WORD_RANGE
      modifies this`segs, this`top, this`topsize, this`dv, this`dvsize, this`trimCheck, this`releaseChecks,
               this`footprint, this`maxFootprint, this`leastAddr, mem, bins, sys, this`g
      ensures sys.refusals >= old(sys.refusals) && sys.stuck >= old(sys.stuck)
      ensures Valid() && (m == 0 ==> g == old(g) && mem.data == old(mem.data))
      ensures m != 0 ==>
              Held() == old(Held()) + {m - 16} && m - 16 !in old(Held()) && m + bytes <= BlockEnd(g, m - 16)
              && Keeps(old(g), g, old(Held()), old(mem.data), mem.data)
      ensures RoundedTo(alignment, k)
      ensures m != 0 ==> m % Pow2(k) == 0 && from > 0 && m - 16 == PlaceFor(from, Pow2(k)) && bytes < MAX_REQUEST
      ensures m != 0 && !NothingServes(old(bins.chunks), old(dvsize), old(topsize), WithRoom(bytes, Pow2(k))) ==>
              ServedFrom(old(bins.chunks), old(dv), old(dvsize), old(top), old(topsize), WithRoom(bytes, Pow2(k)), from)
      ensures m != 0 ==>
              (Snug(g, m - 16, Request2Size(bytes)) <==>
               NothingServes(old(bins.chunks), old(dvsize), old(topsize), WithRoom(bytes, Pow2(k)))
               || !LeavesExcess(Pool(old(bins.chunks), old(dv), old(dvsize)), from, Pow2(k), bytes))
      ensures m != 0 && m - 16 in g.live ==>
              m - 16 in g.C && Request2Size(bytes) <= g.C[m - 16].size <= Request2Size(bytes) + MIN_CHUNK
      ensures m == 0 ==> NoAligned(bytes, Pow2(k), old(sys.refusals), old(footprint))
      ensures footprintLimit != 0 && old(footprint) <= footprintLimit ==> footprint <= footprintLimit
    {
      hide Valid, Keeps, Pow2, ServedFrom, NothingServes, LeavesExcess, Snug, PlaceFor, Request2Size, NoMemory, Pool,
           BlockEnd;
      var a;
      a, k := RoundAlignment(alignment);
      m, from := 0, 0;
      HalfRange();
      PowerBound(k);
      if bytes < MAX_REQUEST - a {
        m, from := MemalignRoom(bytes, a, k);
      }
    }

    /** The request fits a word with room for aligning: malloc, then align, then cut. */
    method MemalignRoom(bytes: nat, a: nat, ghost k: nat) returns (m: int, ghost from: int)
      requires Valid() && a == Pow2(k) && 5 <= k <= 63 && bytes + a < MAX_REQUEST
      modifies this`segs, this`top, this`topsize, this`dv, this`dvsize, this`trimCheck, this`releaseChecks,
               this`footprint, this`maxFootprint, this`leastAddr, mem, bins, sys, this`g
      ensures sys.refusals >= old(sys.refusals) && sys.stuck >= old(sys.stuck)
      ensures Valid() && (m == 0 ==> g == old(g) && mem.data == old(mem.data))
      ensures m != 0 ==>
              Held() == old(Held()) + {m - 16} && m - 16 !in old(Held()) && m + bytes <= BlockEnd(g, m - 16)
              && Keeps(old(g), g, old(Held()), old(mem.data), mem.data)
      ensures a > 0 && (m != 0 ==> m % a == 0 && from > 0 && m - 16 == PlaceFor(from, a))
      ensures m != 0 && !NothingServes(old(bins.chunks), old(dvsize), old(topsize), WithRoom(bytes, a)) ==>
              ServedFrom(old(bins.chunks), old(dv), old(dvsize), old(top), old(topsize), WithRoom(bytes, a), from)
      ensures m != 0 ==>
              (Snug(g, m - 16, Request2Size(bytes)) <==>
               NothingServes(old(bins.chunks), old(dvsize), old(topsize), WithRoom(bytes, a))
               || !LeavesExcess(Pool(old(bins.chunks), old(dv), old(dvsize)), from, a, bytes))
      ensures m != 0 && m - 16 in g.live ==>
              m - 16 in g.C && Request2Size(bytes) <= g.C[m - 16].size <= Request2Size(bytes) + MIN_CHUNK
      ensures m == 0 ==> NoAligned(bytes, a, old(sys.refusals), old(footprint))
      ensures footprintLimit != 0 && old(footprint) <= footprintLimit ==> footprint <= footprintLimit
    {
      hide Valid, Keeps, Pow2, ServedFrom, NothingServes, LeavesExcess, PlaceFor, KeptOf, Request2Size, NoMemory, Pool,
           CutTo, IsAligned, Supplied, VictimAfter, NextInTurn, Core, AllZero;
      PowerOfSixteen(k);
      PaddingFits(bytes);
      SizeIsAligned(bytes);
      SizeBound(bytes);
      ghost var F, new0 := Pool(bins.chunks, dv, dvsize),
      NothingServes(bins.chunks, dvsize, topsize, WithRoom(bytes, a));
      var nb := Request2Size(bytes);
      RequestOfRoom(bytes, a);
      m := Malloc(nb + a + MIN_CHUNK - CHUNK_OVERHEAD);
      from := m - 16;
      if m != 0 {
        ghost var g1, d1, H1 := g, mem.data, Held();
        KeepsFewer(old(g), g1, old(g.live) + old(g.maps).Keys, old(Held()), old(mem.data), d1);
        if from in g.live { LiveSizes(from); }
        HeldIsReal(from);
        var q := AlignAndTrim(m - 16, a, nb, k);
        KeepsTrans(old(g), g1, g, old(Held()), H1 - {m - 16}, old(Held()), old(mem.data), d1, mem.data);
        m := q + 16;
        if q in g.live {
          AlignedSnug(g, q, F, new0, from, a, k, bytes, g1.C[from].size);
        }
      }
    }

    // ----- bulk free

    /** The chunk at `p` takes in the used chunk `n` behind it. */
    method MergeNext(p: int, n: int)
      requires Core() && p in g.live && n in g.live && p in g.C && n == p + g.C[p].size
      modifies mem`head, mem`data, this`g
      ensures Core() && g.live == old(g.live) - {n}
              && Undisturbed(old(g), g, old(g.live) - {p} - {n}, old(mem.data), mem.data)
    {
      hide ViewsOk, WordsOk, LinksWhole, CoherentWith, Spaced, HasWord, Undisturbed, Bins.Valid, HeadBytes, TagBytes,
           Ghost1, Heads.Set, Heads.At;
      ghost var F := Pool(bins.chunks, dv, dvsize);
      UsedIsBig(g, mem.head, mem.foot, segs, top, topsize, F, p);
      UsedIsBig(g, mem.head, mem.foot, segs, top, topsize, F, n);
      var newsize := mem.head.At(n).size + mem.head.At(p).size;
      mem.SetInuse(p, newsize);
      FrontOfHeads(p, newsize, newsize, p + newsize, old(mem.data), mem.data);
      MergedUsed(g, old(mem.head), mem.head, mem.foot, segs, top, topsize, F, p, p + newsize, old(mem.data), mem.data,
                 bins.chunks, bins.net.ring);
      g := Ghost1(g, p, p + newsize, Used);
    }

    /** `dispose_chunk`, for any block. */
    method Dispose(p: int)
      requires Valid() && p in Held()
      modifies this`top, this`topsize, this`dv, this`dvsize, this`footprint, mem, bins, sys, this`g, this`lost
      ensures sys.refusals >= old(sys.refusals) && sys.stuck >= old(sys.stuck)
      ensures Valid() && Held() == old(Held()) - {p} && Keeps(old(g), g, old(Held()) - {p}, old(mem.data), mem.data)
      ensures footprint <= old(footprint)
      ensures p in old(g.maps) && p !in old(g.live) && sys.stuck == old(sys.stuck) ==>
              GaveBack(old(g), g, p, old(footprint), old(sys.mapped), old(lost))
      ensures p in old(g.maps) && p !in old(g.live) && sys.stuck > old(sys.stuck) ==>
              g == old(g) && footprint == old(footprint) && sys.mapped == old(sys.mapped) && lost == old(lost) + {p}
      ensures p in old(g.live) ==> g.maps == old(g.maps) && lost == old(lost)
    {
      hide ViewsOk, WordsOk, LinksWhole, CoherentWith, Spaced, HasWord, Undisturbed, Bins.Valid, BooksOk, Keeps, Pool;
      ghost var F := Pool(bins.chunks, dv, dvsize);
      MapsElsewhere(g, mem.head, mem.foot, segs, top, topsize, F);
      HeadTellsMapped(g, mem.head, mem.foot, segs, top, topsize, F, p);
      if !mem.head.At(p).pinuse && !mem.head.At(p).cinuse {
        FreeMapped(p);
      } else {
        var into, size := Consolidate(p);
        MapsElsewhere(g, mem.head, mem.foot, segs, top, topsize, Pool(bins.chunks, dv, dvsize));
        MapsOfUndisturbed(old(g), g, g.live, old(mem.data), mem.data);
        UndisturbedKeeps(old(g), g, g.live, old(mem.data), mem.data);
        KeepsFewer(old(g), g, g.live + g.maps.Keys, old(Held()) - {p}, old(mem.data), mem.data);
      }
    }

    /** One turn of the loop of `internal_bulk_free`: block `p` takes in the next one of the list if that is right
        behind it, and is given back otherwise. */
    method BulkStep(p: int, e: int) returns (merged: bool)
      requires Valid() && p in Held() && (e == 0 || (e - 16 in Held() && e - 16 != p))
      modifies this`top, this`topsize, this`dv, this`dvsize, this`footprint, mem, bins, sys, this`g, this`lost
      ensures sys.refusals >= old(sys.refusals) && sys.stuck >= old(sys.stuck)
      ensures Valid() && footprint <= old(footprint) && (merged ==> e != 0)
      ensures Held() == old(Held()) - (if merged then {e - 16} else {p})
      ensures Keeps(old(g), g, old(Held()) - {p} - {e - 16}, old(mem.data), mem.data)
      ensures sys.stuck == old(sys.stuck) ==> lost == old(lost)
    {
      hide ViewsOk, WordsOk, LinksWhole, CoherentWith, Spaced, HasWord, Undisturbed, Bins.Valid, BooksOk, Keeps, Pool;
      ghost var F := Pool(bins.chunks, dv, dvsize);
      MapsElsewhere(g, mem.head, mem.foot, segs, top, topsize, F);
      NoBlockBelowZero(g, mem.head, mem.foot, segs, top, topsize, F);
      if p in g.maps {
        NothingAfterMapped(g, mem.head, mem.foot, segs, top, topsize, F, p);
      } else {
        Surroundings(g, mem.head, mem.foot, segs, top, topsize, F, p);
        NextInLayout(g, mem.head, mem.foot, segs, top, topsize, F, p);
      }
      var next := p + mem.head.At(p).size;
      merged := e == next + 16;
      if merged {
        MergeNext(p, next);
        MapsElsewhere(g, mem.head, mem.foot, segs, top, topsize, Pool(bins.chunks, dv, dvsize));
        MapsOfUndisturbed(old(g), g, old(g.live) - {p} - {next}, old(mem.data), mem.data);
        UndisturbedKeeps(old(g), g, old(g.live) - {p} - {next}, old(mem.data), mem.data);
        KeepsFewer(old(g), g, old(g.live) - {p} - {next} + g.maps.Keys, old(Held()) - {p} - {e - 16}, old(mem.data),
                   mem.data);
      } else {
        Dispose(p);
        KeepsFewer(old(g), g, old(Held()) - {p}, old(Held()) - {p} - {e - 16}, old(mem.data), mem.data);
      }
    }

    /** The loop of `internal_bulk_free`: all blocks of the list are given back and its entries cleared; every other
        block stays, and no memory of a segment goes back to the system. */
    method BulkLoop(a: array<int>)
      requires Valid() && NoneTwice(a[..]) && ChunksOf(a[..]) <= Held()
      modifies a, this`top, this`topsize, this`dv, this`dvsize, this`footprint, mem, bins, sys, this`g, this`lost
      ensures sys.refusals >= old(sys.refusals) && sys.stuck >= old(sys.stuck)
      ensures Valid() && Held() == old(Held()) - old(ChunksOf(a[..])) && (forall i | 0 <= i < a.Length :: a[i] == 0)
              && footprint <= old(footprint)
      ensures Keeps(old(g), g, old(Held()) - old(ChunksOf(a[..])), old(mem.data), mem.data)
      ensures sys.stuck == old(sys.stuck) ==> lost == old(lost)
    {
      hide Valid, Keeps, ChunksOf, NoneTwice;
      ghost var H0, all := Held(), ChunksOf(a[..]);
      SelfHeldKeeps();
      KeepsFewer(g, g, H0, H0 - all, mem.data, mem.data);
      var i := 0;
      assert a[..] == a[0..];
      while i < a.Length
        invariant sys.refusals >= old(sys.refusals) && sys.stuck >= old(sys.stuck)
        invariant sys.stuck == old(sys.stuck) ==> lost == old(lost)
        invariant 0 <= i <= a.Length && Valid() && (forall j | 0 <= j < i :: a[j] == 0) && footprint <= old(footprint)
        invariant NoneTwice(a[i..]) && ChunksOf(a[i..]) <= all && Held() == H0 - all + ChunksOf(a[i..])
        invariant Keeps(old(g), g, H0 - all, old(mem.data), mem.data)
      {
        ghost var s, g1, d1, H1 := a[i..], g, mem.data, Held();
        ChunksOfTail(s);
        if a[i] != 0 {
          var p := a[i] - 16;
          a[i] := 0;
          var e := if i + 1 < a.Length then a[i + 1] else 0;
          SecondChunk(s);
          var merged := BulkStep(p, e);
          if merged {
            a[i + 1] := p + 16;
            ChunksOfMerged(s, a[i + 1..]);
          } else {
            assert a[i + 1..] == s[1..];
          }
          KeepsTrans(old(g), g1, g, H0 - all, H1 - {p} - {e - 16}, H0 - all, old(mem.data), d1, mem.data);
        } else {
          assert a[i + 1..] == s[1..];
        }
        i := i + 1;
      }
      NoChunksLeft(a[i..]);
    }

    /** `internal_bulk_free`: all blocks of the list are given back and its entries cleared; every other block stays. */
    method BulkFree(a: array<int>)
      requires Valid() && NoneTwice(a[..]) && ChunksOf(a[..]) <= Held()
      modifies a, this`segs, this`top, this`topsize, this`dv, this`dvsize, this`trimCheck, this`releaseChecks,
               this`footprint, mem, bins, sys, this`g, this`lost
      ensures sys.refusals >= old(sys.refusals) && sys.stuck >= old(sys.stuck)
      ensures Valid() && Held() == old(Held()) - old(ChunksOf(a[..])) && (forall i | 0 <= i < a.Length :: a[i] == 0)
              && footprint <= old(footprint)
      ensures Keeps(old(g), g, old(Held()) - old(ChunksOf(a[..])), old(mem.data), mem.data)
      ensures sys.stuck == old(sys.stuck) ==> lost == old(lost)
      ensures sys.stuck == old(sys.stuck) ==>
              topsize <= old(trimCheck) || topsize <= TOP_FOOT + granularity
    {
      hide Valid, Keeps, ChunksOf, NoneTwice;
      ghost var H := Held() - ChunksOf(a[..]);
      BulkLoop(a);
      if topsize > trimCheck {
        ghost var g1, d1 := g, mem.data;
        TopThere();
        var trimmed := TrimKeeping(0);
        KeepsTrans(old(g), g1, g, H, Held(), H, old(mem.data), d1, mem.data);
      }
    }

    /** The same, for a list. */
    method BulkFreeList(ms: seq<int>)
      requires Valid() && NoneTwice(ms) && ChunksOf(ms) <= Held()
      modifies this`segs, this`top, this`topsize, this`dv, this`dvsize, this`trimCheck, this`releaseChecks,
               this`footprint, mem, bins, sys, this`g, this`lost
      ensures sys.refusals >= old(sys.refusals) && sys.stuck >= old(sys.stuck)
      ensures Valid() && Held() == old(Held()) - ChunksOf(ms)
              && Keeps(old(g), g, old(Held()) - ChunksOf(ms), old(mem.data), mem.data)
      ensures sys.stuck == old(sys.stuck) ==> lost == old(lost)
    {
      hide Valid, Keeps, ChunksOf, NoneTwice;
      var a := new int[|ms|](i requires 0 <= i < |ms| => ms[i]);
      assert a[..] == ms;
      BulkFree(a);
    }

    /** The blocks of a list given back one at a time, in its order, each joined with its free neighbours. */
    method DisposeEach(s: seq<int>)
      requires Valid() && NoneTwice(s) && ChunksOf(s) <= Held()
      modifies this`top, this`topsize, this`dv, this`dvsize, this`footprint, mem, bins, sys, this`g, this`lost
      ensures sys.refusals >= old(sys.refusals) && sys.stuck >= old(sys.stuck)
      ensures Valid() && Held() == old(Held()) - ChunksOf(s)
              && Keeps(old(g), g, old(Held()) - ChunksOf(s), old(mem.data), mem.data)
      ensures sys.stuck == old(sys.stuck) ==> lost == old(lost)
    {
      hide Valid, Keeps, ChunksOf, NoneTwice;
      ghost var H0, all := Held(), ChunksOf(s);
      SelfHeldKeeps();
      KeepsFewer(g, g, H0, H0 - all, mem.data, mem.data);
      assert s[0..] == s;
      for i := 0 to |s|
        invariant sys.refusals >= old(sys.refusals) && sys.stuck >= old(sys.stuck)
        invariant sys.stuck == old(sys.stuck) ==> lost == old(lost)
        invariant Valid() && NoneTwice(s[i..]) && ChunksOf(s[i..]) <= all && Held() == H0 - all + ChunksOf(s[i..])
        invariant Keeps(old(g), g, H0 - all, old(mem.data), mem.data)
      {
        ghost var g1, d1, H1 := g, mem.data, Held();
        ChunksOfTail(s[i..]);
        assert s[i..][1..] == s[i + 1..];
        if s[i] != 0 {
          Dispose(s[i] - 16);
          KeepsTrans(old(g), g1, g, H0 - all, H1 - {s[i] - 16}, H0 - all, old(mem.data), d1, mem.data);
        }
      }
      NoChunksLeft(s[|s|..]);
    }

    lemma SelfHeldKeeps()
      requires Valid()
      ensures Keeps(g, g, Held(), mem.data, mem.data) && forall q | q in Held() :: q > 0
    {
      hide ViewsOk, WordsOk, LinksWhole, CoherentWith, Spaced, HasWord, Bins.Valid, BooksOk, Keeps;
      NoBlockBelowZero(g, mem.head, mem.foot, segs, top, topsize, Pool(bins.chunks, dv, dvsize));
      MapsElsewhere(g, mem.head, mem.foot, segs, top, topsize, Pool(bins.chunks, dv, dvsize));
      SelfKeeps(g, mem.data);
      KeepsFewer(g, g, g.live + g.maps.Keys, Held(), mem.data, mem.data);
    }

    /** `dlmalloc_trim`: all blocks stay. */
    method TrimKeeping(pad: nat) returns (trimmed: bool)
      requires Valid()
      modifies this`segs, this`top, this`topsize, this`dv, this`dvsize, this`trimCheck, this`releaseChecks,
               this`footprint, mem, bins, sys, this`g
      ensures sys.refusals >= old(sys.refusals) && sys.stuck >= old(sys.stuck)
      ensures Valid() && Held() == old(Held()) && Keeps(old(g), g, Held(), old(mem.data), mem.data)
              && footprint <= old(footprint)
      ensures pad < MAX_REQUEST && top != 0 && sys.stuck == old(sys.stuck) ==>
              TrimmedTo(old(topsize), topsize, pad + TOP_FOOT, granularity) && AllIdleGone(g.C, segs)
      ensures top == old(top)
    {
      hide ViewsOk, WordsOk, LinksWhole, CoherentWith, Spaced, HasWord, Undisturbed, Bins.Valid, BooksOk, Keeps, Pool;
      MapsElsewhere(g, mem.head, mem.foot, segs, top, topsize, Pool(bins.chunks, dv, dvsize));
      trimmed := SysTrim(pad);
      MapsElsewhere(g, mem.head, mem.foot, segs, top, topsize, Pool(bins.chunks, dv, dvsize));
      MapsOfUndisturbed(old(g), g, g.live, old(mem.data), mem.data);
      UndisturbedKeeps(old(g), g, g.live, old(mem.data), mem.data);
      KeepsFewer(old(g), g, g.live + g.maps.Keys, Held(), old(mem.data), mem.data);
    }

    // ----- calloc

    method ClearBlock(p: int, n: nat)
      requires Valid() && p in Held() && p + 16 + n <= BlockEnd(g, p)
      modifies mem`data
      ensures Valid() && Keeps(g, g, Held() - {p}, old(mem.data), mem.data) && AllZero(mem.data, p + 16, p + 16 + n)
    {
      hide ViewsOk, WordsOk, LinksWhole, CoherentWith, Spaced, HasWord, BooksOk, Bins.Valid, Keeps;
      ghost var F := Pool(bins.chunks, dv, dvsize);
      mem.Clear(p + 16, n);
      WritesKeep(g, mem.head, mem.foot, segs, top, topsize, F, p, old(mem.data), mem.data, bins.chunks, bins.net.ring);
      KeepsFewer(g, g, g.live + g.maps.Keys - {p}, Held() - {p}, old(mem.data), mem.data);
    }

    /** `dlcalloc`: room for `n` elements of `size` bytes, all 0: the system hands out mappings cleared, and other
        blocks are cleared here.  A product that does not fit a word is refused. */
    method Calloc(n: nat, size: nat) returns (m: int)
      requires Valid() && n < WORD_RANGE && size < WORD_RANGE
      modifies this`segs, this`top, this`topsize, this`dv, this`dvsize, this`trimCheck, this`releaseChecks,
               this`footprint, this`maxFootprint, this`leastAddr, mem, bins, sys, this`g
      ensures sys.refusals >= old(sys.refusals) && sys.stuck >= old(sys.stuck)
      ensures Valid() && (m == 0 ==> g == old(g) && mem.data == old(mem.data))
      ensures m != 0 ==>
              Total(n, size) < MAX_REQUEST && Held() == old(Held()) + {m - 16} && m - 16 !in old(Held())
              && m + Total(n, size) <= BlockEnd(g, m - 16)
      ensures m != 0 ==> Keeps(old(g), g, old(Held()), old(mem.data), mem.data)
      ensures m != 0 ==> AllZero(mem.data, m, m + Total(n, size))
      ensures m == 0 ==> NoMemory(Total(n, size), old(sys.refusals), old(footprint))
      ensures m != 0 ==> Snug(g, m - 16, Request2Size(Total(n, size)))
      ensures footprintLimit != 0 && old(footprint) <= footprintLimit ==> footprint <= footprintLimit
    {
      hide Valid, Keeps, ServedFrom, NothingServes, IsAligned, CallocRequest;
      CallocRequestIs(n, size);
      var req := CallocRequest(n, size);
      RequestInRange(n, size);
      m := Malloc(req);
      if m != 0 {
        ghost var g1, d1, H1 := g, mem.data, Held();
        KeepsFewer(old(g), g1, old(g.live) + old(g.maps).Keys, old(Held()), old(mem.data), d1);
        HeadOfHeld(m - 16);
        if mem.head.At(m - 16).pinuse || mem.head.At(m - 16).cinuse {
          ClearBlock(m - 16, req);
          KeepsTrans(old(g), g1, g, old(Held()), H1 - {m - 16}, old(Held()), old(mem.data), d1, mem.data);
        }
      }
    }

    lemma HeadOfHeld(p: int)
      requires Valid() && p in Held()
      ensures p in g.live <==> mem.head.At(p).pinuse || mem.head.At(p).cinuse
    {
      hide ViewsOk, WordsOk, LinksWhole, CoherentWith, Spaced, HasWord, BooksOk, Bins.Valid;
      HeadTellsMapped(g, mem.head, mem.foot, segs, top, topsize, Pool(bins.chunks, dv, dvsize), p);
    }

    // ----- what holds of every valid heap

    lemma HeldApart(q: int, r: int)
      requires Valid() && q in Held() && r in Held() && q != r
      ensures BlockEnd(g, q) <= r + 16 || BlockEnd(g, r) <= q + 16
    {
      hide ViewsOk, WordsOk, LinksWhole, CoherentWith, Spaced, HasWord, BooksOk, Bins.Valid;
      BlocksApart(g, mem.head, mem.foot, segs, top, topsize, Pool(bins.chunks, dv, dvsize), q, r);
    }

    /** The system backs every byte of every block. */
    lemma HeldBacked(q: int)
      requires Valid() && q in Held()
      ensures HoldsAll(sys.mapped, q + 16, BlockEnd(g, q))
    {
      hide ViewsOk, WordsOk, LinksWhole, CoherentWith, Spaced, HasWord, Bins.Valid, HoldsAll, Footprint;
      ghost var F := Pool(bins.chunks, dv, dvsize);
      MapsElsewhere(g, mem.head, mem.foot, segs, top, topsize, F);
      if q in g.live {
        BlockBacked(g, mem.head, mem.foot, segs, top, topsize, F, sys.mapped, q);
      } else {
        MapRoom(g, mem.head, mem.foot, segs, top, topsize, F, q);
        MapTags(g, mem.head, mem.foot, segs, top, topsize, F, q);
        HoldsInside(sys.mapped, g.maps[q].base, g.maps[q].End(), q + 16, BlockEnd(g, q));
      }
    }

    /** The checks of `_free` and `try_realloc_chunk` hold of every chunk handed out: its address, its in-use bits, the
        order and the PINUSE bit of what comes after it, and the address of a free chunk before it if there is one. */
    lemma ChecksPass(p: int)
      requires Valid() && p in Held()
      ensures leastAddr <= p && (mem.head.At(p).pinuse ==> mem.head.At(p).cinuse)
      ensures p < p + mem.head.At(p).size && mem.head.At(p + mem.head.At(p).size).pinuse
      ensures if !mem.head.At(p).pinuse && !mem.head.At(p).cinuse then p in g.maps
              else p in g.live && leastAddr <= Before(mem.head, mem.foot, p)
    {
      hide ViewsOk, WordsOk, LinksWhole, CoherentWith, Spaced, HasWord, Bins.Valid, HoldsAll, Footprint, Joins;
      ghost var F := Pool(bins.chunks, dv, dvsize);
      MapsElsewhere(g, mem.head, mem.foot, segs, top, topsize, F);
      if p in g.live {
        Surroundings(g, mem.head, mem.foot, segs, top, topsize, F, p);
        AboveLeast(g, mem.head, mem.foot, segs, top, topsize, F, leastAddr, p);
        ghost var o := Before(mem.head, mem.foot, p);
        if o != p {
          FreeInLayout(g, mem.head, mem.foot, segs, top, topsize, F, o);
        }
        AboveLeast(g, mem.head, mem.foot, segs, top, topsize, F, leastAddr, o);
      } else {
        MapTags(g, mem.head, mem.foot, segs, top, topsize, F, p);
        MapFence(g, mem.head, mem.foot, segs, top, topsize, F, p);
      }
    }

    /** The checks of `unlink_large_chunk` hold of every chunk in a tree bin: the links are mutual, and all that they
        lead to is at an address that may be the heap's. */
    lemma UnlinkChecksPass(x: int)
      requires Valid() && x in bins.chunks && bins.chunks[x] >= MIN_LARGE
      ensures bins.RingIntact(x) && bins.TreeIntact(x) && forall p | p in bins.chunks :: leastAddr <= p
    {
      hide ViewsOk, WordsOk, LinksWhole, CoherentWith, Spaced, HasWord, Bins.Valid, HoldsAll, Footprint,
           Bins.RingIntact,
           Bins.TreeIntact;
      ghost var F := Pool(bins.chunks, dv, dvsize);
      bins.LargeLinks(x);
      PoolHolds(bins.chunks, dv, dvsize);
      forall p | p in bins.chunks ensures leastAddr <= p {
        FreeInLayout(g, mem.head, mem.foot, segs, top, topsize, F, p);
        AboveLeast(g, mem.head, mem.foot, segs, top, topsize, F, leastAddr, p);
      }
    }

    /** The footprint is the memory held, fits a word, and the largest one yet is no smaller. */
    lemma FootprintIsExact()
      requires Valid()
      ensures footprint == Footprint(segs, g.maps) && footprint < WORD_RANGE && footprint <= maxFootprint
    {
      hide ViewsOk, WordsOk, LinksWhole, CoherentWith, Spaced, HasWord, Bins.Valid, Footprint;
      FootprintBound(g, mem.head, mem.foot, segs, top, topsize, Pool(bins.chunks, dv, dvsize), sys.mapped, footprint,
                     maxFootprint, leastAddr);
    }

    /** Exactly the memory in segments and mappings is held from the system: none is forgotten, and none missing. */
    lemma HeldExactly(a: int)
      requires Valid()
      ensures Holds(sys.mapped, a) <==> Booked(segs, g.maps, a)
    {
      hide ViewsOk, WordsOk, LinksWhole, CoherentWith, Spaced, HasWord, Bins.Valid, Holds, Footprint;
      if i :| 0 <= i < |segs| && segs[i].base <= a < segs[i].End() {
        assert HoldsAll(sys.mapped, segs[i].base, segs[i].End());
      } else if p :| p in g.maps && g.maps[p].base <= a < g.maps[p].End() {
        assert HoldsAll(sys.mapped, g.maps[p].base, g.maps[p].End());
      }
    }

    /** The allocator relies on field `w` of the chunk, or the bin header, at `x`. */
    ghost predicate ReliesOn(x: int, w: Role)
      reads this, mem, bins
    {
      || (x in g.C && (w == HeadW || (w == FootW && g.C[x].kind == Used && !mem.head.At(x).pinuse)))
      || (x in g.maps && (w == HeadW || w == FootW))
      || (MayLink(bins.chunks, x, w) && (x < 0 ==> x in bins.net.ring))
    }

    /** Whatever the allocator relies on can be read back from memory: its eight bytes are still those of one word, and
        that word is the value of the field.  No write of the allocator or of a caller has touched them since. */
    lemma ReadsBack(x: int, w: Role)
      requires Valid() && ReliesOn(x, w)
      ensures HasWord(mem.data, x, w)
      ensures WordOf(mem.data, x, w) == Fields(mem.head, mem.foot, mem.fd, mem.bk, mem.left, mem.right, mem.parent,
                                               mem.index).Of(x, w)
    {
      hide ViewsOk, BooksOk, Bins.Valid, HasWord, Spaced;
      assert TagWhole(g.C, mem.head, mem.data, x) && MapWhole(g.maps, mem.data, x);
      assert HasWord(mem.data, x, w);
      ghost var f := Fields(mem.head, mem.foot, mem.fd, mem.bk, mem.left, mem.right, mem.parent, mem.index);
      assert CoherentAt(mem.data, x, w, f.Of(x, w));
    }

    // ----- what callers do with their blocks

    /** A caller writes a byte of its block.  The allocator does not notice: no word it relies on contains a byte of a
        block. */
    method Store(q: int, a: int, v: int)
      requires Valid() && q in Held() && q + 16 <= a < BlockEnd(g, q)
      modifies mem`data
      ensures Valid() && mem.data == old(mem.data).Set(a, User(v)) && Keeps(g, g, Held() - {q}, old(mem.data), mem.data)
    {
      hide ViewsOk, WordsOk, LinksWhole, CoherentWith, Spaced, HasWord, BooksOk, Bins.Valid, Keeps, Pool;
      ghost var F := Pool(bins.chunks, dv, dvsize);
      mem.StoreByte(a, v);
      WritesKeep(g, mem.head, mem.foot, segs, top, topsize, F, q, old(mem.data), mem.data, bins.chunks, bins.net.ring);
      KeepsFewer(g, g, g.live + g.maps.Keys - {q}, Held() - {q}, old(mem.data), mem.data);
    }
  }
}
