/** The footprint and the system's own books over every change of the memory held. */
module Ledger {
  import opened Sizes
  import opened Memory
  import opened Bins
  import opened Layout
  import opened Heap
  import opened System
  import opened Books
  import opened Steps
  import opened Words
  import opened Regions
  import opened Segments
  import opened Release

  // ----- what the system holds

  lemma HoldsAllAppend(rs: seq<Region>, r: Region, lo: int, hi: int)
    requires HoldsAll(rs, lo, hi)
    ensures HoldsAll(rs + [r], lo, hi)
  {
    hide Holds;
    forall a | lo <= a < hi ensures Holds(rs + [r], a) {
      assert Holds(rs, a);
      HoldsAppend(rs, [r], a);
    }
  }

  lemma HoldsAllNew(rs: seq<Region>, r: Region)
    ensures HoldsAll(rs + [r], r.base, r.End())
  {
    hide Holds;
    forall a | r.base <= a < r.End() ensures Holds(rs + [r], a) {
      HoldsOne(r, a);
      HoldsAppend(rs, [r], a);
    }
  }

  lemma HoldsAllCarved(rs: seq<Region>, lo: int, hi: int, b: int, e: int)
    requires HoldsAll(rs, b, e) && lo <= hi && (e <= lo || hi <= b)
    ensures HoldsAll(Carve(rs, lo, hi), b, e)
  {
    hide Holds;
    forall a | b <= a < e ensures Holds(Carve(rs, lo, hi), a) {
      assert Holds(rs, a);
      CarveHolds(rs, lo, hi, a);
    }
  }

  /** What is held cannot be granted again. */
  lemma VacantIsClear(rs: seq<Region>, lo: int, hi: int, b: int, e: int)
    requires HoldsAll(rs, lo, hi) && Vacant(rs, b, e) && b < e && lo < hi
    ensures hi <= b || e <= lo
  {
    assert lo <= Max(lo, b) < hi ==> Holds(rs, Max(lo, b));
  }

  /** A region just granted is new to the heap. */
  lemma GrantedIsNew(C: Chunks, head: Heads, foot: Field, segs: seq<Seg>, top: int, topsize: nat,
                     maps: map<int, Region>, mapped: seq<Region>,
                     fp: nat, maxfp: nat, least: int, base: int, size: nat)
    requires SegsOk(C, segs, top, topsize) && MapsOk(maps, head, foot, segs)
             && BooksOk(segs, maps, mapped, fp, maxfp, least)
    requires size > TOP_FOOT && size % PAGE == 0 && 0 < base && base % PAGE == 0 && base + size <= WORD_RANGE
             && Vacant(mapped, base, base + size)
    ensures NewRegion(segs, maps, base, size)
  {
    hide TopOk, EndOk, KindsOk, Placed, FenceOk, SegsApart, IsAligned, HoldsAll, Vacant, Footprint;
    forall i | 0 <= i < |segs| ensures segs[i].End() <= base || base + size <= segs[i].base {
      assert SegOk(C, segs[i]);
      VacantIsClear(mapped, segs[i].base, segs[i].End(), base, base + size);
    }
    forall p | p in maps ensures maps[p].End() <= base || base + size <= maps[p].base {
      assert MapOk(maps[p], head, foot, p);
      VacantIsClear(mapped, maps[p].base, maps[p].End(), base, base + size);
    }
  }

  // ----- more memory

  /** What is held, and its lowest address. */
  ghost predicate Backed(segs: seq<Seg>, maps: map<int, Region>, mapped: seq<Region>, least: int) {
    && (forall i | 0 <= i < |segs| :: HoldsAll(mapped, segs[i].base, segs[i].End()) && least <= segs[i].base)
    && (forall p | p in maps :: HoldsAll(mapped, maps[p].base, maps[p].End()) && least <= maps[p].base)
  }

  lemma BackedStill(segs: seq<Seg>, maps: map<int, Region>, mapped: seq<Region>, least: int, r: Region, least': int)
    requires Backed(segs, maps, mapped, least) && least' <= least
    ensures Backed(segs, maps, mapped + [r], least') && HoldsAll(mapped + [r], r.base, r.End())
  {
    hide HoldsAll;
    HoldsAllNew(mapped, r);
    forall i | 0 <= i < |segs| ensures HoldsAll(mapped + [r], segs[i].base, segs[i].End()) {
      HoldsAllAppend(mapped, r, segs[i].base, segs[i].End());
    }
    forall p | p in maps ensures HoldsAll(mapped + [r], maps[p].base, maps[p].End()) {
      HoldsAllAppend(mapped, r, maps[p].base, maps[p].End());
    }
  }

  lemma HoldsAllJoined(rs: seq<Region>, lo: int, mid: int, hi: int)
    requires HoldsAll(rs, lo, mid) && HoldsAll(rs, mid, hi)
    ensures HoldsAll(rs, lo, hi)
  {
    hide Holds;
    forall a | lo <= a < hi ensures Holds(rs, a) {
      assert a < mid ==> Holds(rs, a);
    }
  }

  lemma FirstBooked(maps: map<int, Region>, base: int, size: nat, a: int)
    requires Booked([], maps, a) || base <= a < base + size
    ensures Booked([Seg(base, size, 0)], maps, a)
  {
    if base <= a < base + size { InSegIsBooked([Seg(base, size, 0)], maps, 0, a); }
  }

  lemma AddedBooked(segs: seq<Seg>, top: int, topsize: nat, maps: map<int, Region>, base: int, size: nat, a: int)
    requires segs != [] && (Booked(segs, maps, a) || base <= a < base + size)
    ensures Booked(AddedSegs(segs, top, topsize, base, size), maps, a)
  {
    hide IsRecord;
    var segs' := AddedSegs(segs, top, topsize, base, size);
    AddedIndex(segs, top, topsize, base, size);
    if i :| 0 <= i < |segs| && segs[i].base <= a < segs[i].End() {
      InSegIsBooked(segs', maps, i + 1, a);
    } else if base <= a < base + size {
      assert segs'[0] == Seg(base, size, 0);
      InSegIsBooked(segs', maps, 0, a);
    }
  }

  /** A segment grown at either end. */
  lemma WidenedBooked(segs: seq<Seg>, maps: map<int, Region>, i: nat, s: Seg, a: int)
    requires i < |segs| && s.base <= segs[i].base && segs[i].End() <= s.End()
    requires Booked(segs, maps, a) || s.base <= a < segs[i].base || segs[i].End() <= a < s.End()
    ensures Booked(segs[i := s], maps, a)
  {
    var segs' := segs[i := s];
    if k :| 0 <= k < |segs| && segs[k].base <= a < segs[k].End() {
      InSegIsBooked(segs', maps, k, a);
    } else if s.base <= a < s.End() {
      InSegIsBooked(segs', maps, i, a);
    }
  }

  lemma NarrowedBooked(segs: seq<Seg>, maps: map<int, Region>, s: Seg, a: int)
    requires segs != [] && s.base == segs[0].base && Booked(segs, maps, a) && !(s.End() <= a < segs[0].End())
    ensures Booked(segs[0 := s], maps, a)
  {
    if k :| 0 <= k < |segs| && segs[k].base <= a < segs[k].End() {
      InSegIsBooked(segs[0 := s], maps, k, a);
    }
  }

  lemma MappedBooked(segs: seq<Seg>, maps: map<int, Region>, p: int, r: Region, a: int)
    requires p !in maps && (Booked(segs, maps, a) || r.base <= a < r.End())
    ensures Booked(segs, maps[p := r], a)
  {
    if q :| q in maps && maps[q].base <= a < maps[q].End() {
      InMapIsBooked(segs, maps[p := r], q, a);
    } else if r.base <= a < r.End() {
      InMapIsBooked(segs, maps[p := r], p, a);
    }
  }

  lemma DroppedBooked(segs: seq<Seg>, maps: map<int, Region>, i: nat, a: int)
    requires i < |segs| && Booked(segs, maps, a) && !(segs[i].base <= a < segs[i].End())
    ensures Booked(DroppedSegs(segs, i), maps, a)
  {
    if k :| 0 <= k < |segs| && segs[k].base <= a < segs[k].End() {
      assert DroppedSegs(segs, i)[if k < i then k else k - 1] == segs[k];
      InSegIsBooked(DroppedSegs(segs, i), maps, if k < i then k else k - 1, a);
    }
  }

  lemma UnmappedBooked(segs: seq<Seg>, maps: map<int, Region>, p: int, a: int)
    requires p in maps && Booked(segs, maps, a) && !(maps[p].base <= a < maps[p].End())
    ensures Booked(segs, maps - {p}, a)
  {
    if q :| q in maps && maps[q].base <= a < maps[q].End() {
      InMapIsBooked(segs, maps - {p}, q, a);
    }
  }

  lemma SameBooked(segs: seq<Seg>, maps: map<int, Region>, mapped: seq<Region>, maps': map<int, Region>)
    requires OnlyBooked(segs, maps, mapped) && forall a | Booked(segs, maps, a) :: Booked(segs, maps', a)
    ensures OnlyBooked(segs, maps', mapped)
  {
    hide Holds, Booked;
  }

  lemma FirstAccounts(maps: map<int, Region>, mapped: seq<Region>, fp: nat, maxfp: nat, least: int, base: int,
                      size: nat,
                      maxfp': nat)
    requires Accounted([], maps, mapped, fp, maxfp, least) && maxfp' >= fp + size && least <= base && least != 0
    ensures Accounted([Seg(base, size, 0)], maps, mapped + [Region(base, size)], fp + size, maxfp', least)
  {
    hide HoldsAll;
    BackedStill([], maps, mapped, least, Region(base, size), least);
    assert SegRegions([Seg(base, size, 0)]) == [Region(base, size)];
    assert Sum(SegRegions([])) == 0;
  }

  lemma FirstBooks(maps: map<int, Region>, mapped: seq<Region>, fp: nat, maxfp: nat, least: int, base: int, size: nat,
                   maxfp': nat)
    requires BooksOk([], maps, mapped, fp, maxfp, least) && maxfp' >= fp + size && least <= base && least != 0
    ensures BooksOk([Seg(base, size, 0)], maps, mapped + [Region(base, size)], fp + size, maxfp', least)
  {
    hide HoldsAll, Accounted, OnlyBooked, Booked, Sum, SegRegions, MapRegions, Footprint, Carve;
    FirstAccounts(maps, mapped, fp, maxfp, least, base, size, maxfp');
    forall a | Booked([], maps, a) || base <= a < base + size ensures Booked([Seg(base, size, 0)], maps, a) {
      FirstBooked(maps, base, size, a);
    }
    BookedMore([], maps, mapped, Region(base, size), [Seg(base, size, 0)], maps);
  }

  lemma AddedAccounts(segs: seq<Seg>, top: int, topsize: nat, maps: map<int, Region>, mapped: seq<Region>, fp: nat,
                      maxfp: nat, least: int, base: int, size: nat, maxfp': nat)
    requires Accounted(segs, maps, mapped, fp, maxfp, least) && segs != [] && maxfp' >= fp + size && least <= base
             && least != 0
    ensures Accounted(AddedSegs(segs, top, topsize, base, size), maps, mapped + [Region(base, size)], fp + size, maxfp',
                    least)
  {
    hide HoldsAll;
    var segs' := AddedSegs(segs, top, topsize, base, size);
    BackedStill(segs, maps, mapped, least, Region(base, size), least);
    AddedIndex(segs, top, topsize, base, size);
    assert segs'[0] == Seg(base, size, 0);
    assert SegRegions(segs') == [Region(base, size)] + SegRegions(segs);
    forall i | 0 <= i < |segs'|
      ensures HoldsAll(mapped + [Region(base, size)], segs'[i].base, segs'[i].End()) && least <= segs'[i].base
    {
      if i > 0 {
        assert segs'[(i - 1) + 1].base == segs[i - 1].base && segs'[i].End() == segs[i - 1].End();
      }
    }
  }

  lemma AddedBooks(segs: seq<Seg>, top: int, topsize: nat, maps: map<int, Region>, mapped: seq<Region>, fp: nat,
                   maxfp: nat, least: int, base: int, size: nat, maxfp': nat)
    requires BooksOk(segs, maps, mapped, fp, maxfp, least) && segs != [] && maxfp' >= fp + size && least <= base
             && least != 0
    ensures BooksOk(AddedSegs(segs, top, topsize, base, size), maps, mapped + [Region(base, size)], fp + size, maxfp',
                    least)
  {
    hide HoldsAll, Accounted, OnlyBooked, Booked, Sum, SegRegions, MapRegions, Footprint, Carve;
    AddedAccounts(segs, top, topsize, maps, mapped, fp, maxfp, least, base, size, maxfp');
    var segs' := AddedSegs(segs, top, topsize, base, size);
    forall a | Booked(segs, maps, a) || base <= a < base + size ensures Booked(segs', maps, a) {
      AddedBooked(segs, top, topsize, maps, base, size, a);
    }
    BookedMore(segs, maps, mapped, Region(base, size), segs', maps);
  }

  /** One segment in place of another. */
  lemma {:induction false} SumUpdated(segs: seq<Seg>, i: nat, s: Seg)
    requires i < |segs|
    ensures Sum(SegRegions(segs[i := s])) == Sum(SegRegions(segs)) - segs[i].size + s.size
  {
    var rs, rs' := SegRegions(segs), SegRegions(segs[i := s]);
    SumRemove(rs, i);
    SumRemove(rs', i);
    assert rs[..i] + rs[i + 1..] == rs'[..i] + rs'[i + 1..];
  }

  lemma PrependedAccounts(segs: seq<Seg>, maps: map<int, Region>, mapped: seq<Region>, fp: nat, maxfp: nat, least: int,
                          i: nat, base: int, size: nat, maxfp': nat)
    requires Accounted(segs, maps, mapped, fp, maxfp, least) && i < |segs| && base + size == segs[i].base
             && maxfp' >= fp + size && least <= base && least != 0
    ensures Accounted(PrependedSegs(segs, i, base, size), maps, mapped + [Region(base, size)], fp + size, maxfp', least)
  {
    hide HoldsAll, Sum;
    BackedStill(segs, maps, mapped, least, Region(base, size), least);
    SumUpdated(segs, i, Seg(base, segs[i].size + size, segs[i].rec));
    HoldsAllJoined(mapped + [Region(base, size)], base, segs[i].base, segs[i].End());
  }

  lemma PrependedBooks(segs: seq<Seg>, maps: map<int, Region>, mapped: seq<Region>, fp: nat, maxfp: nat, least: int,
                       i: nat, base: int, size: nat, maxfp': nat)
    requires BooksOk(segs, maps, mapped, fp, maxfp, least) && i < |segs| && base + size == segs[i].base
             && maxfp' >= fp + size && least <= base && least != 0
    ensures BooksOk(PrependedSegs(segs, i, base, size), maps, mapped + [Region(base, size)], fp + size, maxfp', least)
  {
    hide HoldsAll, Accounted, OnlyBooked, Booked, Sum, SegRegions, MapRegions, Footprint, Carve;
    PrependedAccounts(segs, maps, mapped, fp, maxfp, least, i, base, size, maxfp');
    var segs' := PrependedSegs(segs, i, base, size);
    forall a | Booked(segs, maps, a) || base <= a < base + size ensures Booked(segs', maps, a) {
      WidenedBooked(segs, maps, i, segs'[i], a);
    }
    BookedMore(segs, maps, mapped, Region(base, size), segs', maps);
  }

  lemma ResizedIsUpdate(segs: seq<Seg>, topsize: nat, ts: nat)
    requires segs != [] && segs[0].size + ts >= topsize
    ensures ResizedSegs(segs, topsize, ts) == segs[0 := Seg(segs[0].base, segs[0].size + ts - topsize, 0)]
  {
  }

  lemma AppendedAccounts(segs: seq<Seg>, topsize: nat, maps: map<int, Region>, mapped: seq<Region>, fp: nat, maxfp: nat,
                         least: int, base: int, size: nat, maxfp': nat)
    requires Accounted(segs, maps, mapped, fp, maxfp, least) && segs != [] && base == segs[0].End()
             && maxfp' >= fp + size
    ensures Accounted(ResizedSegs(segs, topsize, topsize + size), maps, mapped + [Region(base, size)], fp + size,
                      maxfp',
                    least)
  {
    hide HoldsAll, Sum;
    BackedStill(segs, maps, mapped, least, Region(base, size), least);
    ResizedIsUpdate(segs, topsize, topsize + size);
    SumUpdated(segs, 0, Seg(segs[0].base, segs[0].size + size, 0));
    HoldsAllJoined(mapped + [Region(base, size)], segs[0].base, base, base + size);
  }

  lemma AppendedBooks(segs: seq<Seg>, topsize: nat, maps: map<int, Region>, mapped: seq<Region>, fp: nat, maxfp: nat,
                      least: int, base: int, size: nat, maxfp': nat)
    requires BooksOk(segs, maps, mapped, fp, maxfp, least) && segs != [] && base == segs[0].End() && maxfp' >= fp + size
    ensures BooksOk(ResizedSegs(segs, topsize, topsize + size), maps, mapped + [Region(base, size)], fp + size, maxfp',
                    least)
  {
    hide HoldsAll, Accounted, OnlyBooked, Booked, Sum, SegRegions, MapRegions, Footprint, Carve;
    AppendedAccounts(segs, topsize, maps, mapped, fp, maxfp, least, base, size, maxfp');
    var segs' := ResizedSegs(segs, topsize, topsize + size);
    ResizedIsUpdate(segs, topsize, topsize + size);
    forall a | Booked(segs, maps, a) || base <= a < base + size ensures Booked(segs', maps, a) {
      WidenedBooked(segs, maps, 0, segs'[0], a);
    }
    BookedMore(segs, maps, mapped, Region(base, size), segs', maps);
  }

  /** One more mapped chunk. */
  lemma MappedAccounts(segs: seq<Seg>, maps: map<int, Region>, mapped: seq<Region>, fp: nat, maxfp: nat, least: int,
                       p: int, base: int, size: nat, maxfp': nat)
    requires Accounted(segs, maps, mapped, fp, maxfp, least) && p !in maps && maxfp' >= fp + size && least <= base
             && least != 0
    ensures Accounted(segs, maps[p := Region(base, size)], mapped + [Region(base, size)], fp + size, maxfp', least)
  {
    hide HoldsAll, Sum, MapRegions;
    BackedStill(segs, maps, mapped, least, Region(base, size), least);
    MapSumAdd(maps, p, Region(base, size));
  }

  lemma MappedBooks(segs: seq<Seg>, maps: map<int, Region>, mapped: seq<Region>, fp: nat, maxfp: nat, least: int,
                    p: int, base: int, size: nat, maxfp': nat)
    requires BooksOk(segs, maps, mapped, fp, maxfp, least) && p !in maps && maxfp' >= fp + size && least <= base
             && least != 0
    ensures BooksOk(segs, maps[p := Region(base, size)], mapped + [Region(base, size)], fp + size, maxfp', least)
  {
    hide HoldsAll, Accounted, OnlyBooked, Booked, Sum, SegRegions, MapRegions, Footprint, Carve;
    MappedAccounts(segs, maps, mapped, fp, maxfp, least, p, base, size, maxfp');
    var maps' := maps[p := Region(base, size)];
    forall a | Booked(segs, maps, a) || base <= a < base + size ensures Booked(segs, maps', a) {
      MappedBooked(segs, maps, p, Region(base, size), a);
    }
    BookedMore(segs, maps, mapped, Region(base, size), segs, maps');
  }

  // ----- less memory

  lemma TrimmedAccounts(segs: seq<Seg>, topsize: nat, ts: nat, maps: map<int, Region>, mapped: seq<Region>, fp: nat,
                        maxfp: nat, least: int, extra: nat)
    requires Accounted(segs, maps, mapped, fp, maxfp, least) && segs != [] && ts + extra == topsize
             && extra < segs[0].size
    requires forall i | 1 <= i < |segs| :: segs[i].End() <= segs[0].base || segs[0].End() <= segs[i].base
    requires forall p | p in maps :: maps[p].End() <= segs[0].base || segs[0].End() <= maps[p].base
    ensures fp >= extra && Accounted(ResizedSegs(segs, topsize, ts), maps,
                                   Carve(mapped, segs[0].End() - extra, segs[0].End()), fp - extra, maxfp, least)
  {
    hide Sum, Carve, HoldsAll;
    var lo, hi := segs[0].End() - extra, segs[0].End();
    ResizedIsUpdate(segs, topsize, ts);
    SumUpdated(segs, 0, Seg(segs[0].base, segs[0].size - extra, 0));
    HoldsAllPart(mapped, segs[0].base, lo, hi);
    HoldsAllCarved(mapped, lo, hi, segs[0].base, lo);
    forall i | 1 <= i < |segs| ensures HoldsAll(Carve(mapped, lo, hi), segs[i].base, segs[i].End()) {
      HoldsAllCarved(mapped, lo, hi, segs[i].base, segs[i].End());
    }
    forall p | p in maps ensures HoldsAll(Carve(mapped, lo, hi), maps[p].base, maps[p].End()) {
      HoldsAllCarved(mapped, lo, hi, maps[p].base, maps[p].End());
    }
  }

  lemma TrimmedBooks(segs: seq<Seg>, topsize: nat, ts: nat, maps: map<int, Region>, mapped: seq<Region>, fp: nat,
                     maxfp: nat, least: int, extra: nat)
    requires BooksOk(segs, maps, mapped, fp, maxfp, least) && segs != [] && ts + extra == topsize
             && extra < segs[0].size
    requires forall i | 1 <= i < |segs| :: segs[i].End() <= segs[0].base || segs[0].End() <= segs[i].base
    requires forall p | p in maps :: maps[p].End() <= segs[0].base || segs[0].End() <= maps[p].base
    ensures fp >= extra && BooksOk(ResizedSegs(segs, topsize, ts), maps,
                                   Carve(mapped, segs[0].End() - extra, segs[0].End()), fp - extra, maxfp, least)
  {
    hide HoldsAll, Accounted, OnlyBooked, Booked, Sum, SegRegions, MapRegions, Footprint, Carve;
    TrimmedAccounts(segs, topsize, ts, maps, mapped, fp, maxfp, least, extra);
    var segs' := ResizedSegs(segs, topsize, ts);
    ResizedIsUpdate(segs, topsize, ts);
    forall a | Booked(segs, maps, a) && !(segs[0].End() - extra <= a < segs[0].End()) ensures Booked(segs', maps, a) {
      NarrowedBooked(segs, maps, segs'[0], a);
    }
    BookedLess(segs, maps, mapped, segs[0].End() - extra, segs[0].End(), segs', maps);
  }

  lemma HoldsAllPart(rs: seq<Region>, lo: int, mid: int, hi: int)
    requires HoldsAll(rs, lo, hi) && mid <= hi
    ensures HoldsAll(rs, lo, mid)
  {
    hide Holds;
  }

  lemma DroppedSum(segs: seq<Seg>, i: nat)
    requires i < |segs|
    ensures Sum(SegRegions(segs)) == Sum(SegRegions(DroppedSegs(segs, i))) + segs[i].size
  {
    hide Sum, SegRegions;
    var rs, rs' := SegRegions(segs), SegRegions(DroppedSegs(segs, i));
    SumRemove(rs, i);
    forall j | 0 <= j < |rs'| ensures rs'[j] == (rs[..i] + rs[i + 1..])[j] {
      assert DroppedSegs(segs, i)[j] == segs[if j < i then j else j + 1];
    }
    assert rs' == rs[..i] + rs[i + 1..];
  }

  lemma DroppedAccounts(segs: seq<Seg>, maps: map<int, Region>, mapped: seq<Region>, fp: nat, maxfp: nat, least: int,
                        i: nat)
    requires Accounted(segs, maps, mapped, fp, maxfp, least) && i < |segs| && SegsApart(segs)
    requires forall p | p in maps :: maps[p].End() <= segs[i].base || segs[i].End() <= maps[p].base
    ensures fp >= segs[i].size
    ensures Accounted(DroppedSegs(segs, i), maps, Carve(mapped, segs[i].base, segs[i].End()), fp - segs[i].size, maxfp,
                    least)
  {
    hide Sum, Carve, HoldsAll, SegRegions, MapRegions;
    var lo, hi, segs' := segs[i].base, segs[i].End(), DroppedSegs(segs, i);
    DroppedSum(segs, i);
    forall j | 0 <= j < |segs'|
      ensures HoldsAll(Carve(mapped, lo, hi), segs'[j].base, segs'[j].End()) && least <= segs'[j].base
    {
      var k := if j < i then j else j + 1;
      TwoApart(segs, i, k);
      assert segs'[j] == segs[k];
      HoldsAllCarved(mapped, lo, hi, segs[k].base, segs[k].End());
    }
    forall p | p in maps ensures HoldsAll(Carve(mapped, lo, hi), maps[p].base, maps[p].End()) {
      HoldsAllCarved(mapped, lo, hi, maps[p].base, maps[p].End());
    }
  }

  lemma DroppedBooks(segs: seq<Seg>, maps: map<int, Region>, mapped: seq<Region>, fp: nat, maxfp: nat, least: int,
                     i: nat)
    requires BooksOk(segs, maps, mapped, fp, maxfp, least) && i < |segs| && SegsApart(segs)
    requires forall p | p in maps :: maps[p].End() <= segs[i].base || segs[i].End() <= maps[p].base
    ensures fp >= segs[i].size
    ensures BooksOk(DroppedSegs(segs, i), maps, Carve(mapped, segs[i].base, segs[i].End()), fp - segs[i].size, maxfp,
                    least)
  {
    hide HoldsAll, Accounted, OnlyBooked, Booked, Sum, SegRegions, MapRegions, Footprint, Carve;
    DroppedAccounts(segs, maps, mapped, fp, maxfp, least, i);
    forall a | Booked(segs, maps, a) && !(segs[i].base <= a < segs[i].End())
      ensures Booked(DroppedSegs(segs, i), maps, a)
    {
      DroppedBooked(segs, maps, i, a);
    }
    BookedLess(segs, maps, mapped, segs[i].base, segs[i].End(), DroppedSegs(segs, i), maps);
  }

  lemma UnmappedAccounts(segs: seq<Seg>, maps: map<int, Region>, mapped: seq<Region>, fp: nat, maxfp: nat, least: int,
                         p: int)
    requires Accounted(segs, maps, mapped, fp, maxfp, least) && p in maps
    requires forall q | q in maps && q != p :: Disjoint(maps[p], maps[q])
    requires forall i | 0 <= i < |segs| :: Disjoint(maps[p], Region(segs[i].base, segs[i].size))
    ensures fp >= maps[p].size
    ensures Accounted(segs, maps - {p}, Carve(mapped, maps[p].base, maps[p].End()), fp - maps[p].size, maxfp, least)
  {
    hide Sum, Carve, HoldsAll, MapRegions;
    var lo, hi := maps[p].base, maps[p].End();
    MapSumRemove(maps, p);
    forall j | 0 <= j < |segs| ensures HoldsAll(Carve(mapped, lo, hi), segs[j].base, segs[j].End()) {
      assert Disjoint(maps[p], Region(segs[j].base, segs[j].size));
      HoldsAllCarved(mapped, lo, hi, segs[j].base, segs[j].End());
    }
    forall q | q in maps - {p} ensures HoldsAll(Carve(mapped, lo, hi), maps[q].base, maps[q].End()) {
      HoldsAllCarved(mapped, lo, hi, maps[q].base, maps[q].End());
    }
  }

  lemma UnmappedBooks(segs: seq<Seg>, maps: map<int, Region>, mapped: seq<Region>, fp: nat, maxfp: nat, least: int,
                      p: int)
    requires BooksOk(segs, maps, mapped, fp, maxfp, least) && p in maps
    requires forall q | q in maps && q != p :: Disjoint(maps[p], maps[q])
    requires forall i | 0 <= i < |segs| :: Disjoint(maps[p], Region(segs[i].base, segs[i].size))
    ensures fp >= maps[p].size
    ensures BooksOk(segs, maps - {p}, Carve(mapped, maps[p].base, maps[p].End()), fp - maps[p].size, maxfp, least)
  {
    hide HoldsAll, Accounted, OnlyBooked, Booked, Sum, SegRegions, MapRegions, Footprint, Carve;
    UnmappedAccounts(segs, maps, mapped, fp, maxfp, least, p);
    forall a | Booked(segs, maps, a) && !(maps[p].base <= a < maps[p].End()) ensures Booked(segs, maps - {p}, a) {
      UnmappedBooked(segs, maps, p, a);
    }
    BookedLess(segs, maps, mapped, maps[p].base, maps[p].End(), segs, maps - {p});
  }

  // ----- chunks mapped directly

  /** Only tags outside the layout have changed. */
  lemma TagsSame(C: Chunks, head: Heads, foot: Field, head': Heads, foot': Field)
    requires Tags(C, head, foot) && forall p {:trigger head'.At(p)} {:trigger foot'.At(p)} ::
             p in C ==> head'.At(p) == head.At(p) && foot'.At(p) == foot.At(p)
    ensures Tags(C, head', foot')
  {
    hide IsAligned, SizeOk, HeadOk;
    forall p ensures TagOk(C, head', foot', p) {
      assert TagOk(C, head, foot, p);
      if p in C {
        TagStays(C, head, foot, C, head', foot', p);
      }
    }
  }

  lemma MappedMaps(maps: map<int, Region>, head: Heads, foot: Field, segs: seq<Seg>, p: int, r: Region, head': Heads,
                   foot': Field)
    requires MapsOk(maps, head, foot, segs) && NewRegion(segs, maps, r.base, r.size) && MapOk(r, head', foot', p)
    requires forall a {:trigger head'.At(a)} {:trigger foot'.At(a)} | !(r.base <= a < r.End()) ::
             head'.At(a) == head.At(a) && foot'.At(a) == foot.At(a)
    ensures MapsOk(maps[p := r], head', foot', segs) && p !in maps
  {
    hide IsAligned;
    forall q | q in maps ensures MapOk(maps[q], head', foot', q) && Disjoint(maps[q], r) {
      assert MapOk(maps[q], head, foot, q);
    }
  }

  lemma MappedViews(g: Ghost, head: Heads, foot: Field, segs: seq<Seg>, top: int, topsize: nat, F: map<int, nat>,
                    p: int, r: Region, head': Heads, foot': Field,
                    d: Bytes, d': Bytes, B: map<int, nat>, ring: map<int, nat>)
    requires Whole(g, head, F, B, ring, d) && MapWhole(map[p := r], d', p)
    requires ViewsOk(g.C, head, foot, segs, top, topsize, F, g.live, g.maps) && NewRegion(segs, g.maps, r.base, r.size)
             && MapOk(r, head', foot', p)
    requires forall a {:trigger head'.At(a)} {:trigger foot'.At(a)} | !(r.base <= a < r.End()) ::
             head'.At(a) == head.At(a) && foot'.At(a) == foot.At(a)
    requires SameOutside(d, d', r.base, r.End())
    ensures ViewsOk(g.C, head', foot', segs, top, topsize, F, g.live, g.maps[p := r]) && p !in g.maps && p !in g.C
    ensures Undisturbed(g, g, g.live, d, d') && Whole(Ghost(g.C, g.live, g.maps[p := r]), head', F, B, ring, d')
  {
    hide Tags, SegsOk, MapsOk, PoolOk, IsRecord, Kept, IsAligned, NewRegion, SameOutside, HasWord, LinksWhole;
    NewRegionElsewhere(g.C, head, foot, segs, top, topsize, g.maps, r.base, r.size);
    assert r.base <= p < r.End() && r.base > 0;
    TagsSame(g.C, head, foot, head', foot');
    MappedMaps(g.maps, head, foot, segs, p, r, head', foot');
    NewRegionBytes(g.C, head, foot, segs, top, topsize, g.live, g.maps, r.base, r.size, d, d');
    RegionTouched(g.C, g.maps[p := r], p, r, d, d');
    hide UsedOk;
    WordsStay(g.C, head, g.maps, F, g.C, head', foot', segs, top, topsize, F, g.live, g.maps[p := r], B, ring, {}, {},
              {p}, d, d');
  }

  lemma RegionTouched(C: Chunks, maps: map<int, Region>, p: int, r: Region, d: Bytes, d': Bytes)
    requires SameOutside(d, d', r.base, r.End()) && p in maps && maps[p] == r && r.base > 0
    ensures Touched(C, maps, {}, {}, {p}, d, d') && SameBelow(d, d')
  {
    assert p in {p};
  }

  /** A region cleared and tagged as a mapped chunk. */
  lemma MappedBytes(d: Bytes, d1: Bytes, d': Bytes, base: int, offset: nat, size: nat)
    requires SameOutside(d, d1, base, base + size)
             && (forall a {:trigger d1.At(a)} | base <= a < base + size :: d1.At(a) == User(0))
    requires size >= offset + 64 && MappedTags(d1, d', base + offset, base + size - 32)
    ensures SameOutside(d, d', base, base + size)
            && MapWhole(map[base + offset := Region(base, size)], d', base + offset)
    ensures AllZero(d', base + offset + 16, base + size - 32)
  {
    hide HasWord;
    assert forall a {:trigger d'.At(a)} | !(base <= a < base + size) :: d'.At(a) == d1.At(a) == d.At(a);
  }

  /** Memory for a request of `nb` bytes cannot even be asked for: the padded size does not fit a word, or it would
      go beyond the footprint limit. */
  ghost predicate CannotAsk(nb: nat, unit: nat, fp: nat, limit: nat) {
    unit == 0 || nb + 95 + unit >= WORD_RANGE || (limit != 0 && fp + AlignUp(Plus(nb, 96), unit) > limit)
  }

  /** A mapping for a request of `nb` bytes cannot be asked for, for the same reasons. */
  ghost predicate CannotMap(nb: nat, unit: nat, fp: nat, limit: nat) {
    unit == 0 || nb + 62 + unit >= WORD_RANGE || (limit != 0 && fp + AlignUp(Plus(nb, 63), unit) > limit)
  }

  /** The region comes right before a segment, and not right after the first one. */
  ghost predicate Prepends(segs: seq<Seg>, base: int, size: nat) {
    segs != [] && base != segs[0].End() && exists i: nat :: i < |segs| && segs[i].base == base + size
  }

  /** What becomes of the segments when a region is put to use: it extends the first one if it comes right after it, or
      another one if it comes right before that, and is a new first one otherwise. */
  ghost predicate RegionUsed(segs: seq<Seg>, top: int, topsize: nat, base: int, size: nat, segs': seq<Seg>) {
    if segs == [] then segs' == [Seg(base, size, 0)]
    else if base == segs[0].End() then segs' == ResizedSegs(segs, topsize, topsize + size)
    else if Prepends(segs, base, size) then
      exists i: nat :: i < |segs| && segs[i].base == base + size && segs' == PrependedSegs(segs, i, base, size)
    else segs' == AddedSegs(segs, top, topsize, base, size)
  }

  lemma PrependUsed(segs: seq<Seg>, top: int, topsize: nat, base: int, size: nat, i: nat)
    requires i < |segs| && segs[i].base == base + size && base != segs[0].End()
    ensures Prepends(segs, base, size) && RegionUsed(segs, top, topsize, base, size, PrependedSegs(segs, i, base, size))
  {
    hide PrependedSegs;
  }

  lemma TopUsed(segs: seq<Seg>, top: int, topsize: nat, base: int, size: nat)
    requires segs == [] || base == segs[0].End() || forall i | 0 <= i < |segs| :: segs[i].base != base + size
    ensures !Prepends(segs, base, size)
    ensures segs == [] ==> RegionUsed(segs, top, topsize, base, size, [Seg(base, size, 0)])
    ensures segs != [] && base == segs[0].End() ==>
            RegionUsed(segs, top, topsize, base, size, ResizedSegs(segs, topsize, topsize + size))
    ensures segs != [] && base != segs[0].End() ==>
            RegionUsed(segs, top, topsize, base, size, AddedSegs(segs, top, topsize, base, size))
  {
    hide ResizedSegs, AddedSegs;
  }

  lemma UnmappedViews(g: Ghost, head: Heads, foot: Field, segs: seq<Seg>, top: int, topsize: nat, F: map<int, nat>,
                      p: int)
    requires ViewsOk(g.C, head, foot, segs, top, topsize, F, g.live, g.maps) && p in g.maps
    ensures ViewsOk(g.C, head, foot, segs, top, topsize, F, g.live, g.maps - {p})
  {
    hide Tags, SegsOk, PoolOk, UsedOk, MapOk;
  }

  lemma UnmappedWhole(g: Ghost, head: Heads, F: map<int, nat>, B: map<int, nat>, ring: map<int, nat>, d: Bytes, p: int)
    requires Whole(g, head, F, B, ring, d)
    ensures Whole(Ghost(g.C, g.live, g.maps - {p}), head, F, B, ring, d)
  {
    hide HasWord, LinksWhole;
    forall q ensures MapWhole(g.maps - {p}, d, q) {
      assert MapWhole(g.maps, d, q);
    }
  }

  // ----- how much to ask for

  ghost predicate Paged(n: int) {
    n % PAGE == 0
  }

  lemma PageMultiple(k: nat, unit: nat)
    requires Paged(unit)
    ensures Paged(k * unit)
  {
    var m := unit / PAGE;
    assert k * unit == PAGE * (k * m);
  }

  /** Rounding a padded size up either keeps its promise or, having wrapped, comes out no larger than the size. */
  lemma PaddedUp(nb: nat, pad: nat, unit: nat)
    requires nb < WORD_RANGE && 0 < pad < PAGE && 0 < unit < WORD_RANGE && unit % PAGE == 0
    ensures var m := AlignUp(Plus(nb, pad), unit);
            m < WORD_RANGE && m % PAGE == 0 && (m > nb <==> nb + pad + unit - 1 < WORD_RANGE)
            && (m > nb ==> nb + pad <= m < nb + pad + unit)
  {
    hide AlignUp;
    AlignUpIs(Plus(nb, pad), unit);
    PageBelow(AlignUp(Plus(nb, pad), unit));
  }

  lemma AlignUpIs(x: nat, unit: nat)
    requires x < WORD_RANGE && 0 < unit < WORD_RANGE && unit % PAGE == 0
    ensures var m, y := AlignUp(x, unit), Plus(x, unit - 1); y - unit < m <= y && (y < unit ==> m == 0) && m % PAGE == 0
  {
    AlignUpBounds(x, unit);
    AlignUpPage(x, unit);
    hide AlignUp;
  }

  lemma AlignUpBounds(x: nat, unit: nat)
    requires x < WORD_RANGE && 0 < unit < WORD_RANGE
    ensures var m, y := AlignUp(x, unit), Plus(x, unit - 1); y - unit < m <= y && (y < unit ==> m == 0)
  {
    RoundDown(Plus(x, unit - 1), unit);
    hide Plus;
  }

  lemma AlignUpPage(x: nat, unit: nat)
    requires x < WORD_RANGE && 0 < unit < WORD_RANGE && Paged(unit)
    ensures Paged(AlignUp(x, unit))
  {
    hide Paged, Plus;
    PageMultiple(Plus(x, unit - 1) / unit, unit);
  }

  lemma PageBelow(m: nat)
    requires m < WORD_RANGE && m % PAGE == 0
    ensures m <= WORD_RANGE - PAGE
  {
  }

  /** `align_offset`: how far to the next 16-byte boundary. */
  function AlignOffset(a: int): (r: nat)
    ensures r < 16 && (a + r) % 16 == 0
  {
    if a % 16 == 0 then 0 else 16 - a % 16
  }

  lemma AlignedOffset(p: int)
    requires IsAligned(p)
    ensures AlignOffset(p + 16) == 0
  {
  }

  /** Memory right after the first segment makes room for a bigger `top`. */
  lemma AppendRoom(g: Ghost, head: Heads, foot: Field, segs: seq<Seg>, top: int, topsize: nat, F: map<int, nat>,
                   size: nat)
    requires ViewsOk(g.C, head, foot, segs, top, topsize, F, g.live, g.maps) && segs != []
             && NewRegion(segs, g.maps, segs[0].End(), size)
    ensures forall i | 1 <= i < |segs| :: segs[i].End() <= segs[0].base || segs[0].End() + size <= segs[i].base
    ensures forall p | p in g.maps :: g.maps[p].End() <= segs[0].base || segs[0].End() + size <= g.maps[p].base
  {
    hide Tags, PoolOk, UsedOk, TopOk, EndOk, KindsOk, Placed, FenceOk, IsAligned;
    forall i | 1 <= i < |segs| ensures segs[i].End() <= segs[0].base || segs[0].End() + size <= segs[i].base {
      TwoApart(segs, 0, i);
      assert SegOk(g.C, segs[i]);
    }
    forall p | p in g.maps ensures g.maps[p].End() <= segs[0].base || segs[0].End() + size <= g.maps[p].base {
      assert MapOk(g.maps[p], head, foot, p) && Disjoint(g.maps[p], Region(segs[0].base, segs[0].size));
    }
  }

  lemma AppendFits(g: Ghost, head: Heads, foot: Field, segs: seq<Seg>, top: int, topsize: nat, F: map<int, nat>,
                   size: nat)
    requires ViewsOk(g.C, head, foot, segs, top, topsize, F, g.live, g.maps) && segs != [] && size % PAGE == 0
             && NewRegion(segs, g.maps, segs[0].End(), size)
    ensures RoomFor(segs, g.maps, topsize, topsize + size) && AlignOffset(top + 16) == 0 && topsize > 0
  {
    hide ViewsOk, IsAligned, Unclaimed, AlignOffset;
    TopFacts(g, head, foot, segs, top, topsize, F);
    AlignedOffset(top);
    PageAligned(size);
    AlignedSum(topsize, size);
    AppendRoom(g, head, foot, segs, top, topsize, F, size);
    PageSum(segs[0].size, size);
  }

  lemma PageSum(a: nat, b: nat)
    requires a % PAGE == 0 && b % PAGE == 0
    ensures (a + b) % PAGE == 0
  {
  }

  lemma TopFacts(g: Ghost, head: Heads, foot: Field, segs: seq<Seg>, top: int, topsize: nat, F: map<int, nat>)
    requires ViewsOk(g.C, head, foot, segs, top, topsize, F, g.live, g.maps) && segs != []
    ensures topsize > 0 && IsAligned(top) && IsAligned(topsize) && segs[0].size > 0 && segs[0].size % PAGE == 0
            && segs[0].rec == 0 && topsize < segs[0].size && segs[0].End() <= WORD_RANGE
  {
    hide PoolOk, UsedOk, MapsOk, EndOk, KindsOk, Placed, FenceOk, SegsApart, InOrder;
    assert SegOk(g.C, segs[0]) && TagOk(g.C, head, foot, top);
  }

  // ----- the writes of a closed segment

  lemma RecordAligned(top: int, topsize: nat)
    requires IsAligned(top) && IsAligned(topsize) && topsize > 0
    ensures var rec, end := RecordPlace(top, topsize), top + topsize + TOP_FOOT;
            && rec % 16 == 0 && end % 16 == 0 && rec + RECORD + 32 <= end && (rec + RECORD) % 16 == 0 && top <= rec
            && (rec != top ==> rec == top + topsize)
  {
  }

  lemma TagBytesRefl(d: Bytes, lo: int, hi: int)
    ensures TagBytes(d, d, lo, hi, hi)
  {
  }

  lemma ClosedWritten(head0: Heads, head1: Heads, head2: Heads, head3: Heads, foot: Field, foot3: Field, top: int,
                      topsize: nat)
    requires topsize > 0 && IsAligned(topsize)
    requires var rec, end := RecordPlace(top, topsize), top + topsize + TOP_FOOT;
             && head1 == head0.Set(rec, Head(RECORD, true, true))
             && head2.At(rec + RECORD) == Head(8, true, true)
             && (forall a {:trigger head2.At(a)} | !(rec + RECORD <= a < end) :: head2.At(a) == head1.At(a))
             && (rec == top ==> head3 == head2 && foot3 == foot)
             && (rec != top ==>
                head3 == head2.Set(rec, Head(head2.At(rec).size, false, head2.At(rec).cinuse)).Set(top,
                Head(topsize, true, false)) && foot3 == foot.Set(rec, topsize))
    ensures ClosedHeads(head0, foot, head3, foot3, top, topsize)
  {
  }

  lemma AddedWritten(d: Bytes, d0: Bytes, d1: Bytes, d2: Bytes, d3: Bytes, d4: Bytes, top: int, topsize: nat, base: int,
                     size: nat)
    requires topsize > 0 && IsAligned(topsize) && size > TOP_FOOT
    requires var rec, end := RecordPlace(top, topsize), top + topsize + TOP_FOOT;
             && TagBytes(d, d0, base, base + size - TOP_FOOT, base + size - TOP_FOOT)
             && SameOutside(d0, d1, rec + 8, rec + 16) && SameOutside(d1, d2, rec + 16, rec + RECORD)
             && SameOutside(d2, d3, rec + RECORD, end) && TagBytes(d3, d4, top, rec, rec) && (rec == top ==> d4 == d3)
    ensures AddedBytes(d, d4, top, topsize, base, size) && AddedTouched(d, d4, top, topsize, base, size)
  {
    hide HasWord;
    var rec, end := RecordPlace(top, topsize), top + topsize + TOP_FOOT;
    forall a | !(top + 8 <= a < end) && !(base <= a < base + size) ensures d4.At(a) == d.At(a) {
      assert d4.At(a) == d3.At(a);
      assert d3.At(a) == d2.At(a) == d1.At(a) == d0.At(a) == d.At(a);
    }
  }

  lemma AddedWholeWords(d0: Bytes, d1: Bytes, d2: Bytes, d3: Bytes, d4: Bytes, top: int, topsize: nat, base: int,
                        size: nat)
    requires topsize > 0 && IsAligned(topsize) && size > TOP_FOOT
             && (base + size <= top || top + topsize + TOP_FOOT <= base)
    requires var rec, end := RecordPlace(top, topsize), top + topsize + TOP_FOOT;
             && HasWord(d0, base, HeadW) && HasWord(d0, base + size - TOP_FOOT, HeadW) && HasWord(d1, rec, HeadW)
             && HasWord(d3, rec + RECORD, HeadW)
             && SameOutside(d0, d1, rec + 8, rec + 16) && SameOutside(d1, d2, rec + 16, rec + RECORD)
             && SameOutside(d2, d3, rec + RECORD, end) && TagBytes(d3, d4, top, rec, rec) && (rec == top ==> d4 == d3)
             && (rec != top ==> HasWord(d4, top, HeadW) && HasWord(d4, rec, FootW))
    ensures AddedWords(d4, top, topsize, base, size)
  {
    var rec, end := RecordPlace(top, topsize), top + topsize + TOP_FOOT;
    forall a | base <= a < base + size ensures d4.At(a) == d0.At(a) {
      assert d4.At(a) == d3.At(a) == d2.At(a) == d1.At(a) == d0.At(a);
    }
    WordStaysAt(d0, d4, base + 8, HeadW);
    WordStaysAt(d0, d4, base + size - TOP_FOOT + 8, HeadW);
    WordStays(d1, d2, rec + 16, rec + RECORD, rec + 8, HeadW);
    WordStays(d2, d3, rec + RECORD, end, rec + 8, HeadW);
    forall a | rec + RECORD <= a < rec + RECORD + 16 ensures d4.At(a) == d3.At(a) {
    }
    WordStaysAt(d3, d4, rec + RECORD + 8, HeadW);
  }

  lemma RecordSpot(top: int, topsize: nat)
    requires IsAligned(top) && IsAligned(topsize)
    ensures var raw := top + topsize + TOP_FOOT - (RECORD + 32 + 15); raw + AlignOffset(raw + 16) == top + topsize
  {
  }

  lemma AddFits(g: Ghost, head: Heads, foot: Field, segs: seq<Seg>, top: int, topsize: nat, F: map<int, nat>, base: int,
                size: nat)
    requires ViewsOk(g.C, head, foot, segs, top, topsize, F, g.live, g.maps) && segs != []
             && NewRegion(segs, g.maps, base, size)
    ensures AlignOffset(base + 16) == 0 && base > 0 && size >= TOP_FOOT + 16 && IsAligned(top) && IsAligned(topsize)
            && topsize > 0 && top > 0
    ensures segs[0].base <= top < segs[0].End() && segs[0].End() == top + topsize + TOP_FOOT
            && (base + size <= top || top + topsize + TOP_FOOT <= base)
  {
    hide Tags, SegsOk, PoolOk, UsedOk, MapsOk;
    TopEnds(g.C, head, foot, segs, top, topsize);
    NewRegionElsewhere(g.C, head, foot, segs, top, topsize, g.maps, base, size);
    AlignedOffset(base);
  }

  lemma AddedApartPool(F: map<int, nat>, top: int, topsize: nat, B: map<int, nat>, dv: int, dvsize: nat)
    requires F == Pool(B, dv, dvsize) && DvOk(B, dv, dvsize) && top !in F && RecordPlace(top, topsize) != top && top > 0
    ensures Apart(AddedPool(F, top, topsize), top, B, dv, dvsize) && dv != top && top in AddedPool(F, top, topsize)
            && AddedPool(F, top, topsize)[top] == topsize
  {
  }

  // ----- the writes of a segment extended downwards

  lemma PrependedWritten(head: Heads, head': Heads, base: int, nb: nat, size: nat)
    requires MIN_CHUNK <= nb && nb + MIN_CHUNK <= size
    requires head' == head.Set(base, Head(nb, true, true)).Set(base + nb, Head(size - nb, true, true))
    ensures head' == PrependedHeads(head, base, nb, size)
    ensures head'.At(base + nb) == Head(size - nb, true, true)
  {
  }

  lemma PrependedApartPool(g: Ghost, head: Heads, foot: Field, segs: seq<Seg>, top: int, topsize: nat,
                           maps: map<int, Region>, i: nat, lo: int, nb: nat, size: nat,
                           B: map<int, nat>, dv: int, dvsize: nat)
    requires ViewsOk(g.C, head, foot, segs, top, topsize, Pool(B, dv, dvsize), g.live, maps)
             && MayPrepend(segs, maps, i, lo, nb, size) && DvOk(B, dv, dvsize)
    ensures Apart(Pool(B, dv, dvsize), lo + nb, B, dv, dvsize) && lo + nb != dv && lo > 0 && lo + nb !in g.C
            && lo !in g.C
  {
    hide Tags, SegsOk, UsedOk, MapsOk;
    NewRegionElsewhere(g.C, head, foot, segs, top, topsize, maps, lo, size);
    PrependedKeep(g.C, lo, nb, size);
    PoolUnlinked(Pool(B, dv, dvsize), lo + nb, B, dv, dvsize);
    assert dvsize > 0 ==> dv in Pool(B, dv, dvsize);
  }

  /** Writing the record of a segment leaves all bytes handed out alone. */
  lemma RecordKept(g: Ghost, head: Heads, foot: Field, segs: seq<Seg>, top: int, topsize: nat, F: map<int, nat>, i: nat,
                   d: Bytes, d': Bytes,
                   B: map<int, nat>, ring: map<int, nat>)
    requires ViewsOk(g.C, head, foot, segs, top, topsize, F, g.live, g.maps) && 1 <= i < |segs|
             && SameOutside(d, d', segs[i].rec + 16, segs[i].rec + RECORD)
    requires Whole(g, head, F, B, ring, d)
    ensures Undisturbed(g, g, g.live, d, d') && Whole(g, head, F, B, ring, d')
  {
    hide Tags, SegsOk, MapsOk, HasWord, LinksWhole, IsRecord, PoolOk;
    var rec := segs[i].rec;
    RecordIsUsed(g, head, foot, segs, top, topsize, F, i);
    PayloadTouched(g.C, g.maps, rec, d, d');
    WordsStay(g.C, head, g.maps, F, g.C, head, foot, segs, top, topsize, F, g.live, g.maps, B, ring, {}, {rec}, {}, d,
              d');
    forall a | InPayload(g.C, g.maps, g.live, a) ensures d'.At(a) == d.At(a) {
      RecordNotPayload(g, head, foot, segs, top, topsize, F, rec, a);
    }
  }

  lemma RecordIsUsed(g: Ghost, head: Heads, foot: Field, segs: seq<Seg>, top: int, topsize: nat, F: map<int, nat>,
                     i: nat)
    requires ViewsOk(g.C, head, foot, segs, top, topsize, F, g.live, g.maps) && 1 <= i < |segs|
    ensures IsRecord(segs, segs[i].rec) && segs[i].rec in g.C && g.C[segs[i].rec] == Chunk(RECORD, Used)
            && segs[i].rec > 0 && segs[i].rec !in F
  {
    hide MapsOk, TopOk, SegOk, KindsOk, SegsApart, Placed, FenceOk;
    assert EndOk(g.C, segs[i]) && TagOk(g.C, head, foot, segs[i].rec);
  }

  lemma PayloadTouched(C: Chunks, maps: map<int, Region>, p: int, d: Bytes, d': Bytes)
    requires p in C && SameOutside(d, d', p + 16, p + C[p].size) && p > 0
    ensures Touched(C, maps, {}, {p}, {}, d, d') && SameBelow(d, d')
  {
    assert p in {p};
  }

  lemma RecordNotPayload(g: Ghost, head: Heads, foot: Field, segs: seq<Seg>, top: int, topsize: nat, F: map<int, nat>,
                         rec: int, a: int)
    requires ViewsOk(g.C, head, foot, segs, top, topsize, F, g.live, g.maps) && IsRecord(segs, rec) && rec in g.C
             && g.C[rec] == Chunk(RECORD, Used)
    requires InPayload(g.C, g.maps, g.live, a)
    ensures !(rec + 16 <= a < rec + RECORD)
  {
    hide SegsOk, PoolOk, MapsOk, IsRecord;
    if q :| q in g.live && q in g.C && q + 16 <= a < q + g.C[q].size + 8 {
      assert q != rec && InOrder(g.C, q, rec) && InOrder(g.C, rec, q);
    } else {
      var q :| q in g.maps && q + 16 <= a < g.maps[q].End() - 32;
      MapClear(g.C, head, foot, segs, top, topsize, g.maps, rec, q, a);
    }
  }

  lemma PrependedGave(g0: Ghost, g1: Ghost, g: Ghost, p: int, nb: nat, size: nat, d: Bytes, d2: Bytes, d': Bytes)
    requires nb < size && g1 == Ghost(Prepended(g0.C, p, nb, size), g0.live + {p, p + nb}, g0.maps) && nb > 0
    requires p !in g0.live && p + nb !in g0.live && g.live == g1.live - {p + nb}
    requires Undisturbed(g0, g1, g0.live, d, d2) && Undisturbed(g1, g, g1.live - {p + nb}, d2, d')
    ensures Gave(g0, g, p, nb, d, d') && HasSize(g, p, nb)
  {
    hide Kept;
    UndisturbedTrans(g0, g1, g, g0.live, g1.live - {p + nb}, g0.live, d, d2, d');
    assert p in g1.live - {p + nb};
  }

  // ----- a chunk mapped directly

  /** A chunk with a mapping of its own has been handed out; all others are undisturbed. */
  ghost predicate Mapped(g: Ghost, g': Ghost, p: int, nb: nat, d: Bytes, d': Bytes) {
    && p !in g.maps && p !in g.C && p in g'.maps && g' == Ghost(g.C, g.live, g.maps[p := g'.maps[p]]) && IsAligned(p)
    && p > 0
    && g'.maps[p].base <= p && p + nb + 48 <= g'.maps[p].End() && Undisturbed(g, g, g.live, d, d')
    && AllZero(d', p + 16, g'.maps[p].End() - 32)
  }

  lemma FootprintBound(g: Ghost, head: Heads, foot: Field, segs: seq<Seg>, top: int, topsize: nat, F: map<int, nat>,
                       mapped: seq<Region>, fp: nat, maxfp: nat, least: int)
    requires ViewsOk(g.C, head, foot, segs, top, topsize, F, g.live, g.maps)
             && BooksOk(segs, g.maps, mapped, fp, maxfp, least)
    ensures fp < WORD_RANGE
  {
    hide Tags, SegsOk, MapsOk, PoolOk, UsedOk, Footprint;
    FootprintFits(g.C, head, foot, segs, top, topsize, g.maps);
  }

  lemma MapFits(g: Ghost, head: Heads, foot: Field, segs: seq<Seg>, top: int, topsize: nat, F: map<int, nat>,
                mapped: seq<Region>, fp: nat, maxfp: nat, least: int, base: int, size: nat)
    requires ViewsOk(g.C, head, foot, segs, top, topsize, F, g.live, g.maps)
             && BooksOk(segs, g.maps, mapped, fp, maxfp, least)
    requires size > TOP_FOOT || size >= 64
    requires size % PAGE == 0 && 0 < base && base % PAGE == 0 && base + size <= WORD_RANGE
             && Vacant(mapped, base, base + size)
    ensures NewRegion(segs, g.maps, base, size) && IsAligned(base) && AlignOffset(base + 16) == 0
  {
    hide Tags, SegsOk, MapsOk, PoolOk, UsedOk, BooksOk, Vacant;
    GrantedIsNew(g.C, head, foot, segs, top, topsize, g.maps, mapped, fp, maxfp, least, base, size);
    PageAligned(base);
    AlignedOffset(base);
  }

  lemma MapIsOk(base: int, offset: nat, size: nat, head: Heads, foot: Field)
    requires base > 0 && base % PAGE == 0 && size % PAGE == 0 && size > 0 && base + size <= WORD_RANGE && offset == 0
    requires foot.At(base + offset) == offset && head.At(base + offset) == Head(size - offset - 32, false, false)
    requires head.At(base + size - 32) == Head(8, true, true) && head.At(base + size - 24) == Head(0, false, false)
    ensures MapOk(Region(base, size), head, foot, base + offset)
  {
    PageAligned(base);
  }

  /** The lowest address, once `base` counts too. */
  lemma LeastIsLeast(segs: seq<Seg>, maps: map<int, Region>, mapped: seq<Region>, fp: nat, maxfp: nat, least: int,
                     base: int, least': int)
    requires BooksOk(segs, maps, mapped, fp, maxfp, least) && base > 0 && least' == if least == 0 || base < least
             then base else least
    ensures BooksOk(segs, maps, mapped, fp, maxfp, least') && least' <= base && least' != 0
  {
    hide Footprint, HoldsAll;
  }

  lemma MapsOfUndisturbed(g: Ghost, g': Ghost, L: set<int>, d: Bytes, d': Bytes)
    requires Undisturbed(g, g', L, d, d')
    ensures g'.maps == g.maps
  {
  }

  /** The first segment holds `top`, and no other one does. */
  lemma TopHeld(g: Ghost, head: Heads, foot: Field, segs: seq<Seg>, top: int, topsize: nat, F: map<int, nat>)
    requires ViewsOk(g.C, head, foot, segs, top, topsize, F, g.live, g.maps) && top != 0
    ensures segs != [] && forall i | 0 <= i < |segs| :: segs[i].base <= top < segs[i].End() <==> i == 0
  {
    hide Tags, PoolOk, UsedOk, MapsOk, EndOk, KindsOk, Placed, FenceOk;
    assert segs != [];
    TopEnds(g.C, head, foot, segs, top, topsize);
    forall i | 0 <= i < |segs| ensures segs[i].base <= top < segs[i].End() <==> i == 0 {
      TwoApart(segs, 0, i);
    }
  }

  lemma GaveAfter(g: Ghost, g1: Ghost, g': Ghost, p: int, nb: nat, d: Bytes, d1: Bytes, d': Bytes)
    requires g1.live == g.live && Undisturbed(g, g1, g.live, d, d1) && Gave(g1, g', p, nb, d1, d')
    ensures Gave(g, g', p, nb, d, d')
  {
    hide Kept;
    UndisturbedTrans(g, g1, g', g.live, g.live, g.live, d, d1, d');
  }

  // ----- trimming

  /** How much `sys_trim` takes off `top`, in size_t arithmetic. */
  function TrimExtra(topsize: nat, pad: nat, unit: nat): nat
    requires pad < topsize < WORD_RANGE && 0 < unit < WORD_RANGE
  {
    Minus(Plus(topsize - pad, unit - 1) / unit, 1) * unit % WORD_RANGE
  }

  /** It is a number of whole pages and leaves more than the padding, wrapped around or not. */
  lemma TrimLeaves(topsize: nat, pad: nat, unit: nat)
    requires pad < topsize < WORD_RANGE && 0 < unit < WORD_RANGE && unit % PAGE == 0
    ensures TrimExtra(topsize, pad, unit) < topsize - pad && TrimExtra(topsize, pad, unit) % PAGE == 0
  {
    var y := Plus(topsize - pad, unit - 1);
    var k := y / unit;
    RoundDown(y, unit);
    if topsize - pad + unit - 1 < WORD_RANGE {
      TrimUnits(y, k, unit);
      assert TrimExtra(topsize, pad, unit) == (k - 1) * unit;
      PageMultiple(k - 1, unit);
    } else {
      TrimWrapped(unit);
    }
  }

  /** What a trim makes of `top`: where there was more than the padding, that and at most one unit more is left, and
      whole units have gone unless the sum of the source wraps around. */
  predicate TrimmedTo(was: nat, topsize: nat, pad: nat, unit: nat) {
    if was <= pad then topsize == was
    else pad < topsize <= pad + unit && (unit > 0 && was - pad + unit <= WORD_RANGE ==> (was - topsize) % unit == 0)
  }

  lemma TrimMeans(topsize: nat, pad: nat, unit: nat)
    requires pad < topsize < WORD_RANGE && 0 < unit < WORD_RANGE && unit % PAGE == 0
    ensures 0 <= topsize - TrimExtra(topsize, pad, unit)
            && TrimmedTo(topsize, topsize - TrimExtra(topsize, pad, unit), pad, unit)
  {
    var y := Plus(topsize - pad, unit - 1);
    var k := y / unit;
    RoundDown(y, unit);
    if topsize - pad + unit - 1 < WORD_RANGE {
      TrimUnits(y, k, unit);
      OneUnitLess(k, unit);
      WholeUnits(k - 1, unit);
    } else {
      TrimWrapped(unit);
    }
  }

  lemma OneUnitLess(k: nat, unit: nat)
    requires k >= 1
    ensures (k - 1) * unit == k * unit - unit
  {
  }

  lemma WholeUnits(k: nat, unit: nat)
    requires unit > 0
    ensures k * unit % unit == 0
  {
    var x := k * unit;
    OneRemainder(x / unit, x % unit, k, 0, unit);
  }

  lemma TrimUnits(y: nat, k: nat, unit: nat)
    requires unit > 0 && k == y / unit && y >= unit && y < WORD_RANGE
    ensures k >= 1 && 0 <= (k - 1) * unit <= y - unit && (k - 1) * unit % WORD_RANGE == (k - 1) * unit
  {
    RoundDown(y, unit);
    assert (k - 1) * unit == k * unit - unit;
  }

  lemma TrimWrapped(unit: nat)
    requires 0 < unit < WORD_RANGE && unit % PAGE == 0
    ensures (WORD_RANGE - 1) * unit % WORD_RANGE == WORD_RANGE - unit && (WORD_RANGE - unit) % PAGE == 0
  {
    RemainderIs(unit - 1, WORD_RANGE - unit, WORD_RANGE);
    var q := unit / PAGE;
    assert WORD_RANGE == PAGE * 0x10_0000_0000_0000 && WORD_RANGE - unit == PAGE * (0x10_0000_0000_0000 - q);
  }

  /** A shorter first segment has room. */
  lemma TrimFits(g: Ghost, head: Heads, foot: Field, segs: seq<Seg>, top: int, topsize: nat, F: map<int, nat>,
                 extra: nat)
    requires ViewsOk(g.C, head, foot, segs, top, topsize, F, g.live, g.maps) && top != 0 && extra < topsize
             && extra % PAGE == 0
    ensures segs != [] && RoomFor(segs, g.maps, topsize, topsize - extra) && AlignOffset(top + 16) == 0
            && extra < segs[0].size && segs[0].rec == 0
    ensures extra + 16 <= topsize
    ensures forall i | 1 <= i < |segs| :: segs[i].End() <= segs[0].base || segs[0].End() <= segs[i].base
    ensures forall p | p in g.maps :: g.maps[p].End() <= segs[0].base || segs[0].End() <= g.maps[p].base
  {
    hide ViewsOk, IsAligned, AlignOffset;
    TopPresent(g, head, foot, segs, top, topsize, F);
    TopFacts(g, head, foot, segs, top, topsize, F);
    FirstApart(g, head, foot, segs, top, topsize, F);
    AlignedOffset(top);
    PageAligned(extra);
    AlignedSum(topsize, extra);
    AlignedGap(topsize, extra);
    PageGap(segs[0].size, extra);
  }

  lemma AlignedGap(a: nat, b: nat)
    requires IsAligned(a) && IsAligned(b) && b < a
    ensures b + 16 <= a
  {
  }

  lemma PageGap(a: nat, b: nat)
    requires a % PAGE == 0 && b % PAGE == 0 && b < a
    ensures (a - b) % PAGE == 0
  {
  }

  /** The first segment is clear of all others and of the mappings. */
  lemma FirstApart(g: Ghost, head: Heads, foot: Field, segs: seq<Seg>, top: int, topsize: nat, F: map<int, nat>)
    requires ViewsOk(g.C, head, foot, segs, top, topsize, F, g.live, g.maps) && segs != []
    ensures forall i | 1 <= i < |segs| :: segs[i].End() <= segs[0].base || segs[0].End() <= segs[i].base
    ensures forall p | p in g.maps :: g.maps[p].End() <= segs[0].base || segs[0].End() <= g.maps[p].base
  {
    hide Tags, PoolOk, UsedOk, TopOk, SegOk, EndOk, KindsOk, Placed, FenceOk, MapOk;
    forall i | 1 <= i < |segs| ensures segs[i].End() <= segs[0].base || segs[0].End() <= segs[i].base {
      TwoApart(segs, 0, i);
    }
    forall p | p in g.maps ensures g.maps[p].End() <= segs[0].base || segs[0].End() <= g.maps[p].base {
      assert Disjoint(g.maps[p], Region(segs[0].base, segs[0].size));
    }
  }

  /** Unmapping nothing changes nothing that matters. */
  lemma NothingCarvedAccounts(segs: seq<Seg>, maps: map<int, Region>, mapped: seq<Region>, fp: nat, maxfp: nat,
                              least: int,
                              a: int)
    requires Accounted(segs, maps, mapped, fp, maxfp, least)
    ensures Accounted(segs, maps, Carve(mapped, a, a), fp, maxfp, least)
  {
    hide HoldsAll, Footprint, Carve;
    forall i | 0 <= i < |segs| ensures HoldsAll(Carve(mapped, a, a), segs[i].base, segs[i].End()) {
      HoldsCarved(mapped, a, segs[i].base, segs[i].End());
    }
    forall p | p in maps ensures HoldsAll(Carve(mapped, a, a), maps[p].base, maps[p].End()) {
      HoldsCarved(mapped, a, maps[p].base, maps[p].End());
    }
  }

  lemma NothingCarved(segs: seq<Seg>, maps: map<int, Region>, mapped: seq<Region>, fp: nat, maxfp: nat, least: int,
                      a: int)
    requires BooksOk(segs, maps, mapped, fp, maxfp, least)
    ensures BooksOk(segs, maps, Carve(mapped, a, a), fp, maxfp, least)
  {
    hide HoldsAll, Accounted, OnlyBooked, Booked, Sum, SegRegions, MapRegions, Footprint, Carve;
    NothingCarvedAccounts(segs, maps, mapped, fp, maxfp, least, a);
    BookedLess(segs, maps, mapped, a, a, segs, maps);
  }

  lemma HoldsCarved(rs: seq<Region>, a: int, lo: int, hi: int)
    requires HoldsAll(rs, lo, hi)
    ensures HoldsAll(Carve(rs, a, a), lo, hi)
  {
    hide Holds;
    forall b | lo <= b < hi ensures Holds(Carve(rs, a, a), b) {
      CarveHolds(rs, a, a, b);
    }
  }
}
