/** The footprint and the other figures kept about the memory obtained from the system. */
module Books {
  import opened Sizes
  import opened Memory
  import opened Layout
  import opened Heap
  import opened System

  ghost function Sum(rs: seq<Region>): nat {
    if rs == [] then 0 else rs[0].size + Sum(rs[1..])
  }

  ghost function SegRegions(segs: seq<Seg>): (rs: seq<Region>)
    ensures |rs| == |segs| && forall i | 0 <= i < |segs| :: rs[i] == Region(segs[i].base, segs[i].size)
  {
    if segs == [] then [] else [Region(segs[0].base, segs[0].size)] + SegRegions(segs[1..])
  }

  /** The mapped regions, in some order. */
  ghost function MapRegions(maps: map<int, Region>): seq<Region> {
    if exists p :: p in maps then var p :| p in maps; [maps[p]] + MapRegions(maps - {p}) else []
  }

  /** All memory obtained from the system. */
  ghost function Footprint(segs: seq<Seg>, maps: map<int, Region>): nat {
    Sum(SegRegions(segs)) + Sum(MapRegions(maps))
  }

  lemma {:induction false} SumRemove(rs: seq<Region>, i: nat)
    requires i < |rs|
    ensures Sum(rs) == rs[i].size + Sum(rs[..i] + rs[i + 1..])
  {
    if i == 0 {
      assert rs[..0] + rs[1..] == rs[1..];
    } else {
      SumRemove(rs[1..], i - 1);
      assert (rs[..i] + rs[i + 1..])[0] == rs[0];
      assert (rs[..i] + rs[i + 1..])[1..] == rs[1..][..i - 1] + rs[1..][i..];
    }
  }

  lemma {:induction false} SumAppend(xs: seq<Region>, ys: seq<Region>)
    ensures Sum(xs + ys) == Sum(xs) + Sum(ys)
  {
    if xs == [] {
      assert xs + ys == ys;
    } else {
      SumAppend(xs[1..], ys);
      assert (xs + ys)[1..] == xs[1..] + ys;
    }
  }

  ghost predicate AllClear(rs: seq<Region>) {
    forall i, j :: 0 <= i < j < |rs| ==> Disjoint(rs[i], rs[j])
  }

  lemma {:induction false} Highest(rs: seq<Region>) returns (m: nat)
    requires rs != []
    ensures m < |rs| && forall i | 0 <= i < |rs| :: rs[i].base <= rs[m].base
  {
    if |rs| == 1 {
      m := 0;
    } else {
      var k := Highest(rs[1..]);
      m := if rs[0].base > rs[1..][k].base then 0 else k + 1;
    }
  }

  /** Regions that are clear of each other and lie below `hi` cannot add up to more. */
  lemma {:induction false} SumBound(rs: seq<Region>, hi: int)
    requires AllClear(rs) && hi >= 1 && forall i | 0 <= i < |rs| ::
             1 <= rs[i].base && rs[i].size > 0 && rs[i].End() <= hi
    ensures Sum(rs) < hi
    decreases |rs|
  {
    if rs != [] {
      var m := Highest(rs);
      var rest := rs[..m] + rs[m + 1..];
      SumRemove(rs, m);
      forall i | 0 <= i < |rest| ensures 1 <= rest[i].base && rest[i].size > 0 && rest[i].End() <= rs[m].base {
        var o := if i < m then i else i + 1;
        assert rest[i] == rs[o];
        assert Disjoint(rs[if o < m then o else m], rs[if o < m then m else o]);
      }
      SumBound(rest, rs[m].base);
    }
  }

  lemma {:induction false} MapRegionsValues(maps: map<int, Region>, i: nat) returns (p: int)
    requires i < |MapRegions(maps)|
    ensures p in maps && maps[p] == MapRegions(maps)[i]
  {
    var q :| q in maps && MapRegions(maps) == [maps[q]] + MapRegions(maps - {q});
    if i == 0 {
      p := q;
    } else {
      p := MapRegionsValues(maps - {q}, i - 1);
    }
  }

  lemma {:induction false} MapRegionsClear(maps: map<int, Region>)
    requires forall p, q | p in maps && q in maps && p != q :: Disjoint(maps[p], maps[q])
    ensures AllClear(MapRegions(maps))
    decreases |maps|
  {
    if maps.Keys != {} {
      var q :| q in maps && MapRegions(maps) == [maps[q]] + MapRegions(maps - {q});
      var rest := maps - {q};
      MapRegionsClear(rest);
      forall j | 0 <= j < |MapRegions(rest)| ensures Disjoint(maps[q], MapRegions(rest)[j]) {
        var p := MapRegionsValues(rest, j);
      }
    }
  }

  /** Taking one mapped region out. */
  lemma {:induction false} MapSumRemove(maps: map<int, Region>, p: int)
    requires p in maps
    ensures Sum(MapRegions(maps)) == maps[p].size + Sum(MapRegions(maps - {p}))
    decreases |maps|
  {
    var q :| q in maps && MapRegions(maps) == [maps[q]] + MapRegions(maps - {q});
    if q != p {
      MapSumRemove(maps - {q}, p);
      MapSumRemove(maps - {p}, q);
      assert maps - {q} - {p} == maps - {p} - {q};
    }
  }

  lemma MapSumAdd(maps: map<int, Region>, p: int, r: Region)
    requires p !in maps
    ensures Sum(MapRegions(maps[p := r])) == Sum(MapRegions(maps)) + r.size
  {
    MapSumRemove(maps[p := r], p);
    assert maps[p := r] - {p} == maps;
  }

  /** The figures agree with the memory held, and the system backs all of it. */
  ghost predicate Accounted(segs: seq<Seg>, maps: map<int, Region>, mapped: seq<Region>, footprint: nat,
                            maxFootprint: nat, leastAddr: int) {
    && footprint == Footprint(segs, maps) <= maxFootprint && (leastAddr == 0 ==> segs == [] && maps == map[])
    && (forall i | 0 <= i < |segs| :: HoldsAll(mapped, segs[i].base, segs[i].End()) && leastAddr <= segs[i].base)
    && (forall p | p in maps :: HoldsAll(mapped, maps[p].base, maps[p].End()) && leastAddr <= maps[p].base)
  }

  /** Byte `a` lies in a segment or in a mapping. */
  ghost predicate Booked(segs: seq<Seg>, maps: map<int, Region>, a: int) {
    || (exists i :: 0 <= i < |segs| && segs[i].base <= a < segs[i].End())
    || (exists p :: p in maps && maps[p].base <= a < maps[p].End())
  }

  /** Nothing else is mapped: no memory is forgotten. */
  ghost predicate OnlyBooked(segs: seq<Seg>, maps: map<int, Region>, mapped: seq<Region>) {
    forall a {:trigger Holds(mapped, a)} | Holds(mapped, a) :: Booked(segs, maps, a)
  }

  ghost predicate BooksOk(segs: seq<Seg>, maps: map<int, Region>, mapped: seq<Region>, footprint: nat,
                          maxFootprint: nat, leastAddr: int) {
    Accounted(segs, maps, mapped, footprint, maxFootprint, leastAddr) && OnlyBooked(segs, maps, mapped)
  }

  lemma BookedMore(segs: seq<Seg>, maps: map<int, Region>, mapped: seq<Region>, r: Region, segs': seq<Seg>,
                   maps': map<int, Region>)
    requires OnlyBooked(segs, maps, mapped)
    requires forall a | Booked(segs, maps, a) || r.base <= a < r.End() :: Booked(segs', maps', a)
    ensures OnlyBooked(segs', maps', mapped + [r])
  {
    hide Holds, Booked;
    forall a | Holds(mapped + [r], a) ensures Booked(segs', maps', a) {
      HoldsAppend(mapped, [r], a);
      HoldsOne(r, a);
    }
  }

  lemma BookedLess(segs: seq<Seg>, maps: map<int, Region>, mapped: seq<Region>, lo: int, hi: int, segs': seq<Seg>,
                   maps': map<int, Region>)
    requires OnlyBooked(segs, maps, mapped) && lo <= hi
    requires forall a | Booked(segs, maps, a) && !(lo <= a < hi) :: Booked(segs', maps', a)
    ensures OnlyBooked(segs', maps', Carve(mapped, lo, hi))
  {
    hide Holds, Booked, Carve;
    forall a | Holds(Carve(mapped, lo, hi), a) ensures Booked(segs', maps', a) {
      CarveHolds(mapped, lo, hi, a);
    }
  }

  lemma InSegIsBooked(segs: seq<Seg>, maps: map<int, Region>, i: nat, a: int)
    requires i < |segs| && segs[i].base <= a < segs[i].End()
    ensures Booked(segs, maps, a)
  {
  }

  lemma InMapIsBooked(segs: seq<Seg>, maps: map<int, Region>, p: int, a: int)
    requires p in maps && maps[p].base <= a < maps[p].End()
    ensures Booked(segs, maps, a)
  {
  }

  /** The footprint never reaches the word range: segments and maps are disjoint pieces of one address space. */
  lemma FootprintFits(C: Chunks, head: Heads, foot: Field, segs: seq<Seg>, top: int, topsize: nat,
                      maps: map<int, Region>)
    requires SegsOk(C, segs, top, topsize) && MapsOk(maps, head, foot, segs)
    ensures Footprint(segs, maps) < WORD_RANGE
  {
    var xs, ys := SegRegions(segs), MapRegions(maps);
    SumAppend(xs, ys);
    MapRegionsClear(maps);
    forall i | 0 <= i < |xs + ys|
      ensures 1 <= (xs + ys)[i].base && (xs + ys)[i].size > 0 && (xs + ys)[i].End() <= WORD_RANGE
    {
      RegionOk(C, head, foot, segs, top, topsize, maps, i);
    }
    forall i, j | 0 <= i < j < |xs + ys| ensures Disjoint((xs + ys)[i], (xs + ys)[j]) {
      RegionsClear(C, head, foot, segs, top, topsize, maps, i, j);
    }
    SumBound(xs + ys, WORD_RANGE);
  }

  lemma RegionOk(C: Chunks, head: Heads, foot: Field, segs: seq<Seg>, top: int, topsize: nat, maps: map<int, Region>,
                 i: nat)
    requires SegsOk(C, segs, top, topsize) && MapsOk(maps, head, foot, segs)
             && i < |SegRegions(segs) + MapRegions(maps)|
    ensures var r := (SegRegions(segs) + MapRegions(maps))[i]; 1 <= r.base && r.size > 0 && r.End() <= WORD_RANGE
  {
    hide TopOk, EndOk, SegsApart, KindsOk, Placed, IsAligned;
    if i < |segs| {
      assert SegOk(C, segs[i]);
    } else {
      var p := MapRegionsValues(maps, i - |segs|);
      assert MapOk(maps[p], head, foot, p);
    }
  }

  lemma RegionsClear(C: Chunks, head: Heads, foot: Field, segs: seq<Seg>, top: int, topsize: nat,
                     maps: map<int, Region>, i: nat, j: nat)
    requires SegsOk(C, segs, top, topsize) && MapsOk(maps, head, foot, segs) && AllClear(MapRegions(maps))
    requires i < j < |SegRegions(segs) + MapRegions(maps)|
    ensures var rs := SegRegions(segs) + MapRegions(maps); Disjoint(rs[i], rs[j])
  {
    hide TopOk, EndOk, KindsOk, Placed, IsAligned, MapOk, SegOk;
    var n := |segs|;
    if j < n {
      assert segs[i].End() <= segs[j].base || segs[j].End() <= segs[i].base;
    } else if i < n {
      var p := MapRegionsValues(maps, j - n);
      assert Disjoint(maps[p], Region(segs[i].base, segs[i].size));
    } else {
      assert Disjoint(MapRegions(maps)[i - n], MapRegions(maps)[j - n]);
    }
  }
}
