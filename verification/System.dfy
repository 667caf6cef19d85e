/** The operating system as the allocator sees it: `mmap` and `munmap` over one address space.

    A script decides every answer, so a statement about all scripts is one about every behaviour of the
    system: a map request is granted at the proposed address when nothing is mapped there, and refused
    otherwise; an unmap request is granted or refused at will. */
module System {
  import opened Sizes
  import opened Heap

  /** Byte `a` is mapped. */
  ghost predicate Holds(rs: seq<Region>, a: int) {
    exists i :: 0 <= i < |rs| && rs[i].base <= a < rs[i].End()
  }

  /** Every byte from `lo` up to `hi` is mapped. */
  ghost predicate HoldsAll(rs: seq<Region>, lo: int, hi: int) {
    forall a {:trigger Holds(rs, a)} | lo <= a < hi :: Holds(rs, a)
  }

  predicate Vacant(rs: seq<Region>, lo: int, hi: int) {
    forall i | 0 <= i < |rs| :: rs[i].End() <= lo || hi <= rs[i].base
  }

  /** What remains of the mapped regions without `[lo, hi)`: of each region the part below and the part above. */
  function Carve(rs: seq<Region>, lo: int, hi: int): seq<Region> {
    if rs == [] then [] else Below(rs[0], lo) + Above(rs[0], hi) + Carve(rs[1..], lo, hi)
  }

  function Below(r: Region, lo: int): seq<Region> {
    if r.base < lo then [Region(r.base, Min(r.End(), lo) - r.base)] else []
  }

  function Above(r: Region, hi: int): seq<Region> {
    if hi < r.End() then [Region(Max(r.base, hi), r.End() - Max(r.base, hi))] else []
  }

  lemma HoldsAppend(xs: seq<Region>, ys: seq<Region>, a: int)
    ensures Holds(xs + ys, a) <==> Holds(xs, a) || Holds(ys, a)
  {
    if i :| 0 <= i < |xs| && xs[i].base <= a < xs[i].End() {
      assert (xs + ys)[i] == xs[i];
    }
    if i :| 0 <= i < |ys| && ys[i].base <= a < ys[i].End() {
      assert (xs + ys)[|xs| + i] == ys[i];
    }
  }

  lemma HoldsOne(r: Region, a: int)
    ensures Holds([r], a) <==> r.base <= a < r.End()
  {
    if r.base <= a < r.End() {
      assert [r][0] == r;
    }
  }

  lemma HoldsParts(r: Region, lo: int, hi: int, a: int)
    requires lo <= hi
    ensures Holds(Below(r, lo) + Above(r, hi), a) <==> r.base <= a < r.End() && !(lo <= a < hi)
  {
    HoldsAppend(Below(r, lo), Above(r, hi), a);
    if r.base < lo {
      HoldsOne(Region(r.base, Min(r.End(), lo) - r.base), a);
    }
    if hi < r.End() {
      HoldsOne(Region(Max(r.base, hi), r.End() - Max(r.base, hi)), a);
    }
  }

  lemma {:induction false} CarveHolds(rs: seq<Region>, lo: int, hi: int, a: int)
    requires lo <= hi
    ensures Holds(Carve(rs, lo, hi), a) <==> Holds(rs, a) && !(lo <= a < hi)
  {
    if rs != [] {
      hide Holds, Below, Above;
      CarveHolds(rs[1..], lo, hi, a);
      HoldsAppend(Below(rs[0], lo) + Above(rs[0], hi), Carve(rs[1..], lo, hi), a);
      HoldsParts(rs[0], lo, hi, a);
      HoldsAppend([rs[0]], rs[1..], a);
      HoldsOne(rs[0], a);
      assert rs == [rs[0]] + rs[1..];
    }
  }

  /** Exactly the bytes from `lo` up to `hi` are not mapped any more. */
  ghost predicate Carved(rs: seq<Region>, rs': seq<Region>, lo: int, hi: int) {
    forall a {:trigger Holds(rs', a)} {:trigger Holds(rs, a)} :: Holds(rs', a) <==> Holds(rs, a) && !(lo <= a < hi)
  }

  lemma CarveCarves(rs: seq<Region>, lo: int, hi: int)
    requires lo <= hi
    ensures Carved(rs, Carve(rs, lo, hi), lo, hi)
  {
    hide Holds, Carve;
    forall a ensures Holds(Carve(rs, lo, hi), a) <==> Holds(rs, a) && !(lo <= a < hi) {
      CarveHolds(rs, lo, hi, a);
    }
  }

  class System {
    var script: seq<int>
    var mapped: seq<Region>

    /** How many requests for memory have been refused, and how many to give some back. */
    ghost var refusals: nat
    ghost var stuck: nat

    constructor (answers: seq<int>)
      ensures mapped == [] && refusals == stuck == 0
    {
      script, mapped, refusals, stuck := answers, [], 0, 0;
    }

    method Ask() returns (answer: int)
      modifies this`script
    {
      answer := 0;
      if script != [] {
        answer, script := script[0], script[1..];
      }
    }

    /** `CALL_MMAP` and `CALL_DIRECT_MMAP`: the start of a fresh page-aligned region, or 0. */
    method Mmap(size: nat) returns (base: int)
      requires size > 0
      modifies this
      ensures stuck == old(stuck)
      ensures base == 0 ==> mapped == old(mapped) && refusals == old(refusals) + 1
      ensures base != 0 ==>
              0 < base && base % PAGE == 0 && base + size <= WORD_RANGE && Vacant(old(mapped), base, base + size)
      ensures base != 0 ==> mapped == old(mapped) + [Region(base, size)] && refusals == old(refusals)
    {
      base := Ask();
      if 0 < base && base % PAGE == 0 && base + size <= WORD_RANGE && Vacant(mapped, base, base + size) {
        mapped := mapped + [Region(base, size)];
      } else {
        base, refusals := 0, refusals + 1;
      }
    }

    /** `CALL_MUNMAP`: gives `[base, base + size)` back, or fails. */
    method Munmap(base: int, size: nat) returns (ok: bool)
      modifies this
      ensures refusals == old(refusals) && mapped == if ok then Carve(old(mapped), base, base + size) else old(mapped)
      ensures stuck == if ok then old(stuck) else old(stuck) + 1
    {
      var answer := Ask();
      ok := answer != 0;
      if ok {
        mapped := Carve(mapped, base, base + size);
      } else {
        stuck := stuck + 1;
      }
    }
  }
}
