/** The memory the allocator reads and writes: bytes, and beside them one map per field of its overlaid records.

    A chunk at address `p` keeps `_prev_foot` at `p`, `_head` at `p + 8` and, while it is free, `_fd` and
    `_bk` from `p + 16` and the other fields of a tree node from `p + 32` to `p + 64`.  All of these share
    their addresses with each other and with the bytes of blocks.  Writing a field writes its eight bytes, and
    reading it means something only as long as these eight bytes are still the ones written through that
    field: then the memory is coherent (`Coherent`), and the map gives what the bytes hold. */
module Memory {

  type Words = m: imap<int, int> | forall a :: a in m
    ghost witness imap a: int | true :: 0

  /** A total field: every address can be read. */
  datatype Field = Field(m: Words) {
    function At(a: int): int {
      m[a]
    }

    function Set(a: int, v: int): (r: Field)
      ensures forall b {:trigger r.At(b)} :: r.At(b) == if b == a then v else At(b)
    {
      Field(m[a := v])
    }
  }

  /** A head word, unpacked: the size and the PINUSE and CINUSE bits. */
  datatype Head = Head(size: nat, pinuse: bool, cinuse: bool) {
    function Word(): nat {
      size + (if pinuse then 1 else 0) + (if cinuse then 2 else 0)
    }
  }

  type HeadWords = m: imap<int, Head> | forall a :: a in m
    ghost witness imap a: int | true :: Head(0, false, false)

  datatype Heads = Heads(m: HeadWords) {
    function At(a: int): Head {
      m[a]
    }

    function Set(a: int, h: Head): (r: Heads)
      ensures forall b {:trigger r.At(b)} :: r.At(b) == if b == a then h else At(b)
    {
      Heads(m[a := h])
    }
  }

  // ----- bytes

  /** The fields that words of memory belong to. */
  datatype Role = HeadW | FootW | FdW | BkW | LeftW | RightW | ParentW | IndexW | RecordW

  /** Where in a chunk the word of a field lies. */
  function OffsetOf(w: Role): int {
    match w
    case FootW => 0 case HeadW => 8 case FdW => 16 case BkW => 24
    case LeftW => 32 case RightW => 40 case ParentW => 48 case IndexW => 56 case RecordW => 16
  }

  /** The field of the child on a side. */
  function ChildRole(side: nat): Role {
    if side == 0 then LeftW else RightW
  }

  /** A byte: written by a caller, or byte `i` of a word written as a field. */
  datatype Cell = User(value: int) | Part(value: int, role: Role, i: nat) {
    /** The number the byte holds. */
    function Number(): int {
      match this
      case User(v) => v
      case Part(v, _, i) => ByteOf(v, i)
    }
  }

  /** Byte `i` of a word, the lowest being byte 0. */
  function ByteOf(v: int, i: nat): int
    decreases i
  {
    if i == 0 then v % 256 else ByteOf(v / 256, i - 1)
  }

  type Cells = m: imap<int, Cell> | forall a :: a in m
    ghost witness imap a: int | true :: User(0)

  datatype Bytes = Bytes(m: Cells) {
    function At(a: int): Cell {
      m[a]
    }

    function Set(a: int, c: Cell): (r: Bytes)
      ensures forall b {:trigger r.At(b)} :: r.At(b) == if b == a then c else At(b)
    {
      Bytes(m[a := c])
    }

    /** The eight bytes of the word `v`, written as a field at `a`. */
    function SetWord(a: int, w: Role, v: int): (r: Bytes)
      ensures forall b {:trigger r.At(b)} :: r.At(b) == if a <= b < a + 8 then Part(v, w, b - a) else At(b)
    {
      SetPart(a, w, v, 8)
    }

    /** The first `n` of these. */
    function SetPart(a: int, w: Role, v: int, n: nat): (r: Bytes)
      ensures forall b {:trigger r.At(b)} :: r.At(b) == if a <= b < a + n then Part(v, w, b - a) else At(b)
    {
      if n == 0 then this else SetPart(a, w, v, n - 1).Set(a + n - 1, Part(v, w, n - 1))
    }
  }

  /** The eight bytes at `a` are those of one word, written as field `w`. */
  ghost predicate IsWord(d: Bytes, a: int, w: Role) {
    forall b {:trigger d.At(b)} | a <= b < a + 8 :: d.At(b) == Part(d.At(a).value, w, b - a)
  }

  /** The word of field `w` of the chunk at `x` is whole. */
  ghost predicate HasWord(d: Bytes, x: int, w: Role) {
    IsWord(d, x + OffsetOf(w), w)
  }

  /** Where that word lies, and what it holds. */
  ghost function WordOf(d: Bytes, x: int, w: Role): int {
    d.At(x + OffsetOf(w)).value
  }

  lemma WordWritten(d: Bytes, a: int, w: Role, v: int)
    ensures IsWord(d.SetWord(a, w, v), a, w) && d.SetWord(a, w, v).At(a).value == v
  {
  }

  /** A word written leaves the words clear of it whole. */
  lemma WordKept(d: Bytes, a: int, w: Role, v: int, b: int, u: Role)
    requires IsWord(d, b, u) && (b + 8 <= a || a + 8 <= b)
    ensures IsWord(d.SetWord(a, w, v), b, u) && d.SetWord(a, w, v).At(b).value == d.At(b).value
  {
    assert d.SetWord(a, w, v).At(b) == d.At(b);
  }

  /** It spoils the others: those whole afterwards were so before. */
  lemma WordWas(d: Bytes, a: int, w: Role, v: int, b: int, u: Role)
    requires IsWord(d.SetWord(a, w, v), b, u) && (b != a || u != w)
    ensures IsWord(d, b, u) && d.SetWord(a, w, v).At(b).value == d.At(b).value
  {
    var d' := d.SetWord(a, w, v);
    var c := if a < b then b else a;
    assert d'.At(c) == (if a <= c < a + 8 then Part(v, w, c - a) else d.At(c));
    assert b <= c < b + 8 ==> d'.At(c) == Part(d'.At(b).value, u, c - b);
    assert d'.At(b) == d.At(b);
    forall x | b <= x < b + 8 ensures d.At(x) == Part(d.At(b).value, u, x - b) {
      assert d'.At(x) == Part(d'.At(b).value, u, x - b);
    }
  }

  /** Words clear of the bytes that changed stay whole. */
  lemma WordStays(d: Bytes, d': Bytes, lo: int, hi: int, b: int, u: Role)
    requires SameOutside(d, d', lo, hi) && IsWord(d, b, u) && (b + 8 <= lo || hi <= b)
    ensures IsWord(d', b, u) && d'.At(b).value == d.At(b).value
  {
    assert d'.At(b) == d.At(b);
  }

  lemma WordStaysAt(d: Bytes, d': Bytes, b: int, u: Role)
    requires IsWord(d, b, u) && forall a {:trigger d'.At(a)} | b <= a < b + 8 :: d'.At(a) == d.At(a)
    ensures IsWord(d', b, u)
  {
    assert d'.At(b) == d.At(b);
  }

  /** Bytes outside `[lo, hi)` are as they were. */
  ghost predicate SameOutside(d: Bytes, d': Bytes, lo: int, hi: int) {
    forall a {:trigger d'.At(a)} :: !(lo <= a < hi) ==> d'.At(a) == d.At(a)
  }

  /** The tag words of the chunk at `a` are still whole if they were. */
  ghost predicate KeepsTag(d: Bytes, d': Bytes, a: int) {
    (HasWord(d, a, HeadW) ==> HasWord(d', a, HeadW)) && (HasWord(d, a, FootW) ==> HasWord(d', a, FootW))
  }

  /** Only the head of `lo` and the heads and feet at `mid` and `hi` have been written. */
  ghost predicate TagBytes(d: Bytes, d': Bytes, lo: int, mid: int, hi: int) {
    && (forall a {:trigger d'.At(a)} ::
          !(lo + 8 <= a < lo + 16) && !(mid <= a < mid + 16) && !(hi <= a < hi + 16) ==> d'.At(a) == d.At(a))
    && KeepsTag(d, d', lo) && KeepsTag(d, d', mid) && KeepsTag(d, d', hi)
  }

  /** Only the head words of `p` and `q` have been written. */
  ghost predicate HeadBytes(d: Bytes, d': Bytes, p: int, q: int) {
    && (forall a {:trigger d'.At(a)} :: !(p + 8 <= a < p + 16) && !(q + 8 <= a < q + 16) ==> d'.At(a) == d.At(a))
    && KeepsTag(d, d', p) && KeepsTag(d, d', q)
  }

  /** Words of memory give back what was written through their fields. */
  ghost predicate CoherentAt(d: Bytes, x: int, w: Role, v: int) {
    HasWord(d, x, w) ==> WordOf(d, x, w) == v
  }

  /** The fields together. */
  datatype Fields = Fields(head: Heads, foot: Field, fd: Field, bk: Field, left: Field, right: Field, parent: Field,
                           index: Field) {
    function Of(x: int, w: Role): int {
      match w
      case HeadW => head.At(x).Word() case FootW => foot.At(x) case FdW => fd.At(x) case BkW => bk.At(x)
      case LeftW => left.At(x) case RightW => right.At(x) case ParentW => parent.At(x) case IndexW => index.At(x)
      case RecordW => 0
    }
  }

  /** Every whole word of memory holds what the map of its field says. */
  ghost predicate CoherentWith(d: Bytes, f: Fields) {
    forall x, w {:trigger CoherentAt(d, x, w, f.Of(x, w))} | w != RecordW :: CoherentAt(d, x, w, f.Of(x, w))
  }

  /** A field written, in its map and in the bytes. */
  lemma FieldWritten(d: Bytes, f: Fields, f': Fields, y: int, u: Role, v: int)
    requires CoherentWith(d, f) && (u != RecordW ==> f'.Of(y, u) == v)
    requires forall x, w {:trigger f'.Of(x, w)} | (x != y || w != u) && w != RecordW :: f'.Of(x, w) == f.Of(x, w)
    ensures CoherentWith(d.SetWord(y + OffsetOf(u), u, v), f') && HasWord(d.SetWord(y + OffsetOf(u), u, v), y, u)
  {
    hide Fields.Of, IsWord, Bytes.SetWord;
    WordWritten(d, y + OffsetOf(u), u, v);
    forall x, w | w != RecordW ensures CoherentAt(d.SetWord(y + OffsetOf(u), u, v), x, w, f'.Of(x, w)) {
      assert CoherentAt(d, x, w, f.Of(x, w));
      if (x != y || w != u) && HasWord(d.SetWord(y + OffsetOf(u), u, v), x, w) {
        SamePlace(x, w, y, u);
        WordWas(d, y + OffsetOf(u), u, v, x + OffsetOf(w), w);
      }
    }
  }

  lemma SamePlace(x: int, w: Role, y: int, u: Role)
    requires x != y || w != u
    ensures x + OffsetOf(w) != y + OffsetOf(u) || w != u
  {
  }

  /** Bytes changed without making a new word. */
  lemma BytesChanged(d: Bytes, d': Bytes, f: Fields)
    requires CoherentWith(d, f)
    requires forall b, u {:trigger IsWord(d', b, u)} | IsWord(d', b, u) ::
             IsWord(d, b, u) && d'.At(b).value == d.At(b).value
    ensures CoherentWith(d', f)
  {
    forall x, w | w != RecordW ensures CoherentAt(d', x, w, f.Of(x, w)) {
      assert CoherentAt(d, x, w, f.Of(x, w));
      assert HasWord(d', x, w) ==> IsWord(d', x + OffsetOf(w), w);
    }
  }

  /** A byte written by a caller spoils words, and makes none. */
  lemma UserByte(d: Bytes, a: int, v: int, b: int, u: Role)
    ensures IsWord(d, b, u) && !(b <= a < b + 8) ==> IsWord(d.Set(a, User(v)), b, u)
    ensures IsWord(d.Set(a, User(v)), b, u) ==>
              IsWord(d, b, u) && d.Set(a, User(v)).At(b).value == d.At(b).value && !(b <= a < b + 8)
  {
    var d' := d.Set(a, User(v));
    assert d'.At(a) == User(v);
    assert !(b <= a < b + 8) ==> d'.At(b) == d.At(b);
    assert IsWord(d', b, u) && b <= a < b + 8 ==> d'.At(a).Part?;
    assert !(b <= a < b + 8) ==> forall x {:trigger d.At(x)} | b <= x < b + 8 :: d'.At(x) == d.At(x);
  }

  /** A head or a foot written spoils no tag of a chunk at least 16 bytes away. */
  lemma TagSet(d: Bytes, p: int, w: Role, v: int, q: int)
    requires (w == HeadW || w == FootW) && (p == q || p + 16 <= q || q + 16 <= p)
    ensures KeepsTag(d, d.SetWord(p + OffsetOf(w), w, v), q) && HasWord(d.SetWord(p + OffsetOf(w), w, v), p, w)
  {
    hide IsWord, Bytes.SetWord;
    WordWritten(d, p + OffsetOf(w), w, v);
    TagWordSet(d, p, w, v, q, HeadW);
    TagWordSet(d, p, w, v, q, FootW);
  }

  lemma TagWordSet(d: Bytes, p: int, w: Role, v: int, q: int, u: Role)
    requires (w == HeadW || w == FootW) && (u == HeadW || u == FootW) && (p == q || p + 16 <= q || q + 16 <= p)
    ensures HasWord(d, q, u) ==> HasWord(d.SetWord(p + OffsetOf(w), w, v), q, u)
  {
    hide IsWord, Bytes.SetWord;
    if p == q && u == w {
      WordWritten(d, p + OffsetOf(w), w, v);
    } else if HasWord(d, q, u) {
      WordKept(d, p + OffsetOf(w), w, v, q + OffsetOf(u), u);
    }
  }

  /** Two head words written. */
  lemma TwoHeads(d: Bytes, p: int, v: int, q: int, u: int)
    requires p + 16 <= q || q + 16 <= p
    ensures var d' := d.SetWord(p + 8, HeadW, v).SetWord(q + 8, HeadW, u);
            HeadBytes(d, d', p, q) && HasWord(d', p, HeadW) && HasWord(d', q, HeadW)
  {
    hide HasWord, IsWord, Bytes.SetWord, Bytes.SetPart, Bytes.Set;
    var d1 := d.SetWord(p + 8, HeadW, v);
    var d2 := d1.SetWord(q + 8, HeadW, u);
    TagSet(d, p, HeadW, v, p);
    TagSet(d, p, HeadW, v, q);
    TagSet(d1, q, HeadW, u, p);
    TagSet(d1, q, HeadW, u, q);
    assert forall a {:trigger d2.At(a)} ::
           !(p + 8 <= a < p + 16) && !(q + 8 <= a < q + 16) ==> d2.At(a) == d1.At(a) == d.At(a);
  }

  /** Two words of tags written at most: what that is worth where a stretch ends at `hi`. */
  lemma HeadsAreTags(d: Bytes, d': Bytes, p: int, q: int)
    requires HeadBytes(d, d', p, q)
    ensures TagBytes(d, d', p, q, q)
  {
  }

  /** Only the head of `p` and the foot behind it have been written. */
  ghost predicate FreeBytes(d: Bytes, d': Bytes, p: int, s: nat) {
    forall a {:trigger d'.At(a)} :: !(p + 8 <= a < p + 16) && !(p + s <= a < p + s + 8) ==> d'.At(a) == d.At(a)
  }

  lemma FreeTags(d: Bytes, p: int, v: int, u: int, s: nat)
    requires s >= 16
    ensures var d' := d.SetWord(p + 8, HeadW, v).SetWord(p + s, FootW, u);
            TagBytes(d, d', p, p + s, p + s) && FreeBytes(d, d', p, s) && HasWord(d', p, HeadW)
            && HasWord(d', p + s, FootW)
  {
    hide HasWord, IsWord, Bytes.SetWord, Bytes.SetPart, Bytes.Set;
    var d1 := d.SetWord(p + 8, HeadW, v);
    var d2 := d1.SetWord(p + s, FootW, u);
    TagSet(d, p, HeadW, v, p);
    TagSet(d, p, HeadW, v, p + s);
    TagSet(d1, p + s, FootW, u, p);
    TagSet(d1, p + s, FootW, u, p + s);
    assert forall a {:trigger d2.At(a)} ::
           !(p + 8 <= a < p + 16) && !(p + s <= a < p + s + 8) ==> d2.At(a) == d1.At(a) == d.At(a);
  }

  lemma FreeTagsToo(d: Bytes, p: int, v: int, n: int, u: int, s: nat)
    requires s >= 16
    ensures var d' := d.SetWord(p + s + 8, HeadW, n).SetWord(p + 8, HeadW, v).SetWord(p + s, FootW, u);
            TagBytes(d, d', p, p + s, p + s) && HasWord(d', p, HeadW) && HasWord(d', p + s, HeadW)
            && HasWord(d', p + s, FootW)
  {
    hide HasWord, IsWord, Bytes.SetWord, Bytes.SetPart, Bytes.Set;
    var d0 := d.SetWord(p + s + 8, HeadW, n);
    TagSet(d, p + s, HeadW, n, p);
    TagSet(d, p + s, HeadW, n, p + s);
    FreeTags(d0, p, v, u, s);
    var d2 := d0.SetWord(p + 8, HeadW, v).SetWord(p + s, FootW, u);
    assert forall a {:trigger d2.At(a)} ::
           !(p + 8 <= a < p + 16) && !(p + s <= a < p + s + 16) ==> d2.At(a) == d0.At(a) == d.At(a);
  }

  /** Three chunks far enough apart for their tags. */
  ghost predicate InRow(a: int, b: int, c: int) {
    a + 16 <= b && (b + 16 <= c || b == c)
  }

  /** Tags none of whose bytes has changed. */
  lemma TagUntouched(d: Bytes, d': Bytes, x: int)
    requires forall a {:trigger d'.At(a)} | x <= a < x + 16 :: d'.At(a) == d.At(a)
    ensures KeepsTag(d, d', x)
  {
    if HasWord(d, x, HeadW) {
      WordStaysAt(d, d', x + 8, HeadW);
    }
    if HasWord(d, x, FootW) {
      WordStaysAt(d, d', x, FootW);
    }
  }

  lemma HeadsInRow(d: Bytes, d': Bytes, p: int, q: int, a: int, b: int, c: int)
    requires HeadBytes(d, d', p, q) && InRow(a, b, c) && (p == a || p == b || p == c) && (q == a || q == b || q == c)
    ensures TagBytes(d, d', a, b, c)
  {
    hide HasWord;
    if a != p && a != q { TagUntouched(d, d', a); }
    if b != p && b != q { TagUntouched(d, d', b); }
    if c != p && c != q { TagUntouched(d, d', c); }
  }

  lemma FreeInRow(d: Bytes, d': Bytes, a: int, p: int, n: int)
    requires TagBytes(d, d', p, n, n) && a + 16 <= p && p + 16 <= n
    ensures TagBytes(d, d', a, p, n)
  {
    hide HasWord;
    TagUntouched(d, d', a);
  }

  lemma TagBytesTrans(d0: Bytes, d1: Bytes, d2: Bytes, a: int, b: int, c: int)
    requires TagBytes(d0, d1, a, b, c) && TagBytes(d1, d2, a, b, c)
    ensures TagBytes(d0, d2, a, b, c)
    ensures forall x {:trigger HasWord(d2, x, HeadW)} | x == a || x == b || x == c ::
            HasWord(d1, x, HeadW) ==> HasWord(d2, x, HeadW)
    ensures forall x {:trigger HasWord(d2, x, FootW)} | x == a || x == b || x == c ::
            HasWord(d1, x, FootW) ==> HasWord(d2, x, FootW)
  {
    hide HasWord;
  }

  /** One head word written. */
  lemma OneHead(d: Bytes, p: int, v: int)
    ensures HeadBytes(d, d.SetWord(p + 8, HeadW, v), p, p) && HasWord(d.SetWord(p + 8, HeadW, v), p, HeadW)
  {
    TagSet(d, p, HeadW, v, p);
    hide HasWord;
  }

  lemma OneHeadOutside(d: Bytes, p: int, v: int)
    ensures SameOutside(d, d.SetWord(p + 8, HeadW, v), p + 8, p + 16) && HasWord(d.SetWord(p + 8, HeadW, v), p, HeadW)
  {
    WordWritten(d, p + 8, HeadW, v);
  }

  lemma HeadBytesTrans(d0: Bytes, d1: Bytes, d2: Bytes, p: int, q: int)
    requires HeadBytes(d0, d1, p, q) && HeadBytes(d1, d2, q, q) && p + 16 <= q
    ensures HeadBytes(d0, d2, p, q) && (HasWord(d1, p, HeadW) ==> HasWord(d2, p, HeadW))
  {
    hide HasWord;
    TagUntouched(d1, d2, p);
  }

  /** All these bytes are 0. */
  ghost predicate AllZero(d: Bytes, lo: int, hi: int) {
    forall a {:trigger d.At(a)} | lo <= a < hi :: d.At(a) == User(0)
  }

  /** The tags of a mapped chunk have been written, and nothing else. */
  ghost predicate MappedTags(d: Bytes, d': Bytes, p: int, e: int) {
    && HasWord(d', p, HeadW) && HasWord(d', p, FootW) && HasWord(d', e, HeadW) && HasWord(d', e + 8, HeadW)
    && forall a {:trigger d'.At(a)} :: !(p <= a < p + 16) && !(e + 8 <= a < e + 24) ==> d'.At(a) == d.At(a)
  }

  lemma MappedBoth(d: Bytes, d1: Bytes, d': Bytes, p: int, e: int)
    requires SameOutside(d, d1, p, p + 16) && SameOutside(d1, d', e + 8, e + 24)
    requires HasWord(d', p, HeadW) && HasWord(d', p, FootW) && HasWord(d', e, HeadW) && HasWord(d', e + 8, HeadW)
    ensures MappedTags(d, d', p, e)
  {
    hide HasWord;
    assert forall a {:trigger d'.At(a)} ::
           !(p <= a < p + 16) && !(e + 8 <= a < e + 24) ==> d'.At(a) == d1.At(a) == d.At(a);
  }

  /** The two heads at the end of a mapped region. */
  lemma MappedEnd(d: Bytes, p: int, e: int, v: int, u: int)
    requires HasWord(d, p, HeadW) && HasWord(d, p, FootW) && p + 16 <= e
    ensures var d' := d.SetWord(e + 8, HeadW, v).SetWord(e + 16, HeadW, u);
            && HasWord(d', p, HeadW) && HasWord(d', p, FootW) && HasWord(d', e, HeadW) && HasWord(d', e + 8, HeadW)
            && SameOutside(d, d', e + 8, e + 24)
  {
    TwoWordsOutside(d, e, v, u);
    hide IsWord, Bytes.SetWord, SameOutside;
    var d1 := d.SetWord(e + 8, HeadW, v);
    WordWritten(d, e + 8, HeadW, v);
    WordKept(d, e + 8, HeadW, v, p + 8, HeadW);
    WordKept(d, e + 8, HeadW, v, p, FootW);
    WordWritten(d1, e + 16, HeadW, u);
    WordKept(d1, e + 16, HeadW, u, p + 8, HeadW);
    WordKept(d1, e + 16, HeadW, u, p, FootW);
    WordKept(d1, e + 16, HeadW, u, e + 8, HeadW);
  }

  lemma TwoWordsOutside(d: Bytes, e: int, v: int, u: int)
    ensures SameOutside(d, d.SetWord(e + 8, HeadW, v).SetWord(e + 16, HeadW, u), e + 8, e + 24)
  {
    var d1 := d.SetWord(e + 8, HeadW, v);
    assert forall a {:trigger d1.At(a)} | !(e + 8 <= a < e + 24) :: d1.At(a) == d.At(a);
  }

  lemma NextFencepost(d: Bytes, from: int, p: int, v: int)
    requires HasWord(d, from, HeadW) && from + 8 <= p
    ensures HasWord(d.SetWord(p + 8, HeadW, v), from, HeadW)
  {
    WordKept(d, p + 8, HeadW, v, from + 8, HeadW);
  }

  lemma UserNumber(v: int)
    ensures User(v).Number() == v
  {
  }

  class Memory {
    var head: Heads
    var foot: Field
    var fd: Field
    var bk: Field
    var left: Field
    var right: Field
    var parent: Field
    var index: Field
    var data: Bytes

    ghost predicate Coherent()
      reads this
    {
      CoherentWith(data, Fields(head, foot, fd, bk, left, right, parent, index))
    }

    /** Memory in which nothing has been written through a field yet. */
    constructor (heads: Heads, words: Field, bytes: Bytes)
      requires forall a {:trigger bytes.At(a)} :: bytes.At(a).User?
      ensures Coherent()
    {
      head, foot, fd, bk := heads, words, words, words;
      left, right, parent, index, data := words, words, words, words, bytes;
      new;
      forall x, w: Role ensures !HasWord(data, x, w) {
        assert data.At(x + OffsetOf(w)).User?;
      }
    }

    // ----- single fields

    method SetHead(p: int, h: Head)
      requires Coherent()
      modifies this`head, this`data
      ensures Coherent() && head == old(head).Set(p, h) && data == old(data).SetWord(p + 8, HeadW, h.Word())
    {
      hide CoherentWith, Heads.Set, Bytes.SetWord;
      ghost var f, d := Fields(head, foot, fd, bk, left, right, parent, index), data;
      head, data := head.Set(p, h), data.SetWord(p + 8, HeadW, h.Word());
      FieldWritten(d, f, Fields(head, foot, fd, bk, left, right, parent, index), p, HeadW, h.Word());
    }

    method SetFoot(p: int, v: nat)
      requires Coherent()
      modifies this`foot, this`data
      ensures Coherent() && foot == old(foot).Set(p, v) && data == old(data).SetWord(p, FootW, v)
    {
      hide CoherentWith, Field.Set, Bytes.SetWord;
      ghost var f, d := Fields(head, foot, fd, bk, left, right, parent, index), data;
      foot, data := foot.Set(p, v), data.SetWord(p, FootW, v);
      FieldWritten(d, f, Fields(head, foot, fd, bk, left, right, parent, index), p, FootW, v);
    }

    method SetFd(p: int, v: int)
      requires Coherent()
      modifies this`fd, this`data
      ensures Coherent() && fd == old(fd).Set(p, v) && data == old(data).SetWord(p + 16, FdW, v)
    {
      hide CoherentWith, Field.Set, Bytes.SetWord;
      ghost var f, d := Fields(head, foot, fd, bk, left, right, parent, index), data;
      fd, data := fd.Set(p, v), data.SetWord(p + 16, FdW, v);
      FieldWritten(d, f, Fields(head, foot, fd, bk, left, right, parent, index), p, FdW, v);
    }

    method SetBk(p: int, v: int)
      requires Coherent()
      modifies this`bk, this`data
      ensures Coherent() && bk == old(bk).Set(p, v) && data == old(data).SetWord(p + 24, BkW, v)
    {
      hide CoherentWith, Field.Set, Bytes.SetWord;
      ghost var f, d := Fields(head, foot, fd, bk, left, right, parent, index), data;
      bk, data := bk.Set(p, v), data.SetWord(p + 24, BkW, v);
      FieldWritten(d, f, Fields(head, foot, fd, bk, left, right, parent, index), p, BkW, v);
    }

    /** `_child[0]` is `left`, `_child[1]` is `right`. */
    method SetChild(p: int, side: nat, v: int)
      requires Coherent() && side <= 1
      modifies this`left, this`right, this`data
      ensures Coherent() && left == (if side == 0 then old(left).Set(p, v) else old(left))
      ensures right == if side == 1 then old(right).Set(p, v) else old(right)
      ensures data == old(data).SetWord(p + OffsetOf(ChildRole(side)), ChildRole(side), v)
    {
      hide CoherentWith, Field.Set, Bytes.SetWord;
      ghost var f, d := Fields(head, foot, fd, bk, left, right, parent, index), data;
      if side == 0 {
        left, data := left.Set(p, v), data.SetWord(p + 32, LeftW, v);
        FieldWritten(d, f, Fields(head, foot, fd, bk, left, right, parent, index), p, LeftW, v);
      } else {
        right, data := right.Set(p, v), data.SetWord(p + 40, RightW, v);
        FieldWritten(d, f, Fields(head, foot, fd, bk, left, right, parent, index), p, RightW, v);
      }
    }

    method SetParent(p: int, v: int)
      requires Coherent()
      modifies this`parent, this`data
      ensures Coherent() && parent == old(parent).Set(p, v) && data == old(data).SetWord(p + 48, ParentW, v)
    {
      hide CoherentWith, Field.Set, Bytes.SetWord;
      ghost var f, d := Fields(head, foot, fd, bk, left, right, parent, index), data;
      parent, data := parent.Set(p, v), data.SetWord(p + 48, ParentW, v);
      FieldWritten(d, f, Fields(head, foot, fd, bk, left, right, parent, index), p, ParentW, v);
    }

    method SetIndex(p: int, v: nat)
      requires Coherent()
      modifies this`index, this`data
      ensures Coherent() && index == old(index).Set(p, v) && data == old(data).SetWord(p + 56, IndexW, v)
    {
      hide CoherentWith, Field.Set, Bytes.SetWord;
      ghost var f, d := Fields(head, foot, fd, bk, left, right, parent, index), data;
      index, data := index.Set(p, v), data.SetWord(p + 56, IndexW, v);
      FieldWritten(d, f, Fields(head, foot, fd, bk, left, right, parent, index), p, IndexW, v);
    }

    /** A word of a segment record. */
    method SetRecord(a: int, v: int)
      requires Coherent()
      modifies this`data
      ensures Coherent() && data == old(data).SetWord(a, RecordW, v)
    {
      hide CoherentWith, Bytes.SetWord;
      ghost var f := Fields(head, foot, fd, bk, left, right, parent, index);
      FieldWritten(data, f, f, a - 16, RecordW, v);
      data := data.SetWord(a, RecordW, v);
    }

    /** A caller writes a byte. */
    method StoreByte(a: int, v: int)
      requires Coherent()
      modifies this`data
      ensures Coherent() && data == old(data).Set(a, User(v))
    {
      hide CoherentWith;
      forall b, u | IsWord(data.Set(a, User(v)), b, u)
        ensures IsWord(data, b, u) && data.Set(a, User(v)).At(b).value == data.At(b).value
      {
        UserByte(data, a, v, b, u);
      }
      BytesChanged(data, data.Set(a, User(v)), Fields(head, foot, fd, bk, left, right, parent, index));
      data := data.Set(a, User(v));
    }

    // ----- tags

    /** `set_inuse_and_pinuse`. */
    method SetInuseAndPinuse(p: int, s: nat)
      requires Coherent() && s >= 16
      modifies this`head, this`data
      ensures Coherent()
      ensures head == old(head).Set(p, Head(s, true, true)).Set(p + s,
                                                                Head(old(head.At(p + s).size), true,
                                                                     old(head.At(p + s).cinuse)))
      ensures HeadBytes(old(data), data, p, p + s) && HasWord(data, p, HeadW) && HasWord(data, p + s, HeadW)
    {
      hide CoherentWith, HeadBytes, HasWord, Heads.Set, Field.Set, Bytes.SetWord, Head.Word, Heads.At;
      SetHead(p, Head(s, true, true));
      var h := head.At(p + s);
      TwoHeads(old(data), p, Head(s, true, true).Word(), p + s, Head(h.size, true, h.cinuse).Word());
      SetHead(p + s, Head(h.size, true, h.cinuse));
    }

    /** `set_inuse`: the PINUSE bit of `p` stays as it is. */
    method SetInuse(p: int, s: nat)
      requires Coherent() && s >= 16
      modifies this`head, this`data
      ensures Coherent()
      ensures head == old(head).Set(p, Head(s, old(head.At(p).pinuse), true)).Set(p + s,
              Head(old(head.At(p + s).size), true, old(head.At(p + s).cinuse)))
      ensures HeadBytes(old(data), data, p, p + s) && HasWord(data, p, HeadW) && HasWord(data, p + s, HeadW)
    {
      hide CoherentWith, HeadBytes, HasWord, Heads.Set, Field.Set, Bytes.SetWord, Head.Word, Heads.At;
      var h0 := Head(s, head.At(p).pinuse, true);
      SetHead(p, h0);
      var h := head.At(p + s);
      TwoHeads(old(data), p, h0.Word(), p + s, Head(h.size, true, h.cinuse).Word());
      SetHead(p + s, Head(h.size, true, h.cinuse));
    }

    /** `set_size_and_pinuse_of_free_chunk`. */
    method SetFree(p: int, s: nat)
      requires Coherent() && s >= 16
      modifies this`head, this`foot, this`data
      ensures Coherent() && head == old(head).Set(p, Head(s, true, false)) && foot == old(foot).Set(p + s, s)
      ensures TagBytes(old(data), data, p, p + s, p + s) && HasWord(data, p, HeadW) && HasWord(data, p + s, FootW)
      ensures FreeBytes(old(data), data, p, s)
    {
      hide CoherentWith, TagBytes, HasWord, FreeBytes, Heads.Set, Field.Set, Bytes.SetWord, Head.Word, Heads.At;
      FreeTags(data, p, Head(s, true, false).Word(), s, s);
      SetHead(p, Head(s, true, false));
      SetFoot(p + s, s);
    }

    /** `set_free_with_pinuse`: also clears the PINUSE bit of the next chunk. */
    method SetFreeWithPinuse(p: int, s: nat)
      requires Coherent() && s >= 16
      modifies this`head, this`foot, this`data
      ensures Coherent()
      ensures head == old(head).Set(p + s, Head(old(head.At(p + s).size), false, old(head.At(p + s).cinuse))).Set(p,
              Head(s, true, false))
      ensures foot == old(foot).Set(p + s, s)
      ensures TagBytes(old(data), data, p, p + s, p + s) && HasWord(data, p, HeadW) && HasWord(data, p + s, HeadW)
              && HasWord(data, p + s, FootW)
    {
      hide CoherentWith, TagBytes, HasWord, Heads.Set, Field.Set, Bytes.SetWord, Head.Word, Heads.At;
      var h := head.At(p + s);
      FreeTagsToo(data, p, Head(s, true, false).Word(), Head(h.size, false, h.cinuse).Word(), s, s);
      SetHead(p + s, Head(h.size, false, h.cinuse));
      SetHead(p, Head(s, true, false));
      SetFoot(p + s, s);
    }

    /** The tags of a mapped chunk at `p`, `offset` bytes into its region. */
    method SetMapped(p: int, offset: nat, size: nat)
      requires Coherent()
      modifies this`head, this`foot, this`data
      ensures Coherent() && head == old(head).Set(p, Head(size, false, false)) && foot == old(foot).Set(p, offset)
      ensures SameOutside(old(data), data, p, p + 16) && HasWord(data, p, HeadW) && HasWord(data, p, FootW)
    {
      hide CoherentWith, HasWord;
      TagSet(data, p, FootW, offset, p);
      TagSet(data.SetWord(p, FootW, offset), p, HeadW, Head(size, false, false).Word(), p);
      SetFoot(p, offset);
      SetHead(p, Head(size, false, false));
    }

    /** All tags of a mapped chunk: those at `p`, and a fencepost and a zero head behind its `size` bytes. */
    method SetMappedEnds(p: int, offset: nat, size: nat)
      requires Coherent() && size >= 16
      modifies this`head, this`foot, this`data
      ensures Coherent() && foot == old(foot).Set(p, offset)
      ensures head == old(head).Set(p, Head(size, false, false)).Set(p + size, Head(8, true, true)).Set(p + size + 8,
              Head(0, false, false))
      ensures MappedTags(old(data), data, p, p + size)
    {
      hide CoherentWith, HasWord, Heads.Set, Field.Set, Bytes.SetWord, Head.Word, SameOutside;
      SetMapped(p, offset, size);
      ghost var d1 := data;
      MappedEnd(d1, p, p + size, Head(8, true, true).Word(), Head(0, false, false).Word());
      SetHead(p + size, Head(8, true, true));
      SetHead(p + size + 8, Head(0, false, false));
      MappedBoth(old(data), d1, data, p, p + size);
    }

    /** The fenceposts of `add_segment`: head words of size 8, eight bytes apart, up to `end`. */
    method WriteFenceposts(from: int, end: int) returns (n: nat)
      requires Coherent() && from + 32 <= end && from % 16 == 0 && end % 16 == 0
      modifies this`head, this`data
      ensures Coherent() && head.At(from) == Head(8, true, true) && HasWord(data, from, HeadW)
      ensures SameOutside(old(data), data, from, end) && n >= 2
      ensures forall a {:trigger head.At(a)} | !(from <= a < end) :: head.At(a) == old(head).At(a)
    {
      hide CoherentWith, HasWord;
      var p := from;
      ghost var words := (end - from) / 8;
      assert end == from + 8 * words;
      TagSet(data, p, HeadW, Head(8, true, true).Word(), p);
      SetHead(p, Head(8, true, true));
      n := 1;
      while p + 16 < end
        invariant Coherent() && p == from + 8 * (n - 1) && 1 <= n && n + 1 <= words
        invariant head.At(from) == Head(8, true, true) && HasWord(data, from, HeadW)
                  && SameOutside(old(data), data, from, end)
        invariant forall a {:trigger head.At(a)} | !(from <= a < end) :: head.At(a) == old(head).At(a)
      {
        p := p + 8;
        NextFencepost(data, from, p, Head(8, true, true).Word());
        SetHead(p, Head(8, true, true));
        n := n + 1;
      }
    }

    /** The tags of a free chunk whose first `nb` of `s` bytes are handed out. */
    method SetFrontInuse(p: int, nb: nat, s: nat)
      requires Coherent() && nb >= 16 && nb + 16 <= s
      modifies this`head, this`foot, this`data
      ensures Coherent() && foot == old(foot).Set(p + s, s - nb)
      ensures head == old(head).Set(p, Head(nb, true, true)).Set(p + nb, Head(s - nb, true, false))
      ensures TagBytes(old(data), data, p, p + nb, p + s)
      ensures HasWord(data, p, HeadW) && HasWord(data, p + nb, HeadW) && HasWord(data, p + s, FootW)
    {
      hide CoherentWith, HeadBytes, TagBytes, HasWord, Heads.Set, Field.Set, Bytes.SetWord, Head.Word, Heads.At,
           FreeBytes;
      OneHead(data, p, Head(nb, true, true).Word());
      SetHead(p, Head(nb, true, true));
      ghost var d1 := data;
      HeadsInRow(old(data), d1, p, p, p, p + nb, p + s);
      SetFree(p + nb, s - nb);
      FreeInRow(d1, data, p, p + nb, p + s);
      TagBytesTrans(old(data), d1, data, p, p + nb, p + s);
    }

    /** The tags of a `top` of `s` bytes whose first `nb` are handed out. */
    method SetTopFront(p: int, nb: nat, s: nat)
      requires Coherent() && nb >= 16 && nb + 16 <= s
      modifies this`head, this`data
      ensures Coherent() && head == old(head).Set(p + nb, Head(s - nb, true, false)).Set(p, Head(nb, true, true))
      ensures TagBytes(old(data), data, p, p + nb, p + s) && HasWord(data, p, HeadW) && HasWord(data, p + nb, HeadW)
    {
      hide CoherentWith, HeadBytes, TagBytes, HasWord, Heads.Set, Bytes.SetWord, Head.Word, Heads.At;
      TwoHeads(data, p + nb, Head(s - nb, true, false).Word(), p, Head(nb, true, true).Word());
      SetHead(p + nb, Head(s - nb, true, false));
      SetHead(p, Head(nb, true, true));
      HeadsInRow(old(data), data, p + nb, p, p, p + nb, p + s);
    }

    /** Two heads. */
    method SetHeads(p: int, h: Head, q: int, k: Head)
      requires Coherent() && p + 16 <= q
      modifies this`head, this`data
      ensures Coherent() && head == old(head).Set(p, h).Set(q, k)
      ensures HeadBytes(old(data), data, p, q) && HasWord(data, p, HeadW) && HasWord(data, q, HeadW)
    {
      hide CoherentWith, HeadBytes, HasWord, Heads.Set, Bytes.SetWord, Head.Word, Heads.At;
      TwoHeads(data, p, h.Word(), q, k.Word());
      SetHead(p, h);
      SetHead(q, k);
    }

    // ----- bytes

    /** `memcpy` of bytes that do not overlap. */
    method Copy(dst: int, src: int, n: nat)
      requires Coherent() && (dst + n <= src || src + n <= dst)
      modifies this`data
      ensures Coherent() && SameOutside(old(data), data, dst, dst + n)
      ensures forall a {:trigger data.At(a)} | dst <= a < dst + n ::
              data.At(a).Number() == old(data).At(a - dst + src).Number()
    {
      hide CoherentWith, Cell.Number;
      for i := 0 to n
        invariant Coherent() && SameOutside(old(data), data, dst, dst + n)
        invariant forall a {:trigger data.At(a)} | dst <= a < dst + i ::
                  data.At(a).Number() == old(data).At(a - dst + src).Number()
      {
        UserNumber(data.At(src + i).Number());
        StoreByte(dst + i, data.At(src + i).Number());
      }
    }

    /** `memset` to 0, and what the system does to the memory it grants. */
    method Clear(at: int, n: nat)
      requires Coherent()
      modifies this`data
      ensures Coherent() && SameOutside(old(data), data, at, at + n)
      ensures forall a {:trigger data.At(a)} | at <= a < at + n :: data.At(a) == User(0)
    {
      hide CoherentWith;
      for i := 0 to n
        invariant Coherent() && SameOutside(old(data), data, at, at + n)
        invariant forall a {:trigger data.At(a)} | at <= a < at + i :: data.At(a) == User(0)
      {
        StoreByte(at + i, 0);
      }
    }
  }
}
