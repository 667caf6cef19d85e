/** The encodings of numbers and tagged items in key files: BER headers (sections 8.1.2 and 8.1.3 of ITU-T X.690),
    multiple-precision integers (section 5 of RFC 4251), and those of the ssh.com format, which count bits. */
module Numbers {
  import opened Basics
  import opened Marshal
  import Sizes

  const WORD64: nat := 0x1_0000_0000_0000_0000

  // ----- digits

  /** A number without its `n` lowest digits. */
  function Shift(v: nat, base: nat, n: nat): nat
    requires base > 0
    decreases n
  {
    if n == 0 then v else Shift(v / base, base, n - 1)
  }

  /** The `n` lowest digits, the highest of them first. */
  function Digits(v: nat, base: nat, n: nat): (r: seq<nat>)
    requires base > 0
    ensures |r| == n
    ensures forall i :: 0 <= i < n ==> r[i] < base
    decreases n
  {
    if n == 0 then [] else [Shift(v, base, n - 1) % base] + Digits(v, base, n - 1)
  }

  /** The number that digits stand for, after those read already. */
  function Fold(acc: nat, s: seq<nat>, base: nat): nat
    decreases |s|
  {
    if s == [] then acc else Fold(acc * base + s[0], s[1..], base)
  }

  lemma {:induction false} ShiftOnce(v: nat, base: nat, n: nat)
    requires base > 0
    ensures Shift(v, base, n + 1) == Shift(v, base, n) / base
    decreases n
  {
    if n > 0 { ShiftOnce(v / base, base, n - 1); }
  }

  lemma OneDigit(v: nat, base: nat)
    requires base > 0
    ensures v / base * base + v % base == v
  {
  }

  /** Digits, folded after the part above them, give the number back. */
  lemma {:induction false} FoldDigits(v: nat, base: nat, n: nat)
    requires base > 0
    ensures Fold(Shift(v, base, n), Digits(v, base, n), base) == v
    decreases n
  {
    if n == 0 {
      return;
    } else {
      var high := Shift(v, base, n - 1);
      ShiftOnce(v, base, n - 1);
      OneDigit(high, base);
      var s := Digits(v, base, n);
      assert s[0] == high % base && s[1..] == Digits(v, base, n - 1);
      FoldDigits(v, base, n - 1);
    }
  }

  /** The smallest number of digits, at least one, that hold a number. */
  function Count(v: nat, base: nat): (n: nat)
    requires base > 1
    ensures n > 0
    decreases v
  {
    if v < base then 1
    else
      Shrinks(v, base);
      1 + Count(v / base, base)
  }

  lemma Doubled(q: nat, base: nat)
    requires base > 1
    ensures 2 * q <= q * base
  {
  }

  lemma Shrinks(v: nat, base: nat)
    requires base > 1 && v > 0
    ensures v / base < v
  {
    var q := v / base;
    OneDigit(v, base);
    if q >= v { Doubled(q, base); }
  }

  lemma ZeroQuotient(v: nat, base: nat)
    requires base > 0
    ensures v / base == 0 <==> v < base
  {
  }

  /** That many digits hold all of the number, and one fewer does not. */
  lemma {:induction false} CountIsLeast(v: nat, base: nat, n: nat)
    requires base > 1 && n > 0
    ensures Shift(v, base, n) == 0 <==> Count(v, base) <= n
    decreases n
  {
    ZeroQuotient(v, base);
    if n > 1 {
      CountIsLeast(v / base, base, n - 1);
      if v < base { CountIsLeast(0, base, n - 1); }
    } else {
      assert Shift(v, base, 1) == Shift(v / base, base, 0);
    }
  }

  /** That many digits stand for the number, and the first of them is not zero unless it is the only one. */
  lemma DigitsExact(v: nat, base: nat)
    requires base > 1
    ensures var s := Digits(v, base, Count(v, base)); Fold(0, s, base) == v && (s[0] == 0 ==> v < base)
  {
    var n := Count(v, base);
    FoldDigits(v, base, n);
    CountIsLeast(v, base, n);
    if n > 1 {
      CountIsLeast(v, base, n - 1);
      ShiftOnce(v, base, n - 1);
      ZeroQuotient(Shift(v, base, n - 1), base);
      SmallMod(Shift(v, base, n - 1), base);
    }
  }

  // ----- BER headers

  /** All digits but the last carry the top bit. */
  function Chained(s: seq<nat>): (r: Bytes)
    requires forall i :: 0 <= i < |s| ==> s[i] < 0x80
    ensures |r| == |s|
  {
    if s == [] then [] else [if |s| > 1 then 0x80 + s[0] else s[0]] + Chained(s[1..])
  }

  function IdBytes(id: nat, flags: Byte): Bytes
    requires IsFlags(flags)
  {
    if id <= 30 then [id + flags] else [0x1F + flags] + Chained(Digits(id, 0x80, Count(id, 0x80)))
  }

  function LengthBytes(length: nat): Bytes
    requires length < 0x100_0000
  {
    if length < 0x80 then [length]
    else
      var n := Count(length, 0x100);
      AtMostThree(length);
      [0x80 + n] + Digits(length, 0x100, n)
  }

  /** The class and constructed bits of an identifier byte. */
  predicate IsFlags(flags: Byte) {
    flags % 0x20 == 0
  }

  /** One tagged item. */
  function Ber(id: nat, flags: Byte, content: Bytes): Bytes
    requires IsFlags(flags) && |content| < 0x100_0000
  {
    IdBytes(id, flags) + LengthBytes(|content|) + content
  }

  lemma AtMostThree(length: nat)
    requires length < 0x100_0000
    ensures Count(length, 0x100) <= 3
  {
    var a := length / 0x100;
    var b := a / 0x100;
    assert a < 0x1_0000 && b < 0x100;
    assert Count(b, 0x100) == 1;
    assert Count(a, 0x100) <= 2;
  }

  /** The widest shift that `put_ber_id_len` evaluates is by all the digits it counts.  Of a 32-bit `int` it is defined
      exactly for identifiers below 2^28 and lengths below 2^24. */
  lemma ShiftsDefinedIff(id: nat, length: nat)
    ensures 7 * Count(id, 0x80) < 32 <==> id < 0x1000_0000
    ensures 8 * Count(length, 0x100) < 32 <==> length < 0x100_0000
  {
    hide Count;
    CountIsLeast(id, 0x80, 4);
    CountIsLeast(length, 0x100, 3);
    FourSevenths(id);
    ThreeBytes(length);
  }

  lemma FourSevenths(v: nat)
    ensures Shift(v, 0x80, 4) == 0 <==> v < 0x1000_0000
  {
    var a := v / 0x80;
    var b := a / 0x80;
    var c := b / 0x80;
    assert Shift(b, 0x80, 2) == c / 0x80;
    assert Shift(v, 0x80, 4) == Shift(b, 0x80, 2);
  }

  lemma ThreeBytes(v: nat)
    ensures Shift(v, 0x100, 3) == 0 <==> v < 0x100_0000
  {
    var a := v / 0x100;
    var b := a / 0x100;
    assert Shift(a, 0x100, 2) == b / 0x100;
  }

  method CountDigits(v: nat, base: nat) returns (n: nat)
    requires base > 1
    ensures n == Count(v, base)
  {
    n := 1;
    CountIsLeast(v, base, 1);
    while Shift(v, base, n) > 0
      invariant 1 <= n <= Count(v, base)
      invariant Shift(v, base, n) == 0 <==> Count(v, base) <= n
      decreases Count(v, base) - n
    {
      n := n + 1;
      CountIsLeast(v, base, n);
    }
  }

  method PutId(bs: StrBuf, id: nat, flags: Byte)
    requires id < 0x1000_0000 && IsFlags(flags)
    modifies bs
    ensures bs.u == old(bs.u) + IdBytes(id, flags)
  {
    hide Count, Digits, Shift, Chained;
    if id <= 30 {
      bs.PutByte(id + flags);
      return;
    }
    bs.PutByte(0x1F + flags);
    var n := CountDigits(id, 0x80);
    PutChained(bs, id, n);
    assert bs.u == old(bs.u) + IdBytes(id, flags);
  }

  lemma ChainedStep(v: nat, n: nat)
    requires n > 0
    ensures Chained(Digits(v, 0x80, n))
         == [Shift(v, 0x80, n - 1) % 0x80 + if n > 1 then 0x80 else 0] + Chained(Digits(v, 0x80, n - 1))
  {
    var s := Digits(v, 0x80, n);
    assert s[0] == Shift(v, 0x80, n - 1) % 0x80 && s[1..] == Digits(v, 0x80, n - 1);
  }

  /** The digits of an identifier, all but the last with the top bit set. */
  method PutChained(bs: StrBuf, v: nat, count: nat)
    modifies bs
    ensures bs.u == old(bs.u) + Chained(Digits(v, 0x80, count))
  {
    hide Shift;
    var n := count;
    ghost var all := Chained(Digits(v, 0x80, count));
    while n > 0
      invariant 0 <= n <= count
      invariant bs.u == old(bs.u) + all[..count - n] && all[count - n..] == Chained(Digits(v, 0x80, n))
    {
      ChainedStep(v, n);
      ghost var i := count - n;
      n := n - 1;
      var d := Shift(v, 0x80, n) % 0x80;
      bs.PutByte(d + if n > 0 then 0x80 else 0);
      assert all[..i + 1] == all[..i] + [all[i]] && all[i + 1..] == all[i..][1..];
    }
    assert all[..count] == all;
  }

  method PutLength(bs: StrBuf, length: nat)
    requires length < 0x100_0000
    modifies bs
    ensures bs.u == old(bs.u) + LengthBytes(length)
  {
    hide Count, Digits, Shift;
    if length < 0x80 {
      bs.PutByte(length);
      return;
    }
    AtMostThree(length);
    var n := CountDigits(length, 0x100);
    bs.PutByte(0x80 + n);
    PutDigits(bs, length, n);
    assert bs.u == old(bs.u) + LengthBytes(length);
  }

  method PutDigits(bs: StrBuf, v: nat, count: nat)
    modifies bs
    ensures bs.u == old(bs.u) + Digits(v, 0x100, count)
  {
    hide Shift;
    var n := count;
    ghost var all := Digits(v, 0x100, count);
    while n > 0
      invariant 0 <= n <= count
      invariant bs.u == old(bs.u) + all[..count - n] && all[count - n..] == Digits(v, 0x100, n)
    {
      ghost var i := count - n;
      assert all[i] == all[i..][0];
      n := n - 1;
      bs.PutByte(Low(Shift(v, 0x100, n)));
      assert all[..i + 1] == all[..i] + [all[i]] && all[i + 1..] == all[i..][1..];
    }
    assert all[..count] == all;
  }

  /** `put_ber_id_len`.  Beyond these bounds the source shifts an `int` by its whole width or more, which C leaves
      undefined. */
  method PutBerIdLen(bs: StrBuf, id: nat, length: nat, flags: Byte)
    requires id < 0x1000_0000 && length < 0x100_0000 && IsFlags(flags)
    modifies bs
    ensures bs.u == old(bs.u) + IdBytes(id, flags) + LengthBytes(length)
  {
    PutId(bs, id, flags);
    PutLength(bs, length);
  }

  datatype BerItem = BerItem(id: nat, flags: Byte, data: Bytes)

  /** The rest of a long identifier; it is kept in 32 bits. */
  function TakeId(r: Reader, acc: nat): (nat, Reader)
    decreases |r.rest|
  {
    var (b, r') := TakeByte(r);
    var id := (acc * 0x80 + b % 0x80) % WORD32;
    if b >= 0x80 then TakeId(r', id) else (id, r')
  }

  /** A length of `n` bytes; it is kept in 64 bits. */
  function TakeLength(r: Reader, n: nat, acc: nat): (nat, Reader)
    decreases n
  {
    if n == 0 then (acc, r)
    else
      var (b, r') := TakeByte(r);
      TakeLength(r', n - 1, (acc * 0x100 + b) % WORD64)
  }

  function TakeBer(r: Reader): (BerItem, Reader) {
    var (lead, r1) := TakeByte(r);
    var (id, r2) := if lead % 0x20 == 0x1F then TakeId(r1, 0) else (lead % 0x20, r1);
    var (b, r3) := TakeByte(r2);
    var (length, r4) := if b >= 0x80 then TakeLength(r3, b - 0x80, 0) else (b, r3);
    var (data, r5) := Take(r4, length);
    (BerItem(id, lead - lead % 0x20, data), r5)
  }

  /** `get_ber`, on any bytes. */
  method GetBer(src: BinarySource) returns (item: BerItem)
    requires src.Valid()
    modifies src
    ensures src.Valid() && (item, src.View()) == TakeBer(old(src.View()))
  {
    hide Take, TakeByte, TakeId, TakeLength;
    var lead := src.GetByte();
    var id := lead % 0x20;
    if id == 0x1F {
      id := GetId(src);
    }
    var lenbyte := src.GetByte();
    var length: nat := lenbyte;
    if lenbyte >= 0x80 {
      length := GetLength(src, lenbyte - 0x80);
    }
    var data := src.GetData(length);
    item := BerItem(id, lead - lead % 0x20, data);
  }

  method GetId(src: BinarySource) returns (id: nat)
    requires src.Valid()
    modifies src
    ensures src.Valid() && (id, src.View()) == TakeId(old(src.View()), 0)
  {
    id := 0;
    var idbyte: Byte := 0x80;
    while idbyte >= 0x80
      invariant src.Valid()
      invariant (if idbyte >= 0x80 then TakeId(src.View(), id) else (id, src.View())) == TakeId(old(src.View()), 0)
      decreases |src.View().rest|, idbyte
    {
      idbyte := src.GetByte();
      id := (id * 0x80 + idbyte % 0x80) % WORD32;
    }
  }

  method GetLength(src: BinarySource, nbytes: nat) returns (length: nat)
    requires src.Valid()
    modifies src
    ensures src.Valid() && (length, src.View()) == TakeLength(old(src.View()), nbytes, 0)
  {
    length := 0;
    var n := nbytes;
    while n > 0
      invariant src.Valid()
      invariant TakeLength(src.View(), n, length) == TakeLength(old(src.View()), nbytes, 0)
    {
      var b := src.GetByte();
      length := (length * 0x100 + b) % WORD64;
      n := n - 1;
    }
  }

  lemma Joined(a: Bytes, b: Bytes, c: Bytes)
    ensures a + b + c == a + (b + c)
  {
  }

  lemma ByteBack(b: Byte, rest: Bytes)
    ensures TakeByte(Reader([b] + rest, false)) == (b, Reader(rest, false))
  {
    TakeFront([b], rest);
  }

  lemma ModLow(q: nat, r: nat, m: nat, base: nat, d: nat)
    requires m > 0
    ensures ((q * m + r) * base + d) % m == (r * base + d) % m
  {
    var t := r * base + d;
    assert (q * m + r) * base + d == q * base * m + t;
    ModAdds(q * base, t, m);
  }

  lemma ModAdds(k: nat, t: nat, m: nat)
    requires m > 0
    ensures (k * m + t) % m == t % m
  {
    OneDigit(t, m);
    assert k * m + t == (k + t / m) * m + t % m;
    Sizes.RemainderIs(k + t / m, t % m, m);
  }

  /** What is dropped above `m` on the way does not matter below it. */
  lemma {:induction false} FoldMod(acc: nat, s: seq<nat>, base: nat, m: nat)
    requires m > 0
    ensures Fold(acc % m, s, base) % m == Fold(acc, s, base) % m
    decreases |s|
  {
    if s == [] {
      SmallMod(acc % m, m);
    } else {
      var a, b := acc % m * base + s[0], acc * base + s[0];
      OneDigit(acc, m);
      ModLow(acc / m, acc % m, m, base, s[0]);
      FoldMod(a, s[1..], base, m);
      FoldMod(b, s[1..], base, m);
    }
  }

  /** The digits that bytes carry below their top bits. */
  function Sevens(c: Bytes): (s: seq<nat>)
    ensures |s| == |c| && forall i :: 0 <= i < |s| ==> s[i] == c[i] % 0x80
  {
    seq(|c|, i requires 0 <= i < |c| => c[i] % 0x80)
  }

  /** Every byte but the last carries the top bit. */
  predicate IsChain(c: Bytes) {
    c != [] && (forall i :: 0 <= i < |c| - 1 ==> c[i] >= 0x80) && c[|c| - 1] < 0x80
  }

  /** A long identifier is read as the number its digits stand for, modulo 2^32. */
  lemma {:induction false} IdRead(acc: nat, c: Bytes, rest: Bytes)
    requires IsChain(c)
    ensures TakeId(Reader(c + rest, false), acc) == (Fold(acc, Sevens(c), 0x80) % WORD32, Reader(rest, false))
    decreases |c|
  {
    hide Take, TakeByte;
    var s, next := Sevens(c), acc * 0x80 + c[0] % 0x80;
    assert c + rest == [c[0]] + (c[1..] + rest);
    ByteBack(c[0], c[1..] + rest);
    assert s[1..] == Sevens(c[1..]);
    if |c| > 1 {
      IdRead(next % WORD32, c[1..], rest);
      FoldMod(next, s[1..], 0x80, WORD32);
    } else {
      assert c[1..] + rest == rest && s[1..] == [];
    }
  }

  /** A length is read as the number its bytes stand for, modulo 2^64. */
  lemma {:induction false} LengthRead(acc: nat, s: Bytes, rest: Bytes)
    requires acc < WORD64
    ensures TakeLength(Reader(s + rest, false), |s|, acc) == (Fold(acc, s, 0x100) % WORD64, Reader(rest, false))
    decreases |s|
  {
    hide Take, TakeByte;
    if s == [] {
      assert s + rest == rest;
      SmallMod(acc, WORD64);
    } else {
      var next := acc * 0x100 + s[0];
      assert s + rest == [s[0]] + (s[1..] + rest);
      ByteBack(s[0], s[1..] + rest);
      LengthRead(next % WORD64, s[1..], rest);
      FoldMod(next, s[1..], 0x100, WORD64);
    }
  }

  lemma {:induction false} ChainOf(s: seq<nat>)
    requires |s| > 0 && forall i :: 0 <= i < |s| ==> s[i] < 0x80
    ensures IsChain(Chained(s)) && Sevens(Chained(s)) == s
  {
    hide Chained;
    var c := Chained(s);
    forall i | 0 <= i < |s| ensures c[i] == if i < |s| - 1 then 0x80 + s[i] else s[i] {
      ChainedAt(s, i);
    }
  }

  lemma {:induction false} ChainedAt(s: seq<nat>, i: nat)
    requires i < |s| && forall i :: 0 <= i < |s| ==> s[i] < 0x80
    ensures Chained(s)[i] == if i < |s| - 1 then 0x80 + s[i] else s[i]
    decreases i
  {
    if i > 0 { ChainedAt(s[1..], i - 1); }
  }

  ghost predicate IsIdentifier(s: Bytes, id: nat, flags: nat) {
    if id <= 30 then s == [id + flags]
    else |s| > 1 && s[0] == 0x1F + flags && IsChain(s[1..]) && s[1] != 0x80 && Fold(0, Sevens(s[1..]), 0x80) == id
  }

  ghost predicate IsLength(s: Bytes, length: nat) {
    if length < 0x80 then s == [length]
    else |s| > 1 && s[0] == 0x80 + (|s| - 1) && s[1] != 0 && Fold(0, s[1..], 0x100) == length
  }

  /** The bytes that open an item (sections 8.1.2 and 8.1.3 of ITU-T X.690): the short form of an identifier up to 30
      and of a length below 128, and otherwise the long form, with no digit more than it takes. */
  lemma HeaderMeans(id: nat, flags: Byte, length: nat)
    requires IsFlags(flags) && length < 0x100_0000
    ensures IsIdentifier(IdBytes(id, flags), id, flags) && IsLength(LengthBytes(length), length)
  {
    hide Count;
    if id > 30 { LongId(id, flags); }
    if length >= 0x80 { LongLength(length); }
  }

  lemma LongId(id: nat, flags: Byte)
    requires IsFlags(flags) && id > 30
    ensures IsIdentifier(IdBytes(id, flags), id, flags)
  {
    hide Fold, Count, Digits, Chained, IsChain, Sevens, IsFlags;
    var s := Digits(id, 0x80, Count(id, 0x80));
    DigitsExact(id, 0x80);
    ChainOf(s);
    ChainedAt(s, 0);
    FirstDigit(id, 0x80);
    var c := IdBytes(id, flags);
    assert c[1..] == Chained(s) && c[1] == Chained(s)[0];
  }

  lemma LongLength(length: nat)
    requires 0x80 <= length < 0x100_0000
    ensures IsLength(LengthBytes(length), length)
  {
    hide Fold, Digits;
    DigitsExact(length, 0x100);
    FirstDigit(length, 0x100);
    assert LengthBytes(length)[1..] == Digits(length, 0x100, Count(length, 0x100));
  }

  lemma FirstDigit(v: nat, base: nat)
    requires v > 0 && base > 1
    ensures Digits(v, base, Count(v, base))[0] != 0
  {
    hide Fold;
    DigitsExact(v, base);
    if v < base { SmallMod(v, base); }
  }

  lemma SmallMod(v: nat, m: nat)
    requires v < m
    ensures v % m == v
  {
  }

  /** Bytes that open an item with that identifier, as far as 32 bits hold it; the long form may have spare digits. */
  predicate NamesId(i: Bytes, id: nat, flags: Byte) {
    && i != [] && IsFlags(flags) && flags <= i[0] < flags + 0x20
    && if i[0] == flags + 0x1F then IsChain(i[1..]) && id == Fold(0, Sevens(i[1..]), 0x80) % WORD32
       else |i| == 1 && id == i[0] - flags
  }

  /** Bytes that say a length, as far as 64 bits hold it. */
  predicate NamesLength(l: Bytes, n: nat) {
    && l != []
    && if l[0] < 0x80 then |l| == 1 && n == l[0] else |l| == l[0] - 0x7F && n == Fold(0, l[1..], 0x100) % WORD64
  }

  /** Any item is read with its identifier, its flags and its content, and no byte after it is touched. */
  lemma BerRead(i: Bytes, l: Bytes, content: Bytes, rest: Bytes, id: nat, flags: Byte)
    requires NamesId(i, id, flags) && NamesLength(l, |content|)
    ensures TakeBer(Reader(i + l + content + rest, false)) == (BerItem(id, flags, content), Reader(rest, false))
  {
    hide Take, TakeByte, TakeId, TakeLength, IsChain, Sevens, Fold, NamesLength;
    var after := l + (content + rest);
    assert i + l + content + rest == [i[0]] + (i[1..] + after);
    ByteBack(i[0], i[1..] + after);
    LeadParts(i[0], flags);
    if i[0] == flags + 0x1F {
      IdRead(0, i[1..], after);
    } else {
      assert i[1..] + after == after;
    }
    LengthPart(l, content, rest);
  }

  lemma LeadParts(lead: Byte, flags: Byte)
    requires IsFlags(flags) && flags <= lead < flags + 0x20
    ensures lead % 0x20 == lead - flags
  {
  }

  lemma LengthPart(l: Bytes, content: Bytes, rest: Bytes)
    requires NamesLength(l, |content|)
    ensures var (b, r3) := TakeByte(Reader(l + (content + rest), false));
            var (length, r4) := if b >= 0x80 then TakeLength(r3, b - 0x80, 0) else (b, r3);
            Take(r4, length) == (content, Reader(rest, false))
  {
    hide TakeByte, Take, TakeLength, Fold;
    var after := content + rest;
    assert l + after == [l[0]] + (l[1..] + after);
    ByteBack(l[0], l[1..] + after);
    if l[0] >= 0x80 {
      LengthRead(0, l[1..], after);
    } else {
      assert l[1..] + after == after;
    }
    TakeFront(content, rest);
  }

  /** A tagged item that was written is read back. */
  lemma BerBack(id: nat, flags: Byte, content: Bytes, rest: Bytes)
    requires id < WORD32 && IsFlags(flags) && |content| < 0x100_0000
    ensures TakeBer(Reader(Ber(id, flags, content) + rest, false)) == (BerItem(id, flags, content), Reader(rest, false))
  {
    hide TakeBer, IsChain, Sevens, Fold, IdBytes, LengthBytes;
    HeaderMeans(id, flags, |content|);
    SmallMod(id, WORD32);
    SmallMod(|content|, WORD64);
    BerRead(IdBytes(id, flags), LengthBytes(|content|), content, rest, id, flags);
  }

  // ----- multiple-precision integers

  /** The number that bytes stand for, the most significant first. */
  function Value(s: Bytes): nat {
    if s == [] then 0 else Value(s[..|s| - 1]) * 0x100 + s[|s| - 1]
  }

  lemma {:induction false} FoldLast(acc: nat, s: seq<nat>, base: nat)
    requires s != []
    ensures Fold(acc, s, base) == Fold(acc, s[..|s| - 1], base) * base + s[|s| - 1]
    decreases |s|
  {
    if |s| > 1 {
      FoldLast(acc * base + s[0], s[1..], base);
      assert s[1..][..|s| - 2] == s[..|s| - 1][1..];
    } else {
      assert s[1..] == [] && s[..0] == [];
    }
  }

  /** Bytes read from either end stand for one number. */
  lemma {:induction false} ValueIsFold(s: Bytes)
    ensures Value(s) == Fold(0, s, 0x100)
  {
    if s != [] {
      FoldLast(0, s, 0x100);
      ValueIsFold(s[..|s| - 1]);
    }
  }

  /** The four bytes of a word are those of a number. */
  lemma WordValue(s: Bytes)
    requires |s| == 4
    ensures FromBe32(s) == Value(s)
  {
    var t := s[..3];
    var u := t[..2];
    var v := u[..1];
    assert Value(v) == Value([]) * 0x100 + s[0] by { assert v[..0] == []; }
    assert Value(u) == Value(v) * 0x100 + s[1] && Value(t) == Value(u) * 0x100 + s[2];
  }

  lemma {:induction false} LeadingZero(s: Bytes)
    ensures Value([0] + s) == Value(s)
  {
    var z := [0] + s;
    assert z[|z| - 1] == if s == [] then 0 else s[|s| - 1];
    if s == [] {
      assert z[..0] == [];
    } else {
      assert z[..|z| - 1] == [0] + s[..|s| - 1];
      LeadingZero(s[..|s| - 1]);
    }
  }

  predicate NoZeroAhead(s: Bytes) {
    s != [] ==> s[0] != 0
  }

  function Stripped(s: Bytes): (r: Bytes)
    ensures NoZeroAhead(r) && |r| <= |s|
  {
    if s != [] && s[0] == 0 then Stripped(s[1..]) else s
  }

  lemma {:induction false} StrippedValue(s: Bytes)
    ensures Value(Stripped(s)) == Value(s)
  {
    if s != [] && s[0] == 0 {
      assert s == [0] + s[1..];
      LeadingZero(s[1..]);
      StrippedValue(s[1..]);
    }
  }

  /** The form section 5 of RFC 4251 prescribes for a number that is not negative. */
  function Canonical(s: Bytes): (r: Bytes) {
    var t := Stripped(s);
    if t != [] && t[0] >= 0x80 then [0] + t else t
  }

  /** Not a byte more than needed, and the top bit, which is the sign, clear. */
  predicate IsCanonical(s: Bytes) {
    s != [] ==> s[0] < 0x80 && (s[0] == 0 ==> |s| > 1 && s[1] >= 0x80)
  }

  /** `put_mp_ssh2_from_string`. */
  method PutMpSsh2(bs: StrBuf, str: Bytes)
    modifies bs
    ensures bs.u == old(bs.u) + Str(Canonical(str))
  {
    var bytes := str;
    while bytes != [] && bytes[0] == 0
      invariant Stripped(bytes) == Stripped(str) && |bytes| <= |str|
      decreases |bytes|
    {
      bytes := bytes[1..];
    }
    PutSigned(bs, bytes);
  }

  /** A string of bytes, after a zero if its top bit would be taken for a sign. */
  method PutSigned(bs: StrBuf, bytes: Bytes)
    modifies bs
    ensures bs.u == old(bs.u) + Str(if bytes != [] && bytes[0] >= 0x80 then [0] + bytes else bytes)
  {
    hide Be32;
    if bytes != [] && bytes[0] >= 0x80 {
      bs.PutUint32(|bytes| + 1);
      bs.PutByte(0);
      bs.PutData(bytes);
      assert bs.u == old(bs.u) + (Be32(|bytes| + 1) + ([0] + bytes));
    } else {
      bs.PutUint32(|bytes|);
      bs.PutData(bytes);
      assert bs.u == old(bs.u) + (Be32(|bytes|) + bytes);
    }
  }

  lemma {:induction false} PositiveValue(s: Bytes)
    requires s != [] && s[0] != 0
    ensures Value(s) > 0
  {
    if |s| > 1 { PositiveValue(s[..|s| - 1]); }
  }

  /** Without leading zeros a number has one byte string only. */
  lemma {:induction false} OnlyOne(s: Bytes, t: Bytes)
    requires NoZeroAhead(s) && NoZeroAhead(t) && Value(s) == Value(t)
    ensures s == t
    decreases |s|
  {
    if s == [] || t == [] {
      if s != [] { PositiveValue(s); }
      if t != [] { PositiveValue(t); }
    } else {
      OnlyOne(s[..|s| - 1], t[..|t| - 1]);
      assert s == s[..|s| - 1] + [s[|s| - 1]] && t == t[..|t| - 1] + [t[|t| - 1]];
    }
  }

  /** Two byte strings get the same form exactly when they stand for the same number. */
  lemma SameFormIff(s: Bytes, t: Bytes)
    ensures Canonical(s) == Canonical(t) <==> Value(s) == Value(t)
  {
    CanonicalMeans(s);
    CanonicalMeans(t);
    if Value(s) == Value(t) {
      StrippedValue(s);
      StrippedValue(t);
      OnlyOne(Stripped(s), Stripped(t));
    }
  }

  /** The form keeps the number and is canonical; what is canonical already is left as it is. */
  lemma CanonicalMeans(s: Bytes)
    ensures Value(Canonical(s)) == Value(s) && IsCanonical(Canonical(s))
    ensures Canonical(s) == s <==> IsCanonical(s)
    ensures |Canonical(s)| <= |s| + 1
  {
    StrippedValue(s);
    LeadingZero(Stripped(s));
    if IsCanonical(s) && s != [] && s[0] == 0 {
      assert s == [0] + s[1..];
      assert Stripped(s[1..]) == s[1..];
    }
  }

  /** The canonical form is the only canonical byte string that stands for the number. */
  lemma CanonicalIsUnique(s: Bytes, t: Bytes)
    requires IsCanonical(t) && Value(t) == Value(s)
    ensures t == Canonical(s)
  {
    CanonicalMeans(t);
    SameFormIff(s, t);
  }

  // ----- integers that count their bits

  /** Leading zero bytes dropped, except that the last byte stays. */
  function Trimmed(s: Bytes): (r: Bytes)
    ensures |r| <= |s|
    ensures |r| > 1 ==> r[0] != 0
    ensures r == [] <==> s == []
  {
    if |s| > 1 && s[0] == 0 then Trimmed(s[1..]) else s
  }

  lemma {:induction false} TrimmedValue(s: Bytes)
    ensures Value(Trimmed(s)) == Value(s)
  {
    if |s| > 1 && s[0] == 0 {
      assert s == [0] + s[1..];
      LeadingZero(s[1..]);
      TrimmedValue(s[1..]);
    }
  }

  /** The bits of a number from the highest one set. */
  function BitLength(v: nat): nat {
    if v == 0 then 0 else 1 + BitLength(v / 2)
  }

  /** What the source counts: zero takes one bit, unless it has no byte at all. */
  function Bits(t: Bytes): nat {
    if t == [] then 0 else 8 * (|t| - 1) + if t[0] == 0 then 1 else BitLength(t[0])
  }

  function MpSshcom(s: Bytes): Bytes {
    Be32(Bits(Trimmed(s))) + Trimmed(s)
  }

  lemma Halved(v: nat, n: nat)
    requires BitLength(v / 2 / 2 / 2 / 2) <= n
    ensures BitLength(v) <= n + 4
  {
    var a := v / 2;
    var b := a / 2;
    var c := b / 2;
    assert BitLength(c) <= n + 1;
    assert BitLength(b) <= n + 2;
    assert BitLength(a) <= n + 3;
  }

  lemma AtMostEight(b: Byte)
    ensures BitLength(b) <= 8
  {
    Halved(b / 2 / 2 / 2 / 2, 0);
    Halved(b, BitLength(b / 2 / 2 / 2 / 2));
  }

  /** The highest bit that may be set is set, or there is one bit less. */
  lemma {:induction false} HighestBit(b: nat, k: nat)
    requires BitLength(b) <= k + 1
    ensures Shift(b, 2, k) % 2 == 1 <==> BitLength(b) == k + 1
    decreases k
  {
    assert b == 0 || BitLength(b) == 1 + BitLength(b / 2);
    if k > 0 {
      HighestBit(b / 2, k - 1);
    } else {
      assert b < 2;
    }
  }

  /** The bytes from the first that is not zero, and the place of the highest bit set; bit 0 is never looked at. */
  method ScanBits(str: Bytes) returns (bytes: Bytes, bits: int)
    ensures bytes == Trimmed(str) && bits == Bits(bytes) - 1
  {
    bytes, bits := str, 8 * |str| - 1;
    var found := false;
    if str != [] { AtMostEight(str[0]); }
    while !found && bits > 0
      invariant bits == -1 ==> bytes == [] && str == []
      invariant bits >= 0 ==> |bytes| == bits / 8 + 1 && BitLength(bytes[0]) <= bits % 8 + 1
      invariant -1 <= bits
      invariant found ==> bits > 0 && BitLength(bytes[0]) == bits % 8 + 1
      invariant Trimmed(bytes) == Trimmed(str)
      decreases bits, !found
    {
      HighestBit(bytes[0], bits % 8);
      if Shift(bytes[0], 2, bits % 8) % 2 == 1 {
        found := true;
      } else {
        if bits % 8 == 0 {
          bytes := bytes[1..];
          AtMostEight(bytes[0]);
        }
        bits := bits - 1;
      }
    }
    BitsFound(bytes, bits);
  }

  /** `put_mp_sshcom_from_string`. */
  method PutMpSshcom(bs: StrBuf, str: Bytes)
    requires 8 * |str| - 1 < 0x8000_0000
    modifies bs
    ensures bs.u == old(bs.u) + MpSshcom(str)
  {
    hide Be32, Trimmed, Bits;
    var bytes, bits := ScanBits(str);
    BitsBound(bytes);
    bs.PutUint32(bits + 1);
    bs.PutData(bytes);
    assert bs.u == old(bs.u) + (Be32(bits + 1) + bytes);
  }

  lemma BitsFound(bytes: Bytes, bits: int)
    requires bits >= -1
    requires bits == -1 ==> bytes == []
    requires bits >= 0 ==> |bytes| == bits / 8 + 1 && BitLength(bytes[0]) <= bits % 8 + 1
    requires bits > 0 ==> BitLength(bytes[0]) == bits % 8 + 1
    ensures Trimmed(bytes) == bytes && Bits(bytes) == bits + 1
  {
  }

  /** The sum is of 32 bits. */
  function BytesFor(bits: nat): nat {
    (bits + 7) % WORD32 / 8
  }

  /** `get_mp_sshcom_as_string`. */
  function TakeMpSshcom(r: Reader): (Bytes, Reader) {
    var (bits, r') := TakeUint32(r);
    Take(r', BytesFor(bits))
  }

  method GetMpSshcom(src: BinarySource) returns (s: Bytes)
    requires src.Valid()
    modifies src
    ensures src.Valid() && (s, src.View()) == TakeMpSshcom(old(src.View()))
  {
    hide Take, TakeUint32, BytesFor;
    var bits := src.GetUint32();
    s := src.GetData(BytesFor(bits));
  }

  lemma OneBit(v: nat, c: nat)
    requires v > 0 && c < 2
    ensures BitLength(2 * v + c) == 1 + BitLength(v)
  {
    assert (2 * v + c) / 2 == v;
  }

  lemma EightBits(v: nat, b: Byte)
    requires v > 0
    ensures BitLength(v * 0x100 + b) == 8 + BitLength(v)
  {
    hide BitLength;
    var c, d := b / 0x10, b % 0x10;
    assert b == 0x10 * c + d;
    FourBits(v, c);
    FourBits(v * 0x10 + c, d);
  }

  lemma FourBits(v: nat, b: nat)
    requires v > 0 && b < 0x10
    ensures BitLength(v * 0x10 + b) == 4 + BitLength(v)
  {
    hide BitLength;
    var c, d := b / 4, b % 4;
    assert b == 4 * c + d;
    TwoBits(v, c);
    TwoBits(4 * v + c, d);
  }

  lemma TwoBits(v: nat, b: nat)
    requires v > 0 && b < 4
    ensures BitLength(4 * v + b) == 2 + BitLength(v)
  {
    hide BitLength;
    var c, d := b / 2, b % 2;
    assert b == 2 * c + d;
    OneBit(v, c);
    OneBit(2 * v + c, d);
  }

  /** The bits written are those of the number. */
  lemma {:induction false} BitsExact(s: Bytes)
    requires s != [] && s[0] != 0
    ensures Bits(s) == BitLength(Value(s))
  {
    var front := s[..|s| - 1];
    if |s| > 1 {
      PositiveValue(front);
      BitsExact(front);
      EightBits(Value(front), s[|s| - 1]);
    } else {
      assert Value(front) == 0;
    }
  }

  /** The bit count written is that of the number, except that a zero with bytes counts one. */
  lemma BitsWritten(s: Bytes)
    ensures Bits(Trimmed(s)) == if Value(s) == 0 && s != [] then 1 else BitLength(Value(s))
  {
    var t := Trimmed(s);
    TrimmedValue(s);
    if t != [] {
      if t[0] != 0 {
        PositiveValue(t);
        BitsExact(t);
      } else {
        assert t[..0] == [];
      }
    }
  }

  lemma BitsBound(t: Bytes)
    ensures (Bits(t) + 7) / 8 == |t|
  {
    if t != [] { AtMostEight(t[0]); }
  }

  lemma BytesForBits(t: Bytes)
    requires |t| <= 0x1000_0000
    ensures Bits(t) % WORD32 == Bits(t) && BytesFor(Bits(t)) == |t|
  {
    BitsBound(t);
    SmallMod(Bits(t), WORD32);
    SmallMod(Bits(t) + 7, WORD32);
  }

  /** An integer that counts its bits is read back but for leading zeros, and no byte after it is touched. */
  lemma MpSshcomBack(s: Bytes, rest: Bytes)
    requires 8 * |s| - 1 < 0x8000_0000
    ensures TakeMpSshcom(Reader(MpSshcom(s) + rest, false)) == (Trimmed(s), Reader(rest, false))
  {
    hide Be32, Trimmed, Bits, TakeUint32, Take, BytesFor;
    var t := Trimmed(s);
    Joined(Be32(Bits(t)), t, rest);
    BytesForBits(t);
    Uint32Back(Bits(t), t + rest);
    TakeFront(t, rest);
  }

  /** What came back is put in the same form as what was written. */
  lemma TrimmedForm(s: Bytes)
    ensures Canonical(Trimmed(s)) == Canonical(s)
  {
    TrimmedValue(s);
    SameFormIff(Trimmed(s), s);
  }
}
