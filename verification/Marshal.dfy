/** Byte buffers that are appended to, and sources that are read from front to back. */
module Marshal {
  import opened Basics

  type Bytes = seq<Byte>

  const WORD32: nat := 0x1_0000_0000

  // ----- what is written

  function Low(n: nat): Byte {
    n % 0x100
  }

  /** Four bytes, the most significant first. */
  function Be32(n: nat): (r: Bytes)
    ensures |r| == 4
  {
    [Low(n / 0x100 / 0x100 / 0x100), Low(n / 0x100 / 0x100), Low(n / 0x100), Low(n)]
  }

  /** The number four bytes stand for. */
  function FromBe32(s: Bytes): nat
    requires |s| == 4
  {
    var a: nat, b: nat, c: nat := s[0], s[1], s[2];
    a * 0x100_0000 + b * 0x1_0000 + c * 0x100 + s[3]
  }

  /** Four bytes keep a number modulo 2^32. */
  lemma Be32Reads(n: nat)
    ensures FromBe32(Be32(n)) == n % WORD32
  {
    var a := n / 0x100;
    var b := a / 0x100;
    var c := b / 0x100;
    assert n == WORD32 * (c / 0x100) + FromBe32(Be32(n));
  }

  /** A string: its length, then its bytes. */
  function Str(s: Bytes): (r: Bytes)
    ensures |r| == 4 + |s|
  {
    Be32(|s|) + s
  }

  /** A buffer that grows at its end. */
  class StrBuf {
    var u: Bytes

    constructor ()
      ensures u == []
    {
      u := [];
    }

    method PutByte(b: Byte)
      modifies this
      ensures u == old(u) + [b]
    {
      u := u + [b];
    }

    method PutData(s: Bytes)
      modifies this
      ensures u == old(u) + s
    {
      u := u + s;
    }

    method PutUint32(n: nat)
      modifies this
      ensures u == old(u) + Be32(n)
    {
      u := u + Be32(n);
    }

    method PutString(s: Bytes)
      requires |s| < WORD32
      modifies this
      ensures u == old(u) + Str(s)
    {
      PutUint32(|s|);
      PutData(s);
    }

    /** Overwrite four bytes written before. */
    method Patch32(pos: nat, n: nat)
      requires pos + 4 <= |u|
      modifies this
      ensures u == old(u)[..pos] + Be32(n) + old(u)[pos + 4..]
    {
      u := u[..pos] + Be32(n) + u[pos + 4..];
    }
  }

  // ----- what is read

  /** A source as its readers see it: the bytes not yet taken, and whether a read ever went past the end. */
  datatype Reader = Reader(rest: Bytes, err: bool)

  function Take(r: Reader, n: nat): (Bytes, Reader) {
    if r.err then ([], r)
    else if n <= |r.rest| then (r.rest[..n], Reader(r.rest[n..], false))
    else ([], Reader(r.rest, true))
  }

  function TakeByte(r: Reader): (Byte, Reader) {
    var (s, r') := Take(r, 1);
    (if s == [] then 0 else s[0], r')
  }

  function TakeUint32(r: Reader): (nat, Reader) {
    var (s, r') := Take(r, 4);
    (if s == [] then 0 else FromBe32(s), r')
  }

  /** Past the end in either part, nothing is returned; a length that was there stays taken. */
  function TakeString(r: Reader): (Bytes, Reader) {
    var (n, r') := TakeUint32(r);
    if r'.err then ([], r') else Take(r', n)
  }

  class BinarySource {
    var data: Bytes
    var pos: nat
    var err: bool

    ghost predicate Valid()
      reads this
    {
      pos <= |data|
    }

    ghost function View(): Reader
      requires Valid()
      reads this
    {
      Reader(data[pos..], err)
    }

    constructor (data: Bytes)
      ensures Valid() && View() == Reader(data, false)
    {
      this.data, pos, err := data, 0, false;
    }

    /** Start again on other bytes. */
    method Init(s: Bytes)
      modifies this
      ensures Valid() && View() == Reader(s, false)
    {
      data, pos, err := s, 0, false;
    }

    /** Whether that many bytes are there; if not, the source has failed for good. */
    method Avail(wanted: nat) returns (ok: bool)
      requires Valid()
      modifies this`err
      ensures ok == (!old(err) && wanted <= |data| - pos)
      ensures err == !ok
    {
      if err { return false; }
      if wanted <= |data| - pos { return true; }
      err := true;
      return false;
    }

    method GetData(wanted: nat) returns (s: Bytes)
      requires Valid()
      modifies this
      ensures Valid() && (s, View()) == Take(old(View()), wanted)
    {
      var ok := Avail(wanted);
      if !ok { return []; }
      s := data[pos..pos + wanted];
      assert data[pos..][..wanted] == s && data[pos..][wanted..] == data[pos + wanted..];
      pos := pos + wanted;
    }

    method GetByte() returns (b: Byte)
      requires Valid()
      modifies this
      ensures Valid() && (b, View()) == TakeByte(old(View()))
    {
      var s := GetData(1);
      b := if s == [] then 0 else s[0];
    }

    method GetUint32() returns (n: nat)
      requires Valid()
      modifies this
      ensures Valid() && (n, View()) == TakeUint32(old(View()))
    {
      var s := GetData(4);
      n := if s == [] then 0 else FromBe32(s);
    }

    method GetString() returns (s: Bytes)
      requires Valid()
      modifies this
      ensures Valid() && (s, View()) == TakeString(old(View()))
    {
      var n := GetUint32();
      if err { return []; }
      s := GetData(n);
    }
  }

  // ----- what was written is read

  lemma TakeFront(s: Bytes, rest: Bytes)
    ensures Take(Reader(s + rest, false), |s|) == (s, Reader(rest, false))
  {
  }

  lemma Uint32Back(n: nat, rest: Bytes)
    ensures TakeUint32(Reader(Be32(n) + rest, false)) == (n % WORD32, Reader(rest, false))
  {
    hide Be32, FromBe32;
    TakeFront(Be32(n), rest);
    Be32Reads(n);
  }

  /** On any input: a string is there if and only if its length is and as many bytes after it; otherwise the error flag
      is set and nothing is returned. */
  lemma StringThereIff(r: Reader)
    ensures var (s, r') := TakeString(r);
            if !r.err && |r.rest| >= 4 && FromBe32(r.rest[..4]) <= |r.rest| - 4 then
              r.rest == r.rest[..4] + s + r'.rest && |s| == FromBe32(r.rest[..4]) && !r'.err
            else s == [] && r'.err && (r' == Reader(r.rest, true) || r' == Reader(r.rest[4..], true))
  {
    hide FromBe32;
    if !r.err && |r.rest| >= 4 {
      var n := FromBe32(r.rest[..4]);
      if n <= |r.rest| - 4 {
        assert r.rest[4..] == r.rest[4..][..n] + r.rest[4..][n..];
      }
    }
  }

  /** A string is read back, and no byte after it is touched. */
  lemma StringBack(s: Bytes, rest: Bytes)
    requires |s| < WORD32
    ensures TakeString(Reader(Str(s) + rest, false)) == (s, Reader(rest, false))
  {
    hide Be32, FromBe32;
    assert Str(s) + rest == Be32(|s|) + (s + rest);
    Uint32Back(|s|, s + rest);
    TakeFront(s, rest);
  }
}
