/** RSA and DSA private keys in the old OpenSSH format: a BER SEQUENCE of INTEGERs. */
module PemFiles {
  import opened Basics
  import opened Marshal
  import opened Numbers
  import opened KeyBlobs

  datatype Problem = Asn1 | Version

  /** The passphrase and the starting vector of an encrypted file. */
  datatype Secret = Secret(pass: Bytes, iv: Bytes)

  // ----- numbers as bytes

  lemma {:induction false} ShiftBits(v: nat, k: nat)
    ensures BitLength(Shift(v, 0x100, k)) == if 8 * k < BitLength(v) then BitLength(v) - 8 * k else 0
    decreases k
  {
    hide BitLength;
    if k > 0 {
      var q, b := v / 0x100, v % 0x100;
      assert v == q * 0x100 + b;
      ShiftBits(q, k - 1);
      if q > 0 {
        EightBits(q, b);
      } else {
        AtMostEight(b);
        NoBits(0);
      }
    }
  }

  lemma NoBits(v: nat)
    ensures BitLength(v) == 0 <==> v == 0
  {
  }

  lemma SevenBits(b: nat)
    requires BitLength(b) <= 7
    ensures b < 0x80
  {
    Doubles(b, 7);
    Doubles(b / 2, 6);
    Doubles(b / 2 / 2, 5);
    Doubles(b / 2 / 2 / 2, 4);
    Doubles(b / 2 / 2 / 2 / 2, 3);
    Doubles(b / 2 / 2 / 2 / 2 / 2, 2);
    Doubles(b / 2 / 2 / 2 / 2 / 2 / 2, 1);
    NoBits(b / 2 / 2 / 2 / 2 / 2 / 2 / 2);
  }

  lemma Doubles(b: nat, n: nat)
    requires n > 0 && BitLength(b) <= n
    ensures BitLength(b / 2) <= n - 1
  {
  }

  /** As many bytes as keep the top bit clear. */
  function PositiveBytes(v: nat): Bytes {
    Digits(v, 0x100, (BitLength(v) + 8) / 8)
  }

  /** The bytes stand for the number, and none would take it for a negative one. */
  lemma PositiveMeans(v: nat)
    ensures var s := PositiveBytes(v); Value(s) == v && s != [] && s[0] < 0x80
  {
    hide BitLength, Shift, Value;
    var n := (BitLength(v) + 8) / 8;
    ShiftBits(v, n);
    NoBits(Shift(v, 0x100, n));
    FoldDigits(v, 0x100, n);
    ValueIsFold(Digits(v, 0x100, n));
    ShiftBits(v, n - 1);
    SevenBits(Shift(v, 0x100, n - 1));
  }

  // ----- what is written

  /** One exponent of the Chinese remainder form: d modulo p - 1. */
  function Exponent(d: Bytes, p: Bytes): Bytes
    requires Value(p) > 1
  {
    PositiveBytes(Value(d) % (Value(p) - 1))
  }

  /** The source reduces modulo p - 1 and q - 1, which must not be zero. */
  predicate Sound(key: Key) {
    key.Rsa? ==> Value(key.p) > 1 && Value(key.q) > 1
  }

  function Listed(key: Key): seq<Bytes>
    requires Sound(key)
  {
    match key
    case Rsa(e, n, d, p, q, iqmp) => [[0], n, e, d, p, q, Exponent(d, p), Exponent(d, q), iqmp]
    case Dsa(p, q, g, y, x) => [[0], p, q, g, y, x]
  }

  predicate Small(ns: seq<Bytes>) {
    forall i :: 0 <= i < |ns| ==> |ns[i]| < 0x100_0000
  }

  function Ints(ns: seq<Bytes>): Bytes
    requires Small(ns)
  {
    if ns == [] then [] else Ber(2, 0, ns[0]) + Ints(ns[1..])
  }

  /** What `put_ber_id_len` can write. */
  predicate Fits(key: Key) {
    Sound(key) && Small(Listed(key)) && |Ints(Listed(key))| < 0x100_0000
  }

  function Plain(key: Key): Bytes
    requires Fits(key)
  {
    Ber(16, 0x20, Ints(Listed(key)))
  }

  /** Padding of one to eight bytes, each of which says how many. */
  function Padding(n: nat): (r: Bytes)
    ensures 1 <= |r| <= 8 && (n + |r|) % 8 == 0
    ensures forall i :: 0 <= i < |r| ==> r[i] == |r|
  {
    seq(8 - n % 8, i => 8 - n % 8)
  }

  function FileBlob(key: Key, secret: Option<Secret>, cipher: Cipher): Bytes
    requires Fits(key)
  {
    var plain := Plain(key);
    if secret.None? then plain
    else cipher.encrypt(secret.value.pass, secret.value.iv, plain + Padding(|plain|))
  }

  // ----- what is read

  function TakeInts(r: Reader, n: nat): (res: Option<seq<Bytes>>)
    ensures res.Some? ==> |res.value| == n
    decreases n
  {
    if n == 0 then Some([])
    else
      var (item, r1) := TakeBer(r);
      if r1.err || item.id != 2 then None
      else
        match TakeInts(r1, n - 1)
        case None => None
        case Some(ns) => Some([item.data] + ns)
  }

  function RsaOf(ns: seq<Bytes>): Key
    requires |ns| == 8
  {
    Rsa(ns[1], ns[0], ns[2], ns[3], ns[4], ns[7])
  }

  function DsaOf(ns: seq<Bytes>): Key
    requires |ns| == 5
  {
    Dsa(ns[0], ns[1], ns[2], ns[3], ns[4])
  }

  function BadAsn1(encrypted: bool): Outcome<Problem> {
    if encrypted then WrongPassphrase(Asn1) else Failed(Asn1)
  }

  function Made(rsa: bool, found: Option<seq<Bytes>>, encrypted: bool): Outcome<Problem>
    requires found.Some? ==> |found.value| == if rsa then 8 else 5
  {
    if found.None? then BadAsn1(encrypted)
    else OfKey(CanonicalForm(if rsa then RsaOf(found.value) else DsaOf(found.value)))
  }

  function ParseInts(rsa: bool, r: Reader, encrypted: bool): Outcome<Problem> {
    var (item, r1) := TakeBer(r);
    if r1.err || item.id != 2 then BadAsn1(encrypted)
    else if item.data != [0] then Failed(Version)
    else Made(rsa, TakeInts(r1, if rsa then 8 else 5), encrypted)
  }

  function ParsePlain(rsa: bool, plain: Bytes, encrypted: bool): Outcome<Problem> {
    var (item, r) := TakeBer(Reader(plain, false));
    if r.err || item.id != 16 then BadAsn1(encrypted) else ParseInts(rsa, Reader(item.data, false), encrypted)
  }

  /** `openssh_pem_read` for RSA and DSA keys, on any bytes. */
  function Parse(rsa: bool, blob: Bytes, secret: Option<Secret>, cipher: Cipher): Outcome<Problem> {
    ParsePlain(rsa, if secret.None? then blob else
        cipher.decrypt(secret.value.pass, secret.value.iv, blob), secret.Some?)
  }

  // ----- writing, then reading

  lemma {:induction false} IntsBack(ns: seq<Bytes>, rest: Bytes)
    requires Small(ns)
    ensures TakeInts(Reader(Ints(ns) + rest, false), |ns|) == Some(ns)
    decreases |ns|
  {
    hide TakeBer, Ber;
    if ns != [] {
      var after := Ints(ns[1..]);
      Joined(Ber(2, 0, ns[0]), after, rest);
      BerBack(2, 0, ns[0], after + rest);
      IntsBack(ns[1..], rest);
      assert ns == [ns[0]] + ns[1..];
    }
  }

  lemma PlainBack(key: Key, rest: Bytes, encrypted: bool)
    requires Fits(key)
    ensures ParsePlain(key.Rsa?, Plain(key) + rest, encrypted) == OfKey(CanonicalForm(key))
  {
    hide TakeBer, Ber, ParseInts, CanonicalForm, Ints, OfKey;
    BerBack(16, 0x20, Ints(Listed(key)), rest);
    ListBack(key, encrypted);
  }

  lemma ListBack(key: Key, encrypted: bool)
    requires Fits(key)
    ensures ParseInts(key.Rsa?, Reader(Ints(Listed(key)), false), encrypted) == OfKey(CanonicalForm(key))
  {
    hide TakeBer, Ber, CanonicalForm, TakeInts, OfKey, Exponent;
    var ns := Listed(key);
    var after := Ints(ns[1..]);
    BerBack(2, 0, ns[0], after);
    IntsBack(ns[1..], []);
    assert after + [] == after;
    assert |ns[1..]| == if key.Rsa? then 8 else 5;
    assert if key.Rsa? then RsaOf(ns[1..]) == key else DsaOf(ns[1..]) == key;
  }

  /** What was written is read back, encrypted or not: the same numbers under the same names, each in canonical form. */
  lemma RoundTrip(key: Key, secret: Option<Secret>, cipher: Cipher)
    requires Fits(key) && Inverse(cipher)
    ensures Parse(key.Rsa?, FileBlob(key, secret, cipher), secret, cipher) == OfKey(CanonicalForm(key))
  {
    hide ParsePlain, Plain, CanonicalForm, OfKey, Fits, Padding;
    var plain := Plain(key);
    if secret.None? {
      PlainBack(key, [], false);
      assert plain + [] == plain;
    } else {
      PlainBack(key, Padding(|plain|), true);
      assert |plain + Padding(|plain|)| % 8 == 0;
    }
  }

  /** The bytes are INTEGERs, one after the other and nothing else, with these contents. */
  ghost predicate AreInts(s: Bytes, ns: seq<Bytes>)
    decreases |ns|
  {
    if ns == [] then s == []
    else
      var (item, r) := TakeBer(Reader(s, false));
      item == BerItem(2, 0, ns[0]) && !r.err && AreInts(r.rest, ns[1..])
  }

  /** A number that is not negative, in two's complement. */
  ghost predicate Reads(s: Bytes, v: nat) {
    s != [] && s[0] < 0x80 && Value(s) == v
  }

  /** The numbers of an RSA key in their order (section A.1.2 of RFC 8017): version, modulus, both exponents, both
      primes, the exponent modulo either prime less one, the prime that comes first going with the first exponent,
      and the coefficient.  Those of a DSA key: version, prime, order, generator, and the public and private value. */
  ghost predicate Tells(ns: seq<Bytes>, key: Key) {
    match key
    case Rsa(e, n, d, p, q, iqmp) =>
      && Value(p) > 1 && Value(q) > 1 && |ns| == 9 && ns[0] == [0]
      && ns[1] == n && ns[2] == e && ns[3] == d && ns[4] == p && ns[5] == q
      && Reads(ns[6], Value(d) % (Value(p) - 1)) && Reads(ns[7], Value(d) % (Value(q) - 1)) && ns[8] == iqmp
    case Dsa(p, q, g, y, x) =>
      |ns| == 6 && ns[0] == [0] && ns[1] == p && ns[2] == q && ns[3] == g && ns[4] == y && ns[5] == x
  }

  lemma {:induction false} IntsAre(ns: seq<Bytes>)
    requires Small(ns)
    ensures AreInts(Ints(ns), ns)
    decreases |ns|
  {
    hide TakeBer, Ber;
    if ns != [] {
      BerBack(2, 0, ns[0], Ints(ns[1..]));
      IntsAre(ns[1..]);
    }
  }

  lemma ListedTells(key: Key)
    requires Sound(key)
    ensures Tells(Listed(key), key)
  {
    hide Value, PositiveBytes;
    if key.Rsa? {
      PositiveMeans(Value(key.d) % (Value(key.p) - 1));
      PositiveMeans(Value(key.d) % (Value(key.q) - 1));
    }
  }

  /** What is in a written file, once decrypted, by BER alone: a SEQUENCE of the key's INTEGERs, and after it nothing
      but the padding of an encrypted file. */
  lemma FileTells(key: Key, secret: Option<Secret>, cipher: Cipher) returns (ns: seq<Bytes>)
    requires Fits(key) && Inverse(cipher)
    ensures var blob := FileBlob(key, secret, cipher);
            var plain := if secret.None? then blob else cipher.decrypt(secret.value.pass, secret.value.iv, blob);
            var (item, r) := TakeBer(Reader(plain, false));
            && !r.err && item.id == 16 && item.flags == 0x20 && AreInts(item.data, ns)
            && if secret.None? then r.rest == []
               else 1 <= |r.rest| <= 8 && |plain| % 8 == 0 && forall i :: 0 <= i < |r.rest| ==> r.rest[i] == |r.rest|
    ensures Tells(ns, key)
  {
    hide TakeBer, Ber, Ints, Listed, Tells;
    ns := Listed(key);
    var plain := Plain(key);
    var rest := if secret.None? then [] else Padding(|plain|);
    BerBack(16, 0x20, Ints(ns), rest);
    assert secret.None? ==> plain + [] == plain;
    assert secret.Some? ==> |plain + Padding(|plain|)| % 8 == 0;
    IntsAre(ns);
    ListedTells(key);
  }

  lemma FitsIsRoomy(key: Key)
    requires Fits(key)
    ensures RoomyKey(key)
  {
    hide Ints, Exponent;
    var ns := Listed(key);
    assert |ns[1]| < 0x100_0000 && |ns[2]| < 0x100_0000 && |ns[3]| < 0x100_0000 && |ns[4]| < 0x100_0000;
    assert |ns[5]| < 0x100_0000 && (key.Rsa? ==> |ns[8]| < 0x100_0000);
  }

  /** The key itself comes back exactly if all its numbers are in canonical form. */
  lemma SameKeyIff(key: Key, secret: Option<Secret>, cipher: Cipher)
    requires Fits(key) && Inverse(cipher)
    ensures Parse(key.Rsa?, FileBlob(key, secret, cipher), secret, cipher) == OfKey(key) <==> CanonicalKey(key)
  {
    hide Parse, FileBlob, CanonicalKey, PublicBlob, PrivateBlob, ShortKey, Inverse, Fits, RoomyKey;
    RoundTrip(key, secret, cipher);
    CanonicalFormMeans(key);
    FitsIsRoomy(key);
    CanonicalShort(key);
    SameBlobs<Problem>(CanonicalForm(key), key);
  }

  /** Whatever file a key was read from, its numbers are in canonical form. */
  lemma ReadIsCanonical(rsa: bool, blob: Bytes, secret: Option<Secret>, cipher: Cipher) returns (key: Key)
    requires Parse(rsa, blob, secret, cipher).Blobs?
    ensures CanonicalKey(key) && key.Rsa? == rsa && Parse(rsa, blob, secret, cipher) == OfKey(key)
  {
    hide TakeBer, TakeInts, CanonicalForm, CanonicalKey, PublicBlob, PrivateBlob;
    var plain := if secret.None? then blob else cipher.decrypt(secret.value.pass, secret.value.iv, blob);
    var (seq0, _) := TakeBer(Reader(plain, false));
    var (_, r1) := TakeBer(Reader(seq0.data, false));
    var ns := TakeInts(r1, if rsa then 8 else 5).value;
    var k := if rsa then RsaOf(ns) else DsaOf(ns);
    key := CanonicalForm(k);
    CanonicalFormMeans(k);
    KindKept(k);
  }

  /** The version number of the file, if one is there. */
  ghost function VersionOf(plain: Bytes): Option<Bytes> {
    var (list, r) := TakeBer(Reader(plain, false));
    var (version, r1) := TakeBer(Reader(list.data, false));
    if r.err || list.id != 16 || r1.err || version.id != 2 then None else Some(version.data)
  }

  /** Which files are refused, and how: a version other than zero always fails; what is not a list of as many integers
      as the key type has fails too, except that after decrypting it counts as a wrong passphrase. */
  lemma WhenRefused(rsa: bool, blob: Bytes, secret: Option<Secret>, cipher: Cipher)
    ensures var plain := if secret.None? then blob else cipher.decrypt(secret.value.pass, secret.value.iv, blob);
            var o, v := Parse(rsa, blob, secret, cipher), VersionOf(plain);
            && (o == Failed(Version) <==> v.Some? && v.value != [0])
            && (o.WrongPassphrase? ==> secret.Some? && o.why == Asn1)
            && (o == Failed(Asn1) ==> secret.None?)
            && (o.Blobs? <==>
                  && v == Some([0])
                  && TakeInts(Reader(TakeBer(Reader(plain, false)).0.data, false), if rsa then 9 else 6).Some?)
  {
    hide TakeBer, TakeInts, CanonicalForm;
    var plain := if secret.None? then blob else cipher.decrypt(secret.value.pass, secret.value.iv, blob);
    var (list, r) := TakeBer(Reader(plain, false));
    FirstInt(Reader(list.data, false), if rsa then 9 else 6);
  }

  lemma FirstInt(r: Reader, n: nat)
    requires n > 0
    ensures var (item, r1) := TakeBer(r);
            TakeInts(r, n).Some? <==> !r1.err && item.id == 2 && TakeInts(r1, n - 1).Some?
  {
    hide TakeBer;
  }

  lemma KindKept(key: Key)
    ensures CanonicalForm(key).Rsa? == key.Rsa?
  {
  }

  // ----- the writer

  method PutInts(out: StrBuf, ns: seq<Bytes>)
    requires Small(ns)
    modifies out
    ensures out.u == old(out.u) + Ints(ns)
  {
    hide IdBytes, LengthBytes;
    for i := 0 to |ns|
      invariant out.u + Ints(ns[i..]) == old(out.u) + Ints(ns)
    {
      ghost var before := out.u;
      PutBerIdLen(out, 2, |ns[i]|, 0);
      out.PutData(ns[i]);
      assert out.u == before + Ber(2, 0, ns[i]);
      Joined(before, Ber(2, 0, ns[i]), Ints(ns[i + 1..]));
      assert ns[i..][1..] == ns[i + 1..];
    }
  }

  method ExponentOf(d: Bytes, p: Bytes) returns (s: Bytes)
    requires Value(p) > 1
    ensures s == Exponent(d, p)
  {
    hide Digits, Value, BitLength;
    var v := Value(d) % (Value(p) - 1);
    var spare := new StrBuf();
    PutDigits(spare, v, (BitLength(v) + 8) / 8);
    s := spare.u;
  }

  /** `openssh_pem_write` for RSA and DSA keys, up to the bytes it saves. */
  method Write(rsa: bool, pub: Bytes, priv: Bytes, secret: Option<Secret>, cipher: Cipher, ghost key: Key)
    returns (blob: Bytes)
    requires pub == PublicBlob(key) && priv == PrivateBlob(key) && rsa == key.Rsa? && Fits(key)
    ensures blob == FileBlob(key, secret, cipher)
  {
    hide PublicBlob, PrivateBlob, ShortKey, RoomyKey, Ints, IdBytes, LengthBytes, Exponent, Padding;
    FitsIsRoomy(key);
    CanonicalShort(key);
    var numbers;
    if rsa {
      var k := RsaParts(pub, priv, key);
      var dmp1 := ExponentOf(k.d, k.p);
      var dmq1 := ExponentOf(k.d, k.q);
      numbers := [[0], k.n, k.e, k.d, k.p, k.q, dmp1, dmq1, k.iqmp];
    } else {
      var k := DsaParts(pub, priv, key);
      numbers := [[0], k.p, k.q, k.g, k.y, k.x];
    }
    assert numbers == Listed(key);
    blob := WriteList(numbers, secret, cipher);
  }

  method WriteList(numbers: seq<Bytes>, secret: Option<Secret>, cipher: Cipher) returns (blob: Bytes)
    requires Small(numbers) && |Ints(numbers)| < 0x100_0000
    ensures var plain := Ber(16, 0x20, Ints(numbers));
            blob == if secret.None? then plain
                    else cipher.encrypt(secret.value.pass, secret.value.iv, plain + Padding(|plain|))
  {
    hide Ints, IdBytes, LengthBytes, Padding;
    var list := new StrBuf();
    PutInts(list, numbers);
    assert list.u == Ints(numbers);
    var out := new StrBuf();
    PutBerIdLen(out, 16, |list.u|, 0x20);
    out.PutData(list.u);
    assert out.u == Ber(16, 0x20, Ints(numbers));
    if secret.Some? {
      out.PutData(Padding(|out.u|));
      out.u := cipher.encrypt(secret.value.pass, secret.value.iv, out.u);
    }
    blob := out.u;
  }

  // ----- the reader

  function Name(rsa: bool): Bytes {
    Ascii(if rsa then "ssh-rsa" else "ssh-dss")
  }

  /** What the `k`-th of these numbers adds to the blob: the modulus waits for the exponent, and two are left out. */
  function Piece(rsa: bool, got: seq<Bytes>, k: nat): Bytes
    requires 0 < k <= |got|
  {
    var last := Str(Canonical(got[k - 1]));
    if !rsa then last
    else if k == 1 || k == 6 || k == 7 then []
    else if k == 2 then last + Str(Canonical(got[0]))
    else last
  }

  function BlobOf(rsa: bool, got: seq<Bytes>, k: nat): Bytes
    requires k <= |got|
  {
    if k == 0 then Str(Name(rsa)) else BlobOf(rsa, got, k - 1) + Piece(rsa, got, k)
  }

  lemma {:induction false} BlobKept(rsa: bool, got: seq<Bytes>, more: seq<Bytes>, k: nat)
    requires k <= |got|
    ensures BlobOf(rsa, got + more, k) == BlobOf(rsa, got, k)
    decreases k
  {
    hide Str, Canonical;
    if k > 0 { BlobKept(rsa, got, more, k - 1); }
  }

  lemma BlobStep(rsa: bool, got: seq<Bytes>, k: nat)
    requires k <= |got|
    ensures BlobOf(rsa, got, k) == if k == 0 then Str(Name(rsa)) else BlobOf(rsa, got, k - 1) + Piece(rsa, got, k)
  {
  }

  /** How many numbers make up the public blob. */
  function PublicCount(rsa: bool): nat {
    if rsa then 2 else 4
  }

  lemma RsaPublicIs(got: seq<Bytes>)
    requires |got| == 8
    ensures BlobOf(true, got, 2) == PublicBlob(CanonicalForm(RsaOf(got)))
  {
    hide Str, Canonical, Strs, Ascii, BlobOf;
    BlobStep(true, got, 0);
    BlobStep(true, got, 1);
    BlobStep(true, got, 2);
    var n, e := Str(Canonical(got[0])), Str(Canonical(got[1]));
    assert Str(Name(true)) + [] == Str(Name(true));
    StrsFour(Name(true), Canonical(got[1]), Canonical(got[0]), []);
  }

  lemma Added(rsa: bool, got: seq<Bytes>, k: nat)
    requires 0 < k <= |got| && (rsa ==> k in {3, 4, 5, 8})
    ensures BlobOf(rsa, got, k) == BlobOf(rsa, got, k - 1) + Str(Canonical(got[k - 1]))
  {
    hide Str, Canonical;
  }

  lemma Skipped(got: seq<Bytes>, k: nat)
    requires k <= |got| && (k == 6 || k == 7)
    ensures BlobOf(true, got, k) == BlobOf(true, got, k - 1)
  {
    hide Str, Canonical;
  }

  lemma Regrouped(s: Bytes, a: Bytes, b: Bytes, c: Bytes, d: Bytes)
    ensures s + a + b + c + d == s + (a + (b + (c + d)))
  {
    Joined(s + a + b, c, d);
    Joined(s + a, b, c + d);
    Joined(s, a, b + (c + d));
  }

  lemma RsaPrivateIs(got: seq<Bytes>)
    requires |got| == 8
    ensures BlobOf(true, got, 8) == BlobOf(true, got, 2) + PrivateBlob(CanonicalForm(RsaOf(got)))
  {
    hide Str, Canonical, Strs, Ascii, BlobOf;
    Added(true, got, 3);
    Added(true, got, 4);
    Added(true, got, 5);
    Skipped(got, 6);
    Skipped(got, 7);
    Added(true, got, 8);
    var d, p, q, u := Canonical(got[2]), Canonical(got[3]), Canonical(got[4]), Canonical(got[7]);
    Regrouped(BlobOf(true, got, 2), Str(d), Str(p), Str(q), Str(u));
    StrsFour(d, p, q, u);
  }

  lemma DsaBlobIs(got: seq<Bytes>)
    requires |got| == 5
    ensures BlobOf(false, got, 4) == PublicBlob(CanonicalForm(DsaOf(got)))
    ensures BlobOf(false, got, 5) == BlobOf(false, got, 4) + PrivateBlob(CanonicalForm(DsaOf(got)))
  {
    hide Str, Canonical, Strs, Ascii, BlobOf;
    BlobStep(false, got, 0);
    Added(false, got, 1);
    Added(false, got, 2);
    Added(false, got, 3);
    Added(false, got, 4);
    Added(false, got, 5);
    var p, q, g, y := Canonical(got[0]), Canonical(got[1]), Canonical(got[2]), Canonical(got[3]);
    Regrouped(Str(Name(false)), Str(p), Str(q), Str(g), Str(y));
    StrsFive(Name(false), p, q, g, y);
    StrsOne(Canonical(got[4]));
  }

  /** The blob of all the numbers, cut after the public ones, is the key's two blobs. */
  lemma BlobIs(rsa: bool, got: seq<Bytes>, encrypted: bool)
    requires |got| == if rsa then 8 else 5
    ensures var all, cut := BlobOf(rsa, got, |got|), |BlobOf(rsa, got, PublicCount(rsa))|;
            cut <= |all| && Blobs(all[..cut], all[cut..]) == Made(rsa, Some(got), encrypted)
  {
    hide BlobOf, PublicBlob, PrivateBlob, CanonicalForm;
    if rsa {
      RsaPublicIs(got);
      RsaPrivateIs(got);
    } else {
      DsaBlobIs(got);
    }
    var all, pub := BlobOf(rsa, got, |got|), BlobOf(rsa, got, PublicCount(rsa));
    assert all[..|pub|] == pub && all[|pub|..] == all[|pub|..];
  }

  /** Add a number to the blob. */
  method PutPiece(blob: StrBuf, rsa: bool, i: nat, data: Bytes, modulus: Bytes, ghost got: seq<Bytes>)
    requires 0 < i == |got| + 1 && blob.u == BlobOf(rsa, got, |got|)
    requires got != [] ==> modulus == got[0]
    modifies blob
    ensures blob.u == BlobOf(rsa, got + [data], |got| + 1)
  {
    hide Str, Canonical;
    BlobKept(rsa, got, [data], |got|);
    if rsa {
      if i != 1 && i != 6 && i != 7 {
        PutMpSsh2(blob, data);
        if i == 2 {
          PutMpSsh2(blob, modulus);
        }
      }
    } else {
      PutMpSsh2(blob, data);
    }
  }

  /** Some numbers have been got, and the rest decides whether all are found. */
  ghost predicate Continued(found: Option<seq<Bytes>>, got: seq<Bytes>, rest: Option<seq<Bytes>>) {
    found == if rest.None? then None else Some(got + rest.value)
  }

  lemma OneMore(found: Option<seq<Bytes>>, got: seq<Bytes>, r: Reader, n: nat)
    requires n > 0 && Continued(found, got, TakeInts(r, n))
    ensures var (item, r1) := TakeBer(r);
            if r1.err || item.id != 2 then found == None else Continued(found, got + [item.data], TakeInts(r1, n - 1))
  {
    hide TakeBer;
    var (item, r1) := TakeBer(r);
    var rest := TakeInts(r1, n - 1);
    if !r1.err && item.id == 2 && rest.Some? {
      Joined3(got, [item.data], rest.value);
    }
  }

  lemma Joined3(a: seq<Bytes>, b: seq<Bytes>, c: seq<Bytes>)
    ensures a + b + c == a + (b + c)
  {
  }

  lemma AllGot(found: Option<seq<Bytes>>, got: seq<Bytes>, r: Reader)
    requires Continued(found, got, TakeInts(r, 0))
    ensures found == Some(got)
  {
    assert got + [] == got;
  }

  /** The numbers of a key, as they are read. */
  method ReadInts(src: BinarySource, rsa: bool, encrypted: bool) returns (o: Outcome<Problem>)
    requires src.Valid()
    modifies src
    ensures o == ParseInts(rsa, old(src.View()), encrypted)
  {
    hide TakeBer, TakeInts, BlobOf, Str, Ascii, CanonicalForm, OfKey, Continued;
    var item := GetBer(src);
    if src.err || item.id != 2 { return BadAsn1(encrypted); }
    if item.data != [0] { return Failed(Version); }
    o := ReadRest(src, rsa, encrypted);
  }

  method ReadRest(src: BinarySource, rsa: bool, encrypted: bool) returns (o: Outcome<Problem>)
    requires src.Valid() && !src.err
    modifies src
    ensures o == Made(rsa, TakeInts(old(src.View()), if rsa then 8 else 5), encrypted)
  {
    hide TakeBer, TakeInts, BlobOf, Str, Ascii, CanonicalForm, OfKey, Continued, Made;
    var blob := new StrBuf();
    blob.PutString(Name(rsa));
    var count := if rsa then 9 else 6;
    var modulus: Bytes := [];
    var publen := 0;
    ghost var found := TakeInts(src.View(), count - 1);
    ghost var got: seq<Bytes> := [];
    Nothing(rsa, found);
    for i := 1 to count
      invariant src.Valid() && !src.err && |got| == i - 1
      invariant Continued(found, got, TakeInts(src.View(), count - i))
      invariant blob.u == BlobOf(rsa, got, |got|)
      invariant |got| > 0 ==> modulus == got[0]
      invariant |got| >= PublicCount(rsa) ==> publen == |BlobOf(rsa, got, PublicCount(rsa))|
    {
      OneMore(found, got, src.View(), count - i);
      var item := GetBer(src);
      if src.err || item.id != 2 {
        NotMade(rsa, encrypted);
        return BadAsn1(encrypted);
      }
      PutPiece(blob, rsa, i, item.data, modulus, got);
      if |got| >= PublicCount(rsa) { BlobKept(rsa, got, [item.data], PublicCount(rsa)); }
      got := got + [item.data];
      if i == 1 { modulus := item.data; }
      if i == PublicCount(rsa) { publen := |blob.u|; }
    }
    AllGot(found, got, src.View());
    BlobIs(rsa, got, encrypted);
    o := Blobs(blob.u[..publen], blob.u[publen..]);
  }

  lemma Nothing(rsa: bool, found: Option<seq<Bytes>>)
    ensures BlobOf(rsa, [], 0) == Str(Name(rsa)) && Continued(found, [], found)
  {
    assert found.Some? ==> [] + found.value == found.value;
  }

  lemma NotMade(rsa: bool, encrypted: bool)
    ensures Made(rsa, None, encrypted) == BadAsn1(encrypted)
  {
  }

  /** `openssh_pem_read` from the decoded bytes of the file, whatever they are, to the blobs a key is made from. */
  method Read(rsa: bool, blob: Bytes, secret: Option<Secret>, cipher: Cipher) returns (o: Outcome<Problem>)
    ensures o == Parse(rsa, blob, secret, cipher)
  {
    hide TakeBer, ParseInts;
    var plain := blob;
    if secret.Some? {
      plain := cipher.decrypt(secret.value.pass, secret.value.iv, blob);
    }
    var src := new BinarySource(plain);
    var list := GetBer(src);
    if src.err || list.id != 16 { return BadAsn1(secret.Some?); }
    src.Init(list.data);
    o := ReadInts(src, rsa, secret.Some?);
  }

  /** A key read from what was written is the key, if its numbers are in canonical form. */
  method WriteThenRead(rsa: bool, pub: Bytes, priv: Bytes, secret: Option<Secret>, cipher: Cipher, ghost key: Key)
    returns (o: Outcome<Problem>)
    requires pub == PublicBlob(key) && priv == PrivateBlob(key) && rsa == key.Rsa?
    requires Fits(key) && CanonicalKey(key) && Inverse(cipher)
    ensures o == Blobs(pub, priv)
  {
    hide PublicBlob, PrivateBlob, Fits, CanonicalKey, Inverse, Parse, FileBlob;
    var blob := Write(rsa, pub, priv, secret, cipher, key);
    o := Read(rsa, blob, secret, cipher);
    SameKeyIff(key, secret, cipher);
  }
}
