/** Keys as the program holds them: a public and a private blob, each a run of strings. */
module KeyBlobs {
  import opened Basics
  import opened Marshal
  import opened Numbers

  /** The numbers of a key, as bytes. */
  datatype Key =
    | Rsa(e: Bytes, n: Bytes, d: Bytes, p: Bytes, q: Bytes, iqmp: Bytes)
    | Dsa(p: Bytes, q: Bytes, g: Bytes, y: Bytes, x: Bytes)

  function Ascii(s: string): (r: Bytes)
    ensures |r| == |s|
  {
    if s == "" then [] else [Low(s[0] as int)] + Ascii(s[1..])
  }

  /** Strings one after the other. */
  function Strs(ss: seq<Bytes>): Bytes {
    if ss == [] then [] else Str(ss[0]) + Strs(ss[1..])
  }

  function PublicParts(key: Key): seq<Bytes> {
    match key
    case Rsa(e, n, d, p, q, iqmp) => [Ascii("ssh-rsa"), e, n]
    case Dsa(p, q, g, y, x) => [Ascii("ssh-dss"), p, q, g, y]
  }

  function PrivateParts(key: Key): seq<Bytes> {
    match key
    case Rsa(e, n, d, p, q, iqmp) => [d, p, q, iqmp]
    case Dsa(p, q, g, y, x) => [x]
  }

  function PublicBlob(key: Key): Bytes {
    Strs(PublicParts(key))
  }

  function PrivateBlob(key: Key): Bytes {
    Strs(PrivateParts(key))
  }

  /** Each number in the one form section 5 of RFC 4251 allows. */
  function CanonicalForm(key: Key): Key {
    match key
    case Rsa(e, n, d, p, q, iqmp) =>
      Rsa(Canonical(e), Canonical(n), Canonical(d), Canonical(p), Canonical(q), Canonical(iqmp))
    case Dsa(p, q, g, y, x) => Dsa(Canonical(p), Canonical(q), Canonical(g), Canonical(y), Canonical(x))
  }

  predicate CanonicalKey(key: Key) {
    match key
    case Rsa(e, n, d, p, q, iqmp) =>
      IsCanonical(e) && IsCanonical(n) && IsCanonical(d) && IsCanonical(p) && IsCanonical(q) && IsCanonical(iqmp)
    case Dsa(p, q, g, y, x) =>
      IsCanonical(p) && IsCanonical(q) && IsCanonical(g) && IsCanonical(y) && IsCanonical(x)
  }

  lemma CanonicalFormMeans(key: Key)
    ensures CanonicalKey(CanonicalForm(key))
    ensures CanonicalForm(key) == key <==> CanonicalKey(key)
  {
    hide IsCanonical, Canonical;
    match key
    case Rsa(e, n, d, p, q, iqmp) =>
      CanonicalMeans(e); CanonicalMeans(n); CanonicalMeans(d);
      CanonicalMeans(p); CanonicalMeans(q); CanonicalMeans(iqmp);
    case Dsa(p, q, g, y, x) =>
      CanonicalMeans(p); CanonicalMeans(q); CanonicalMeans(g); CanonicalMeans(y); CanonicalMeans(x);
  }

  // ----- strings that can be told apart

  predicate Short(ss: seq<Bytes>) {
    forall i :: 0 <= i < |ss| ==> |ss[i]| < WORD32
  }

  lemma NextString(ss: seq<Bytes>, rest: Bytes)
    requires ss != [] && |ss[0]| < WORD32
    ensures TakeString(Reader(Strs(ss) + rest, false)) == (ss[0], Reader(Strs(ss[1..]) + rest, false))
  {
    hide Str, TakeString;
    Joined(Str(ss[0]), Strs(ss[1..]), rest);
    StringBack(ss[0], Strs(ss[1..]) + rest);
  }

  /** A run of strings can be split in one way only. */
  lemma {:induction false} StrsApart(a: seq<Bytes>, b: seq<Bytes>)
    requires Short(a) && Short(b) && |a| == |b| && Strs(a) == Strs(b)
    ensures a == b
    decreases |a|
  {
    hide Str, TakeString;
    if a != [] {
      NextString(a, []);
      NextString(b, []);
      assert Strs(a) + [] == Strs(b) + [];
      assert Strs(a[1..]) + [] == Strs(a[1..]) && Strs(b[1..]) + [] == Strs(b[1..]);
      StrsApart(a[1..], b[1..]);
      assert a == [a[0]] + a[1..] && b == [b[0]] + b[1..];
    }
  }

  /** The first of the strings a source still holds. */
  method GetNext(src: BinarySource, ghost ss: seq<Bytes>) returns (s: Bytes)
    requires src.Valid() && src.View() == Reader(Strs(ss), false)
    requires ss != [] && |ss[0]| < WORD32
    modifies src
    ensures src.Valid() && src.View() == Reader(Strs(ss[1..]), false)
    ensures s == ss[0]
  {
    hide Strs, TakeString;
    NextString(ss, []);
    assert Strs(ss) + [] == Strs(ss) && Strs(ss[1..]) + [] == Strs(ss[1..]);
    s := src.GetString();
  }

  predicate ShortKey(key: Key) {
    Short(PublicParts(key)) && Short(PrivateParts(key))
  }

  /** The blobs of keys of one kind tell the keys apart. */
  lemma BlobsApart(k: Key, m: Key)
    requires ShortKey(k) && ShortKey(m) && k.Rsa? == m.Rsa?
    requires PublicBlob(k) == PublicBlob(m) && PrivateBlob(k) == PrivateBlob(m)
    ensures k == m
  {
    hide Strs, Ascii;
    var a, b, c, d := PublicParts(k), PublicParts(m), PrivateParts(k), PrivateParts(m);
    StrsApart(a, b);
    StrsApart(c, d);
    assert a[1] == b[1] && a[2] == b[2] && c[0] == d[0];
    if k.Rsa? {
      assert c[1] == d[1] && c[2] == d[2] && c[3] == d[3];
    } else {
      assert a[3] == b[3] && a[4] == b[4];
    }
  }

  /** Numbers with room for one more byte. */
  predicate Roomy(s: Bytes) {
    |s| + 1 < WORD32
  }

  predicate RoomyKey(key: Key) {
    match key
    case Rsa(e, n, d, p, q, iqmp) => Roomy(e) && Roomy(n) && Roomy(d) && Roomy(p) && Roomy(q) && Roomy(iqmp)
    case Dsa(p, q, g, y, x) => Roomy(p) && Roomy(q) && Roomy(g) && Roomy(y) && Roomy(x)
  }

  lemma CanonicalShort(key: Key)
    requires RoomyKey(key)
    ensures ShortKey(key) && ShortKey(CanonicalForm(key))
  {
    hide Canonical, Ascii;
    match key
    case Rsa(e, n, d, p, q, iqmp) =>
      RoomForOne(e); RoomForOne(n); RoomForOne(d); RoomForOne(p); RoomForOne(q); RoomForOne(iqmp);
    case Dsa(p, q, g, y, x) =>
      RoomForOne(p); RoomForOne(q); RoomForOne(g); RoomForOne(y); RoomForOne(x);
  }

  lemma RoomForOne(s: Bytes)
    requires Roomy(s)
    ensures |s| < WORD32 && |Canonical(s)| < WORD32
  {
    CanonicalMeans(s);
  }

  /** Take a key's blobs apart. */
  method RsaParts(pub: Bytes, priv: Bytes, ghost key: Key) returns (r: Key)
    requires key.Rsa? && ShortKey(key) && pub == PublicBlob(key) && priv == PrivateBlob(key)
    ensures r == key
  {
    hide Strs, Ascii;
    var src := new BinarySource(pub);
    ghost var a, b := PublicParts(key), PrivateParts(key);
    var name := GetNext(src, a);
    var e := GetNext(src, a[1..]);
    var n := GetNext(src, a[2..]);
    src.Init(priv);
    var d := GetNext(src, b);
    var p := GetNext(src, b[1..]);
    var q := GetNext(src, b[2..]);
    var iqmp := GetNext(src, b[3..]);
    r := Rsa(e, n, d, p, q, iqmp);
  }

  method DsaParts(pub: Bytes, priv: Bytes, ghost key: Key) returns (r: Key)
    requires key.Dsa? && ShortKey(key) && pub == PublicBlob(key) && priv == PrivateBlob(key)
    ensures r == key
  {
    hide Strs, Ascii;
    var src := new BinarySource(pub);
    ghost var a := PublicParts(key);
    var name := GetNext(src, a);
    var p := GetNext(src, a[1..]);
    var q := GetNext(src, a[2..]);
    var g := GetNext(src, a[3..]);
    var y := GetNext(src, a[4..]);
    src.Init(priv);
    var x := GetNext(src, PrivateParts(key));
    r := Dsa(p, q, g, y, x);
  }

  /** A block cipher under a passphrase and a starting vector. */
  datatype Cipher = Cipher(encrypt: (Bytes, Bytes, Bytes) -> Bytes, decrypt: (Bytes, Bytes, Bytes) -> Bytes)

  /** Whole blocks of eight bytes keep their length, and decrypting undoes encrypting. */
  ghost predicate Inverse(c: Cipher) {
    forall pass, iv, s {:trigger c.encrypt(pass, iv, s)} :: |s| % 8 == 0 ==>
      |c.encrypt(pass, iv, s)| == |s| && c.decrypt(pass, iv, c.encrypt(pass, iv, s)) == s
  }

  /** What reading a key file comes to: the two blobs, or an error, which counts as a wrong passphrase once the file
      has been decrypted. */
  datatype Outcome<E> = Blobs(pub: Bytes, priv: Bytes) | Failed(why: E) | WrongPassphrase(why: E)

  function OfKey<E>(key: Key): Outcome<E> {
    Blobs(PublicBlob(key), PrivateBlob(key))
  }

  lemma IsOfKey<E>(pub: Bytes, priv: Bytes, key: Key)
    requires pub == PublicBlob(key) && priv == PrivateBlob(key)
    ensures Blobs(pub, priv) == OfKey<E>(key)
  {
  }

  lemma SameBlobs<E>(k: Key, m: Key)
    requires ShortKey(k) && ShortKey(m) && k.Rsa? == m.Rsa?
    ensures OfKey<E>(k) == OfKey<E>(m) <==> k == m
  {
    hide PublicBlob, PrivateBlob, ShortKey;
    var a, b := OfKey<E>(k), OfKey<E>(m);
    assert a.pub == PublicBlob(k) && a.priv == PrivateBlob(k) && b.pub == PublicBlob(m) && b.priv == PrivateBlob(m);
    if a == b { BlobsApart(k, m); }
  }

  lemma StrsFour(a: Bytes, b: Bytes, c: Bytes, d: Bytes)
    ensures Strs([a]) == Str(a)
    ensures Strs([a, b, c]) == Str(a) + (Str(b) + Str(c))
    ensures Strs([a, b, c, d]) == Str(a) + (Str(b) + (Str(c) + Str(d)))
  {
    hide Str;
    StrsOne(a);
    StrsOne(c);
    StrsOne(d);
    assert [b, c][1..] == [c] && [a, b, c][1..] == [b, c];
    assert [c, d][1..] == [d] && [b, c, d][1..] == [c, d] && [a, b, c, d][1..] == [b, c, d];
    assert Strs([b, c]) == Str(b) + Str(c);
    assert Strs([c, d]) == Str(c) + Str(d);
    assert Strs([b, c, d]) == Str(b) + Strs([c, d]);
  }

  lemma StrsOne(a: Bytes)
    ensures Strs([a]) == Str(a)
  {
    hide Str;
    assert [a][1..] == [];
    assert Str(a) + [] == Str(a);
  }

  lemma StrsFive(name: Bytes, a: Bytes, b: Bytes, c: Bytes, d: Bytes)
    ensures Strs([name, a, b, c, d]) == Str(name) + (Str(a) + (Str(b) + (Str(c) + Str(d))))
  {
    hide Str;
    assert [name, a, b, c, d][1..] == [a, b, c, d];
    StrsFour(a, b, c, d);
  }

  /** The blobs of a key put together in one buffer, each number in canonical form. */
  method RsaBlobs(e: Bytes, n: Bytes, d: Bytes, p: Bytes, q: Bytes, iqmp: Bytes) returns (pub: Bytes, priv: Bytes)
    ensures var form := CanonicalForm(Rsa(e, n, d, p, q, iqmp)); pub == PublicBlob(form) && priv == PrivateBlob(form)
  {
    hide Str, Ascii, Canonical, Strs;
    var blob := new StrBuf();
    blob.PutString(Ascii("ssh-rsa"));
    PutMpSsh2(blob, e);
    PutMpSsh2(blob, n);
    var publen := |blob.u|;
    ghost var a := blob.u;
    PutMpSsh2(blob, d);
    PutMpSsh2(blob, p);
    PutMpSsh2(blob, q);
    PutMpSsh2(blob, iqmp);
    pub, priv := blob.u[..publen], blob.u[publen..];
    StrsFour(Ascii("ssh-rsa"), Canonical(e), Canonical(n), []);
    StrsFour(Canonical(d), Canonical(p), Canonical(q), Canonical(iqmp));
    assert pub == Str(Ascii("ssh-rsa")) + (Str(Canonical(e)) + Str(Canonical(n)));
    assert priv == Str(Canonical(d)) + (Str(Canonical(p)) + (Str(Canonical(q)) + Str(Canonical(iqmp))));
  }

  method DsaBlobs(p: Bytes, q: Bytes, g: Bytes, y: Bytes, x: Bytes) returns (pub: Bytes, priv: Bytes)
    ensures var form := CanonicalForm(Dsa(p, q, g, y, x)); pub == PublicBlob(form) && priv == PrivateBlob(form)
  {
    hide Str, Ascii, Canonical, Strs;
    var blob := new StrBuf();
    blob.PutString(Ascii("ssh-dss"));
    PutMpSsh2(blob, p);
    PutMpSsh2(blob, q);
    PutMpSsh2(blob, g);
    PutMpSsh2(blob, y);
    var publen := |blob.u|;
    PutMpSsh2(blob, x);
    pub, priv := blob.u[..publen], blob.u[publen..];
    StrsFive(Ascii("ssh-dss"), Canonical(p), Canonical(q), Canonical(g), Canonical(y));
    StrsOne(Canonical(x));
    assert pub == Str(Ascii("ssh-dss"))
           + (Str(Canonical(p)) + (Str(Canonical(q)) + (Str(Canonical(g)) + Str(Canonical(y)))));
  }
}
