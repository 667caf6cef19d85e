/** Private keys in the ssh.com format: the blob a key is written as, and what reading any blob comes to. */
module SshcomFiles {
  import opened Basics
  import opened Marshal
  import opened Numbers
  import opened KeyBlobs

  const MAGIC: nat := 0x3f6f_f9eb
  const PREFIX_RSA := "if-modn{sign{rsa"
  const PREFIX_DSA := "dl-modp{sign{dsa"
  const TYPE_RSA := PREFIX_RSA + "-pkcs1-sha1},encrypt{rsa-pkcs1v2-oaep}}"
  const TYPE_DSA := PREFIX_DSA + "-nist-sha1},dh{plain}}"
  const ZERO_IV: Bytes := [0, 0, 0, 0, 0, 0, 0, 0]

  datatype Problem =
    | NoMagic | UnknownType | UnknownCipher | NoData | NotBlocks | IllFormed | NotSix | Predefined | NotFive

  // ----- what is written

  /** The numbers of a key in the order of the file. */
  function Listed(key: Key): seq<Bytes> {
    match key
    case Rsa(e, n, d, p, q, iqmp) => [e, d, n, iqmp, q, p]
    case Dsa(p, q, g, y, x) => [p, g, q, y, x]
  }

  function Mps(ns: seq<Bytes>): Bytes {
    if ns == [] then [] else MpSshcom(ns[0]) + Mps(ns[1..])
  }

  function Payload(key: Key): Bytes {
    (if key.Dsa? then Be32(0) else []) + Mps(Listed(key))
  }

  function TypeName(key: Key): Bytes {
    Ascii(if key.Rsa? then TYPE_RSA else TYPE_DSA)
  }

  function CipherName(encrypted: bool): Bytes {
    Ascii(if encrypted then "3des-cbc" else "none")
  }

  /** How many bytes fill the last block. */
  function Filling(n: nat): (k: nat)
    ensures k < 8 && (n + k) % 8 == 0
  {
    (8 - n % 8) % 8
  }

  function Plain(key: Key, encrypted: bool, noise: Bytes): Bytes
    requires |noise| == 8
  {
    var s := Str(Payload(key));
    s + if encrypted then noise[..Filling(|s|)] else []
  }

  function Sealed(plain: Bytes, pass: Option<Bytes>, cipher: Cipher): Bytes {
    if pass.Some? then cipher.encrypt(pass.value, ZERO_IV, plain) else plain
  }

  /** All that follows the magic number and the length. */
  function Tail(key: Key, encrypted: bool, body: Bytes): Bytes {
    Str(TypeName(key)) + (Str(CipherName(encrypted)) + Str(body))
  }

  function FileBlob(key: Key, pass: Option<Bytes>, noise: Bytes, cipher: Cipher): Bytes
    requires |noise| == 8
  {
    var tail := Tail(key, pass.Some?, Sealed(Plain(key, pass.Some?, noise), pass, cipher));
    Be32(MAGIC) + (Be32(8 + |tail|) + tail)
  }

  /** The bits of a number fit an `int`. */
  predicate Countable(s: Bytes) {
    8 * |s| - 1 < 0x8000_0000
  }

  predicate AllCountable(ns: seq<Bytes>) {
    forall i :: 0 <= i < |ns| ==> Countable(ns[i])
  }

  /** What the source's `int` counters can hold. */
  predicate Fits(key: Key) {
    AllCountable(Listed(key)) && |Payload(key)| < 0x7fff_ff00
  }

  // ----- what is read

  predicate StartsWith(s: Bytes, prefix: Bytes) {
    |s| > |prefix| && s[..|prefix|] == prefix
  }

  function TakeMps(r: Reader, n: nat): (res: (seq<Bytes>, Reader))
    ensures |res.0| == n
    decreases n
  {
    if n == 0 then ([], r)
    else
      var (s, r1) := TakeMpSshcom(r);
      var (ss, r2) := TakeMps(r1, n - 1);
      ([s] + ss, r2)
  }

  /** A key from the numbers of the file; those called p and q there are q and p here. */
  function RsaOf(ns: seq<Bytes>): Key
    requires |ns| == 6
  {
    Rsa(ns[0], ns[2], ns[1], ns[5], ns[4], ns[3])
  }

  function DsaOf(ns: seq<Bytes>): Key
    requires |ns| == 5
  {
    Dsa(ns[0], ns[2], ns[1], ns[3], ns[4])
  }

  datatype Found = Found(key: Key) | Missing(why: Problem)

  function ParseNumbers(rsa: bool, r: Reader): Found {
    if rsa then
      var (ns, r1) := TakeMps(r, 6);
      if r1.err then Missing(NotSix) else Found(RsaOf(ns))
    else
      var (zero, r1) := TakeUint32(r);
      if zero != 0 then Missing(Predefined)
      else
        var (ns, r2) := TakeMps(r1, 5);
        if r2.err then Missing(NotFive) else Found(DsaOf(ns))
  }

  function ParsePlain(rsa: bool, plain: Bytes): Found {
    var (str, r) := TakeString(Reader(plain, false));
    if r.err then Missing(IllFormed) else ParseNumbers(rsa, Reader(str, false))
  }

  function Finished(f: Found, encrypted: bool): Outcome<Problem> {
    match f
    case Found(key) => OfKey(CanonicalForm(key))
    case Missing(why) => if encrypted then WrongPassphrase(why) else Failed(why)
  }

  function ParseBody(rsa: bool, body: Bytes, encrypted: bool, pass: Bytes, cipher: Cipher): Outcome<Problem> {
    if body == [] then Failed(NoData)
    else if encrypted && |body| % 8 != 0 then Failed(NotBlocks)
    else Finished(ParsePlain(rsa, if encrypted then cipher.decrypt(pass, ZERO_IV, body) else body), encrypted)
  }

  function ParseTail(r: Reader, pass: Bytes, cipher: Cipher): Outcome<Problem> {
    var (t, r1) := TakeString(r);
    var rsa := StartsWith(t, Ascii(PREFIX_RSA));
    if !rsa && !StartsWith(t, Ascii(PREFIX_DSA)) then Failed(UnknownType)
    else
      var (c, r2) := TakeString(r1);
      if c != CipherName(false) && c != CipherName(true) then Failed(UnknownCipher)
      else
        var (body, r3) := TakeString(r2);
        ParseBody(rsa, body, c == CipherName(true), pass, cipher)
  }

  /** `sshcom_read` on any blob. */
  function Parse(blob: Bytes, pass: Bytes, cipher: Cipher): Outcome<Problem> {
    var (magic, r) := TakeUint32(Reader(blob, false));
    if magic != MAGIC then Failed(NoMagic) else ParseTail(TakeUint32(r).1, pass, cipher)
  }

  // ----- writing, then reading

  function TrimAll(ns: seq<Bytes>): (r: seq<Bytes>)
    ensures |r| == |ns|
  {
    if ns == [] then [] else [Trimmed(ns[0])] + TrimAll(ns[1..])
  }

  lemma {:induction false} TrimAllAt(ns: seq<Bytes>, i: nat)
    requires i < |ns|
    ensures TrimAll(ns)[i] == Trimmed(ns[i])
    decreases |ns|
  {
    hide Trimmed;
    if i > 0 { TrimAllAt(ns[1..], i - 1); }
  }

  lemma {:induction false} MpsBack(ns: seq<Bytes>, rest: Bytes)
    requires AllCountable(ns)
    ensures TakeMps(Reader(Mps(ns) + rest, false), |ns|) == (TrimAll(ns), Reader(rest, false))
    decreases |ns|
  {
    hide TakeMpSshcom, MpSshcom, Trimmed, TakeMps, Countable;
    if ns == [] {
      assert Mps(ns) + rest == rest;
      NoMore(Reader(rest, false));
    } else {
      var after := Mps(ns[1..]);
      Joined(MpSshcom(ns[0]), after, rest);
      FirstBack(ns[0], after + rest);
      OneMore(Reader(Mps(ns) + rest, false), |ns|);
      MpsBack(ns[1..], rest);
    }
  }

  lemma FirstBack(s: Bytes, rest: Bytes)
    requires Countable(s)
    ensures TakeMpSshcom(Reader(MpSshcom(s) + rest, false)) == (Trimmed(s), Reader(rest, false))
  {
    MpSshcomBack(s, rest);
  }

  /** A key whose numbers are those of another but for leading zeros. */
  predicate SameButZeros(k: Key, key: Key) {
    match key
    case Rsa(e, n, d, p, q, iqmp) =>
      k == Rsa(Trimmed(e), Trimmed(n), Trimmed(d), Trimmed(p), Trimmed(q), Trimmed(iqmp))
    case Dsa(p, q, g, y, x) => k == Dsa(Trimmed(p), Trimmed(q), Trimmed(g), Trimmed(y), Trimmed(x))
  }

  lemma SameForm(k: Key, key: Key)
    requires SameButZeros(k, key)
    ensures CanonicalForm(k) == CanonicalForm(key)
  {
    hide Trimmed, Canonical;
    match key
    case Rsa(e, n, d, p, q, iqmp) =>
      TrimmedForm(e); TrimmedForm(n); TrimmedForm(d); TrimmedForm(p); TrimmedForm(q); TrimmedForm(iqmp);
    case Dsa(p, q, g, y, x) =>
      TrimmedForm(p); TrimmedForm(q); TrimmedForm(g); TrimmedForm(y); TrimmedForm(x);
  }

  lemma TrimmedParts(key: Key)
    ensures var ts := TrimAll(Listed(key)); SameButZeros(if key.Rsa? then RsaOf(ts) else DsaOf(ts), key)
  {
    hide Trimmed, TrimAll;
    var ns := Listed(key);
    TrimAllAt(ns, 0);
    TrimAllAt(ns, 1);
    TrimAllAt(ns, 2);
    TrimAllAt(ns, 3);
    TrimAllAt(ns, 4);
    if key.Rsa? { TrimAllAt(ns, 5); }
  }

  /** The numbers come back under their own names: the file's order is undone. */
  lemma NumbersBack(key: Key)
    requires Fits(key)
    ensures var f := ParseNumbers(key.Rsa?, Reader(Payload(key), false)); f.Found? && SameButZeros(f.key, key)
  {
    hide TakeMps, TakeUint32, Mps, Trimmed, Be32, TrimAll;
    var ns := Listed(key);
    var mps := Mps(ns);
    MpsBack(ns, []);
    assert mps + [] == mps;
    TrimmedParts(key);
    if key.Rsa? {
      assert [] + mps == mps;
    } else {
      Uint32Back(0, mps);
    }
  }

  lemma PlainBack(key: Key, encrypted: bool, noise: Bytes)
    requires Fits(key) && |noise| == 8
    ensures var f := ParsePlain(key.Rsa?, Plain(key, encrypted, noise)); f.Found? && SameButZeros(f.key, key)
  {
    hide TakeString, Str, Payload, ParseNumbers, SameButZeros, Filling;
    var payload := Payload(key);
    var pad := if encrypted then noise[..Filling(|Str(payload)|)] else [];
    StringBack(payload, pad);
    NumbersBack(key);
  }

  lemma BodyBack(key: Key, pass: Option<Bytes>, noise: Bytes, cipher: Cipher)
    requires Fits(key) && |noise| == 8 && Inverse(cipher)
    ensures var body := Sealed(Plain(key, pass.Some?, noise), pass, cipher);
            |body| < WORD32
            && forall p :: (pass.Some? ==> p == pass.value) ==>
                 ParseBody(key.Rsa?, body, pass.Some?, p, cipher) == OfKey(CanonicalForm(key))
  {
    hide ParsePlain, Str, Payload, SameButZeros, CanonicalForm, Filling;
    var plain := Plain(key, pass.Some?, noise);
    PlainBack(key, pass.Some?, noise);
    var f := ParsePlain(key.Rsa?, plain);
    SameForm(f.key, key);
    assert |plain| > 0;
    assert pass.Some? ==> |plain| % 8 == 0;
  }

  lemma {:induction false} AsciiPrefix(s: string, k: nat)
    requires k <= |s|
    ensures Ascii(s)[..k] == Ascii(s[..k])
    decreases k
  {
    if k > 0 {
      AsciiPrefix(s[1..], k - 1);
      assert s[..k][1..] == s[1..][..k - 1];
      assert s[..k] == [s[0]] + s[1..][..k - 1];
    }
  }

  lemma Begins(t: string, u: string)
    requires u != ""
    ensures StartsWith(Ascii(t + u), Ascii(t))
  {
    AsciiPrefix(t + u, |t|);
    assert (t + u)[..|t|] == t;
  }

  lemma FirstChar(s: string)
    requires s != ""
    ensures Ascii(s) != [] && Ascii(s)[0] == Low(s[0] as int)
  {
  }

  lemma Differs(s: Bytes, t: Bytes)
    requires s != [] && t != [] && s[0] != t[0]
    ensures !StartsWith(s, t)
  {
  }

  /** The names the writer uses are those the reader looks for, and it cannot mistake one for another. */
  lemma NamesKnown()
    ensures StartsWith(Ascii(TYPE_RSA), Ascii(PREFIX_RSA)) && StartsWith(Ascii(TYPE_DSA), Ascii(PREFIX_DSA))
    ensures !StartsWith(Ascii(TYPE_DSA), Ascii(PREFIX_RSA))
    ensures CipherName(true) != CipherName(false)
  {
    hide StartsWith, Ascii;
    Begins(PREFIX_RSA, "-pkcs1-sha1},encrypt{rsa-pkcs1v2-oaep}}");
    Begins(PREFIX_DSA, "-nist-sha1},dh{plain}}");
    FirstChar(PREFIX_RSA);
    FirstChar(TYPE_DSA);
    Differs(Ascii(TYPE_DSA), Ascii(PREFIX_RSA));
    CiphersDiffer();
  }

  lemma CiphersDiffer()
    ensures CipherName(true) != CipherName(false)
  {
    hide Ascii;
    assert |CipherName(true)| == 8 && |CipherName(false)| == 4;
  }

  lemma TailBack(key: Key, pass: Option<Bytes>, noise: Bytes, cipher: Cipher, p: Bytes)
    requires Fits(key) && |noise| == 8 && Inverse(cipher) && (pass.Some? ==> p == pass.value)
    ensures ParseTail(Reader(Tail(key, pass.Some?, Sealed(Plain(key, pass.Some?, noise), pass, cipher)), false), p,
                      cipher)
         == OfKey(CanonicalForm(key))
  {
    hide TakeString, Str, Ascii, ParseBody, StartsWith, Sealed, Plain, CanonicalForm, Inverse, Fits;
    var body := Sealed(Plain(key, pass.Some?, noise), pass, cipher);
    BodyBack(key, pass, noise, cipher);
    StringBack(TypeName(key), Str(CipherName(pass.Some?)) + Str(body));
    StringBack(CipherName(pass.Some?), Str(body));
    StringBack(body, []);
    assert Str(body) + [] == Str(body);
    NamesKnown();
  }

  /** What was written is read back, with any passphrase if there was none and with the right one otherwise: the same
      numbers under the same names, each in canonical form. */
  lemma RoundTrip(key: Key, pass: Option<Bytes>, noise: Bytes, cipher: Cipher, p: Bytes)
    requires Fits(key) && |noise| == 8 && Inverse(cipher) && (pass.Some? ==> p == pass.value)
    ensures Parse(FileBlob(key, pass, noise, cipher), p, cipher) == OfKey(CanonicalForm(key))
  {
    hide Be32, TakeUint32, Tail, Sealed, Plain, ParseTail, CanonicalForm, Inverse, Fits;
    var tail := Tail(key, pass.Some?, Sealed(Plain(key, pass.Some?, noise), pass, cipher));
    Uint32Back(MAGIC, Be32(8 + |tail|) + tail);
    Uint32Back(8 + |tail|, tail);
    TailBack(key, pass, noise, cipher, p);
  }

  lemma FitsIsRoomy(key: Key)
    requires Fits(key)
    ensures RoomyKey(key)
  {
    var ns := Listed(key);
    hide Payload;
    assert Countable(ns[0]) && Countable(ns[1]) && Countable(ns[2]) && Countable(ns[3]) && Countable(ns[4]);
    assert key.Rsa? ==> Countable(ns[5]);
  }

  /** The key itself comes back exactly if all its numbers are in canonical form. */
  lemma SameKeyIff(key: Key, pass: Option<Bytes>, noise: Bytes, cipher: Cipher, p: Bytes)
    requires Fits(key) && |noise| == 8 && Inverse(cipher) && (pass.Some? ==> p == pass.value)
    ensures Parse(FileBlob(key, pass, noise, cipher), p, cipher) == OfKey(key) <==> CanonicalKey(key)
  {
    hide Parse, FileBlob, CanonicalKey, PublicBlob, PrivateBlob, ShortKey, Inverse, Fits, RoomyKey;
    RoundTrip(key, pass, noise, cipher, p);
    CanonicalFormMeans(key);
    FitsIsRoomy(key);
    CanonicalShort(key);
    SameBlobs<Problem>(CanonicalForm(key), key);
  }

  /** Whatever file a key was read from, its numbers are in canonical form; written out again, under any passphrase,
      it is read as the same key. */
  lemma ReadIsStable(blob: Bytes, p: Bytes, cipher: Cipher) returns (key: Key)
    requires Parse(blob, p, cipher).Blobs?
    ensures CanonicalKey(key) && Parse(blob, p, cipher) == OfKey(key)
    ensures Fits(key) ==>
            forall pass: Option<Bytes>, noise: Bytes, c: Cipher,
            p' {:trigger Parse(FileBlob(key, pass, noise, c), p', c)} ::
              |noise| == 8 && Inverse(c) && (pass.Some? ==> p' == pass.value) ==>
                Parse(FileBlob(key, pass, noise, c), p', c) == Parse(blob, p, cipher)
  {
    key := ReadKey(blob, p, cipher);
    Rewritten(key);
  }

  lemma ReadKey(blob: Bytes, p: Bytes, cipher: Cipher) returns (key: Key)
    requires Parse(blob, p, cipher).Blobs?
    ensures CanonicalKey(key) && Parse(blob, p, cipher) == OfKey(key)
  {
    hide TakeString, TakeUint32, ParsePlain, CanonicalForm, CanonicalKey, StartsWith, CipherName, Ascii;
    var r := TakeUint32(TakeUint32(Reader(blob, false)).1).1;
    var (t, r1) := TakeString(r);
    var (c, r2) := TakeString(r1);
    var (body, r3) := TakeString(r2);
    var f := ParsePlain(StartsWith(t, Ascii(PREFIX_RSA)),
                        if c == CipherName(true) then cipher.decrypt(p, ZERO_IV, body) else body);
    key := CanonicalForm(f.key);
    CanonicalFormMeans(f.key);
  }

  lemma Rewritten(key: Key)
    requires CanonicalKey(key)
    ensures Fits(key) ==>
            forall pass: Option<Bytes>, noise: Bytes, c: Cipher,
            p {:trigger Parse(FileBlob(key, pass, noise, c), p, c)} ::
              |noise| == 8 && Inverse(c) && (pass.Some? ==> p == pass.value) ==>
                Parse(FileBlob(key, pass, noise, c), p, c) == OfKey(key)
  {
    hide Parse, FileBlob, CanonicalKey, CanonicalForm, Inverse, Fits;
    CanonicalFormMeans(key);
    if Fits(key) {
      forall pass: Option<Bytes>, noise: Bytes, c: Cipher, p | |noise| == 8 && Inverse(c)
      && (pass.Some? ==> p == pass.value)
        ensures Parse(FileBlob(key, pass, noise, c), p, c) == OfKey(key)
      {
        RoundTrip(key, pass, noise, c, p);
      }
    }
  }

  /** The length field counts the whole file, and what is encrypted is whole blocks. */
  lemma LengthsRight(key: Key, pass: Option<Bytes>, noise: Bytes, cipher: Cipher)
    requires Fits(key) && |noise| == 8 && Inverse(cipher)
    ensures var blob := FileBlob(key, pass, noise, cipher);
            FromBe32(blob[4..8]) == |blob| && |blob| < 0x8000_0000
    ensures pass.Some? ==> |Plain(key, true, noise)| % 8 == 0
  {
    hide Be32, FromBe32, Ascii, Payload;
    var blob := FileBlob(key, pass, noise, cipher);
    assert blob[4..8] == Be32(|blob|);
    Be32Reads(|blob|);
    SmallMod(|blob|, WORD32);
  }

  // ----- what the file says

  /** The bytes are numbers, one after the other and nothing else, with these values: each with the count of its bits,
      zero counting none or one, and as many bytes as they fill. */
  ghost predicate AreMps(s: Bytes, vs: seq<nat>)
    decreases |vs|
  {
    if vs == [] then s == []
    else
      var (bits, r) := TakeUint32(Reader(s, false));
      var (b, r') := Take(r, (bits + 7) / 8);
      && !r'.err && Value(b) == vs[0] && (bits == BitLength(vs[0]) || (vs[0] == 0 && bits == 1))
      && AreMps(r'.rest, vs[1..])
  }

  function Values(ns: seq<Bytes>): (vs: seq<nat>)
    ensures |vs| == |ns|
  {
    if ns == [] then [] else [Value(ns[0])] + Values(ns[1..])
  }

  lemma {:induction false} MpsAre(ns: seq<Bytes>)
    requires AllCountable(ns)
    ensures AreMps(Mps(ns), Values(ns))
    decreases |ns|
  {
    hide Countable, TakeUint32, Take, Value, Be32, Trimmed, BitLength;
    if ns != [] {
      MpIs(ns[0], Mps(ns[1..]));
      MpsAre(ns[1..]);
    }
  }

  lemma MpIs(s: Bytes, rest: Bytes)
    requires Countable(s)
    ensures var (bits, r) := TakeUint32(Reader(MpSshcom(s) + rest, false));
            var (b, r') := Take(r, (bits + 7) / 8);
            r' == Reader(rest, false) && Value(b) == Value(s)
            && (bits == BitLength(Value(s)) || (Value(s) == 0 && bits == 1))
  {
    hide Be32, Trimmed, Bits, TakeUint32, Take, Value, BitLength;
    var t := Trimmed(s);
    Joined(Be32(Bits(t)), t, rest);
    BytesForBits(t);
    BitsBound(t);
    Uint32Back(Bits(t), t + rest);
    TakeFront(t, rest);
    TrimmedValue(s);
    BitsWritten(s);
  }

  /** The numbers of a key in their order: for RSA the public exponent, the private one, the modulus, the inverse and
      the two primes, the second one first; for DSA, after a zero word, the prime, the generator, the order, and the
      public and private value. */
  ghost predicate Tells(payload: Bytes, key: Key) {
    match key
    case Rsa(e, n, d, p, q, iqmp) =>
      AreMps(payload, [Value(e), Value(d), Value(n), Value(iqmp), Value(q), Value(p)])
    case Dsa(p, q, g, y, x) =>
      && |payload| >= 4 && payload[..4] == [0, 0, 0, 0]
      && AreMps(payload[4..], [Value(p), Value(g), Value(q), Value(y), Value(x)])
  }

  lemma PayloadTells(key: Key)
    requires Fits(key)
    ensures Tells(Payload(key), key)
  {
    hide AreMps, Mps, Value;
    MpsAre(Listed(key));
    ValuesAre(Listed(key));
    match key
    case Rsa(e, n, d, p, q, iqmp) =>
      assert Values([e, d, n, iqmp, q, p]) == [Value(e), Value(d), Value(n), Value(iqmp), Value(q), Value(p)];
      assert Payload(key) == Mps(Listed(key));
    case Dsa(p, q, g, y, x) =>
      assert Values([p, g, q, y, x]) == [Value(p), Value(g), Value(q), Value(y), Value(x)];
      assert Payload(key)[4..] == Mps(Listed(key)) && Payload(key)[..4] == Be32(0);
  }

  lemma {:induction false} ValuesAre(ns: seq<Bytes>)
    ensures forall i :: 0 <= i < |ns| ==> Values(ns)[i] == Value(ns[i])
    decreases |ns|
  {
    hide Value;
    if ns != [] {
      ValuesAre(ns[1..]);
      forall i | 0 < i < |ns| ensures Values(ns)[i] == Value(ns[i]) {
        assert Values(ns)[i] == Values(ns[1..])[i - 1] && ns[i] == ns[1..][i - 1];
      }
    }
  }

  /** What is in a written file: the magic number, the length of all, the names of key type and cipher, and a string
      that, once decrypted, holds a string of the key's numbers, and after it less than a block of noise. */
  lemma FileTells(key: Key, pass: Option<Bytes>, noise: Bytes, cipher: Cipher) returns (body: Bytes, payload: Bytes)
    requires Fits(key) && |noise| == 8 && Inverse(cipher)
    ensures var blob := FileBlob(key, pass, noise, cipher);
            blob == Be32(0x3f6f_f9eb) + (Be32(|blob|) + (Str(Ascii(if key.Rsa? then TYPE_RSA else TYPE_DSA))
                    + (Str(Ascii(if pass.Some? then "3des-cbc" else "none")) + Str(body))))
    ensures Tells(payload, key)
    ensures var plain := if pass.None? then body else cipher.decrypt(pass.value, [0, 0, 0, 0, 0, 0, 0, 0], body);
            if pass.None? then plain == Str(payload)
            else exists k: nat :: k < 8 && plain == Str(payload) + noise[..k] && |plain| % 8 == 0
  {
    hide Be32, Str, Ascii, Payload, Fits, Filling, Tells;
    payload := Payload(key);
    PayloadTells(key);
    var plain := Plain(key, pass.Some?, noise);
    body := Sealed(plain, pass, cipher);
    assert pass.None? ==> Str(payload) + [] == Str(payload);
  }

  /** What a file calls its cipher. */
  ghost function SaidCipher(blob: Bytes): Bytes {
    TakeString(TakeString(TakeUint32(TakeUint32(Reader(blob, false)).1).1).1).0
  }

  /** A failure counts as a wrong passphrase exactly if the file names the cipher and the failure lies in what has been
      decrypted. */
  lemma WhenRefused(blob: Bytes, pass: Bytes, cipher: Cipher)
    ensures var o := Parse(blob, pass, cipher);
            o.Blobs? || (o.WrongPassphrase? <==>
                           SaidCipher(blob) == Ascii("3des-cbc") && o.why in {IllFormed, NotSix, Predefined, NotFive})
  {
    hide TakeString, TakeUint32, TakeMps, StartsWith, Ascii, CanonicalForm;
    CiphersDiffer();
  }

  // ----- the writer

  method PutNumbers(out: StrBuf, ns: seq<Bytes>)
    requires AllCountable(ns)
    modifies out
    ensures out.u == old(out.u) + Mps(ns)
  {
    hide MpSshcom;
    for i := 0 to |ns|
      invariant out.u + Mps(ns[i..]) == old(out.u) + Mps(ns)
    {
      ghost var before := out.u;
      PutMpSshcom(out, ns[i]);
      Joined(before, MpSshcom(ns[i]), Mps(ns[i + 1..]));
      assert ns[i..][1..] == ns[i + 1..];
    }
  }

  /** Fill in a length left open before. */
  method FillIn(out: StrBuf, pos: nat, n: nat, ghost before: Bytes, ghost open: Bytes, ghost after: Bytes)
    requires out.u == before + open + after && |before| == pos && |open| == 4
    modifies out
    ensures out.u == before + Be32(n) + after
  {
    hide Be32;
    out.Patch32(pos, n);
    assert old(out.u)[..pos] == before && old(out.u)[pos + 4..] == after;
  }

  /** The payload as a string, the length of which is filled in after it. */
  method PutPayload(out: StrBuf, key: Key)
    requires Fits(key)
    modifies out
    ensures out.u == old(out.u) + Str(Payload(key))
  {
    hide Be32, Mps;
    var start := |out.u|;
    out.PutUint32(0);
    if key.Dsa? {
      out.PutUint32(0);
    }
    PutNumbers(out, Listed(key));
    assert out.u == old(out.u) + Be32(0) + Payload(key);
    FillIn(out, start, |out.u| - (start + 4), old(out.u), Be32(0), Payload(key));
    Joined(old(out.u), Be32(|Payload(key)|), Payload(key));
  }

  /** The part to be encrypted as a string, padded to whole blocks if it will be. */
  method PutBody(out: StrBuf, key: Key, encrypted: bool, noise: Bytes)
    requires Fits(key) && |noise| == 8
    modifies out
    ensures out.u == old(out.u) + Str(Plain(key, encrypted, noise))
  {
    hide Be32, Payload, Filling, Fits;
    var lenpos := |out.u|;
    out.PutUint32(0);
    PutPayload(out, key);
    if encrypted {
      var padding := Filling(|out.u| - (lenpos + 4));
      out.PutData(noise[..padding]);
    }
    ghost var plain := Plain(key, encrypted, noise);
    assert out.u == old(out.u) + Be32(0) + plain;
    FillIn(out, lenpos, |out.u| - (lenpos + 4), old(out.u), Be32(0), plain);
    Joined(old(out.u), Be32(|plain|), plain);
  }

  /** Encrypt in place what follows a position. */
  method Encrypt(out: StrBuf, pos: nat, pass: Bytes, cipher: Cipher)
    requires pos <= |out.u|
    modifies out
    ensures out.u == old(out.u)[..pos] + cipher.encrypt(pass, ZERO_IV, old(out.u)[pos..])
  {
    out.u := out.u[..pos] + cipher.encrypt(pass, ZERO_IV, out.u[pos..]);
  }

  /** `sshcom_write`, up to the bytes it saves: lengths are left open and filled in once they are known.  The numbers
      are taken from the key's own blobs. */
  method Write(rsa: bool, pub: Bytes, priv: Bytes, pass: Option<Bytes>, noise: Bytes, cipher: Cipher, ghost key: Key)
    returns (blob: Bytes)
    requires pub == PublicBlob(key) && priv == PrivateBlob(key) && rsa == key.Rsa?
    requires Fits(key) && |noise| == 8 && Inverse(cipher)
    ensures blob == FileBlob(key, pass, noise, cipher)
  {
    hide Ascii, PublicBlob, PrivateBlob, ShortKey, RoomyKey, FileBlob, Fits, Inverse, Plain, Str, Be32;
    FitsIsRoomy(key);
    CanonicalShort(key);
    var k: Key;
    if rsa { k := RsaParts(pub, priv, key); } else { k := DsaParts(pub, priv, key); }
    blob := WriteKey(k, pass, noise, cipher);
  }

  method PutHeader(out: StrBuf, key: Key, encrypted: bool)
    requires out.u == []
    modifies out
    ensures out.u == Be32(MAGIC) + Be32(0) + (Str(TypeName(key)) + Str(CipherName(encrypted)))
  {
    hide Ascii, Be32, Str;
    out.PutUint32(MAGIC);
    out.PutUint32(0);
    out.PutString(TypeName(key));
    out.PutString(CipherName(encrypted));
  }

  /** The file before it is encrypted. */
  function Open(key: Key, encrypted: bool, noise: Bytes): Bytes
    requires |noise| == 8
  {
    var after := Str(TypeName(key)) + Str(CipherName(encrypted)) + Str(Plain(key, encrypted, noise));
    Be32(MAGIC) + Be32(8 + |after|) + after
  }

  method WriteKey(key: Key, pass: Option<Bytes>, noise: Bytes, cipher: Cipher) returns (blob: Bytes)
    requires Fits(key) && |noise| == 8 && Inverse(cipher)
    ensures blob == FileBlob(key, pass, noise, cipher)
  {
    hide Ascii, FileBlob, Fits, Inverse, Plain, Be32, Payload, Str;
    var out := new StrBuf();
    ghost var head := Str(TypeName(key)) + Str(CipherName(pass.Some?));
    ghost var plain := Plain(key, pass.Some?, noise);
    PutHeader(out, key, pass.Some?);
    var lenpos := |out.u|;
    PutBody(out, key, pass.Some?, noise);
    Joined(Be32(MAGIC) + Be32(0), head, Str(plain));
    FillIn(out, 4, |out.u|, Be32(MAGIC), Be32(0), head + Str(plain));
    assert out.u == Open(key, pass.Some?, noise);
    if pass.Some? {
      Encrypt(out, lenpos + 4, pass.value, cipher);
    }
    blob := out.u;
    Assembled(key, pass, noise, cipher, lenpos + 4);
  }

  lemma Assembled(key: Key, pass: Option<Bytes>, noise: Bytes, cipher: Cipher, pos: nat)
    requires Fits(key) && |noise| == 8 && Inverse(cipher)
    requires pos == 8 + |Str(TypeName(key))| + |Str(CipherName(pass.Some?))| + 4
    ensures var u := Open(key, pass.Some?, noise);
            pos <= |u|
            && FileBlob(key, pass, noise, cipher)
               == if pass.Some? then u[..pos] + cipher.encrypt(pass.value, ZERO_IV, u[pos..]) else u
  {
    hide Ascii, Fits, Be32, Payload, Filling, Plain;
    var u, plain := Open(key, pass.Some?, noise), Plain(key, pass.Some?, noise);
    Sealable(key, noise);
    var t, c := Str(TypeName(key)), Str(CipherName(pass.Some?));
    var head := Be32(MAGIC) + Be32(|u|) + (t + c + Be32(|plain|));
    assert u == head + plain;
    assert u[..pos] == head && u[pos..] == plain;
    var sealed := Sealed(plain, pass, cipher);
    assert |sealed| == |plain|;
    assert FileBlob(key, pass, noise, cipher) == head + sealed;
  }

  lemma Sealable(key: Key, noise: Bytes)
    requires |noise| == 8
    ensures |Plain(key, true, noise)| % 8 == 0
  {
    hide Payload, Str, Filling;
  }

  // ----- the reader

  lemma OneMore(r: Reader, n: nat)
    requires n > 0
    ensures var (s, r1) := TakeMpSshcom(r);
            TakeMps(r, n) == ([s] + TakeMps(r1, n - 1).0, TakeMps(r1, n - 1).1)
  {
  }

  /** The numbers of an RSA key, and its blobs in the program's own order. */
  method ReadRsa(src: BinarySource) returns (o: Outcome<Problem>)
    requires src.Valid()
    modifies src
    ensures o == Finished(ParseNumbers(true, old(src.View())), false)
  {
    hide TakeMpSshcom, TakeMps, CanonicalForm, OfKey, PublicBlob, PrivateBlob;
    ghost var r := src.View();
    OneMore(r, 6);
    var e := GetMpSshcom(src);
    OneMore(src.View(), 5);
    var d := GetMpSshcom(src);
    OneMore(src.View(), 4);
    var n := GetMpSshcom(src);
    OneMore(src.View(), 3);
    var u := GetMpSshcom(src);
    OneMore(src.View(), 2);
    var p := GetMpSshcom(src);
    OneMore(src.View(), 1);
    var q := GetMpSshcom(src);
    NoMore(src.View());
    assert TakeMps(r, 6).0 == [e, d, n, u, p, q];
    if src.err { return Failed(NotSix); }
    var pub, priv := RsaBlobs(e, n, d, q, p, u);
    o := Blobs(pub, priv);
    assert Rsa(e, n, d, q, p, u) == RsaOf([e, d, n, u, p, q]);
    IsOfKey<Problem>(pub, priv, CanonicalForm(Rsa(e, n, d, q, p, u)));
  }

  method ReadDsa(src: BinarySource) returns (o: Outcome<Problem>)
    requires src.Valid()
    modifies src
    ensures o == Finished(ParseNumbers(false, old(src.View())), false)
  {
    hide TakeMpSshcom, TakeMps, TakeUint32, CanonicalForm, OfKey, PublicBlob, PrivateBlob;
    var zero := src.GetUint32();
    if zero != 0 { return Failed(Predefined); }
    ghost var r := src.View();
    OneMore(r, 5);
    var p := GetMpSshcom(src);
    OneMore(src.View(), 4);
    var g := GetMpSshcom(src);
    OneMore(src.View(), 3);
    var q := GetMpSshcom(src);
    OneMore(src.View(), 2);
    var y := GetMpSshcom(src);
    OneMore(src.View(), 1);
    var x := GetMpSshcom(src);
    NoMore(src.View());
    assert TakeMps(r, 5).0 == [p, g, q, y, x];
    if src.err { return Failed(NotFive); }
    var pub, priv := DsaBlobs(p, q, g, y, x);
    o := Blobs(pub, priv);
    assert Dsa(p, q, g, y, x) == DsaOf([p, g, q, y, x]);
    IsOfKey<Problem>(pub, priv, CanonicalForm(Dsa(p, q, g, y, x)));
  }

  lemma NoMore(r: Reader)
    ensures TakeMps(r, 0) == ([], r)
  {
  }

  /** `sshcom_read` from the decoded bytes of the file, whatever they are, to the blobs a key is made from. */
  method Read(blob: Bytes, pass: Bytes, cipher: Cipher) returns (o: Outcome<Problem>)
    ensures o == Parse(blob, pass, cipher)
  {
    hide TakeString, TakeUint32, ParseBody, StartsWith, Ascii;
    var src := new BinarySource(blob);
    var magic := src.GetUint32();
    if magic != MAGIC { return Failed(NoMagic); }
    var length := src.GetUint32();
    var str := src.GetString();
    var rsa := StartsWith(str, Ascii(PREFIX_RSA));
    if !rsa && !StartsWith(str, Ascii(PREFIX_DSA)) { return Failed(UnknownType); }
    str := src.GetString();
    var encrypted := false;
    if str == CipherName(false) {
    } else if str == CipherName(true) {
      encrypted := true;
    } else {
      return Failed(UnknownCipher);
    }
    var ciphertext := src.GetString();
    CiphersDiffer();
    o := ReadBody(rsa, ciphertext, encrypted, pass, cipher);
  }

  method ReadBody(rsa: bool, ciphertext: Bytes, encrypted: bool, pass: Bytes, cipher: Cipher)
    returns (o: Outcome<Problem>)
    ensures o == ParseBody(rsa, ciphertext, encrypted, pass, cipher)
  {
    hide TakeString, ParseNumbers, CanonicalForm, PublicBlob, PrivateBlob;
    if |ciphertext| == 0 { return Failed(NoData); }
    var plain := ciphertext;
    if encrypted {
      if |ciphertext| % 8 != 0 { return Failed(NotBlocks); }
      plain := cipher.decrypt(pass, ZERO_IV, ciphertext);
    }
    var src := new BinarySource(plain);
    var str := src.GetString();
    if src.err {
      o := Failed(IllFormed);
    } else {
      src.Init(str);
      if rsa { o := ReadRsa(src); } else { o := ReadDsa(src); }
    }
    if encrypted && o.Failed? {
      o := WrongPassphrase(o.why);
    }
  }

  /** A key read from what was written is the key, if its numbers are in canonical form. */
  method WriteThenRead(rsa: bool, pub: Bytes, priv: Bytes, pass: Option<Bytes>, noise: Bytes, cipher: Cipher, p: Bytes,
                       ghost key: Key)
    returns (o: Outcome<Problem>)
    requires pub == PublicBlob(key) && priv == PrivateBlob(key) && rsa == key.Rsa?
    requires Fits(key) && CanonicalKey(key) && |noise| == 8 && Inverse(cipher) && (pass.Some? ==> p == pass.value)
    ensures o == Blobs(pub, priv)
  {
    hide PublicBlob, PrivateBlob, Fits, CanonicalKey, Inverse, Parse, FileBlob;
    var blob := Write(rsa, pub, priv, pass, noise, cipher, key);
    o := Read(blob, p, cipher);
    SameKeyIff(key, pass, noise, cipher, p);
  }
}
