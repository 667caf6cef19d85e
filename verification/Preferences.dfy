/** Preference lists: read from a list of words and completed by rules, and written back. */
module Preferences {
  import opened Bitmap

  /** A word, its value, and where the value goes if the list does not mention it: before (`side` negative) or after
      the value `vrel`, or at the end or the start of the list if `vrel` is -1. */
  datatype KeyVal = KeyVal(s: string, v: int, vrel: int, side: int)

  type Mapping = seq<KeyVal>

  // ----- lists of values

  ghost predicate NoDup(s: seq<int>) {
    forall i, j | 0 <= i < j < |s| :: s[i] != s[j]
  }

  /** `a` comes before `b`. */
  ghost predicate Before(s: seq<int>, a: int, b: int) {
    exists i, j :: 0 <= i < j < |s| && s[i] == a && s[j] == b
  }

  function Inserted(s: seq<int>, pos: nat, v: int): seq<int>
    requires pos <= |s|
  {
    s[..pos] + [v] + s[pos..]
  }

  lemma InsertedAt(s: seq<int>, pos: nat, v: int, i: int)
    requires pos <= |s| && 0 <= i <= |s|
    ensures Inserted(s, pos, v)[i] == if i < pos then s[i] else if i == pos then v else s[i - 1]
  {
  }

  lemma InsertedNoDup(s: seq<int>, pos: nat, v: int)
    requires pos <= |s| && NoDup(s) && v !in s
    ensures NoDup(Inserted(s, pos, v)) && forall x :: x in Inserted(s, pos, v) <==> x in s || x == v
  {
    forall i | 0 <= i <= |s|
      ensures Inserted(s, pos, v)[i] == if i < pos then s[i] else if i == pos then v else s[i - 1]
    {
      InsertedAt(s, pos, v, i);
    }
  }

  /** Inserting keeps the order of what was there. */
  lemma InsertedBefore(s: seq<int>, pos: nat, v: int, a: int, b: int)
    requires pos <= |s| && Before(s, a, b)
    ensures Before(Inserted(s, pos, v), a, b)
  {
    var i, j :| 0 <= i < j < |s| && s[i] == a && s[j] == b;
    var t := Inserted(s, pos, v);
    var i', j' := if i < pos then i else i + 1, if j < pos then j else j + 1;
    InsertedAt(s, pos, v, i');
    InsertedAt(s, pos, v, j');
    assert t[i'] == a && t[j'] == b;
  }

  /** The new value stands between what is left and right of its place. */
  lemma InsertedBetween(s: seq<int>, pos: nat, v: int, k: nat)
    requires pos <= |s| && k < |s|
    ensures if k < pos then Before(Inserted(s, pos, v), s[k], v) else Before(Inserted(s, pos, v), v, s[k])
  {
    var t := Inserted(s, pos, v);
    InsertedAt(s, pos, v, pos);
    if k < pos {
      InsertedAt(s, pos, v, k);
      assert t[k] == s[k] && t[pos] == v;
    } else {
      InsertedAt(s, pos, v, k + 1);
      assert t[k + 1] == s[k] && t[pos] == v;
    }
  }

  /** Inserting adds nothing to the order of what was there. */
  lemma BeforeInserting(s: seq<int>, pos: nat, v: int, a: int, b: int)
    requires pos <= |s| && Before(Inserted(s, pos, v), a, b) && a != v && b != v
    ensures Before(s, a, b)
  {
    var t := Inserted(s, pos, v);
    var i, j :| 0 <= i < j < |t| && t[i] == a && t[j] == b;
    InsertedAt(s, pos, v, i);
    InsertedAt(s, pos, v, j);
    var i', j' := if i < pos then i else i - 1, if j < pos then j else j - 1;
    assert s[i'] == a && s[j'] == b;
  }

  /** What stands before or after a value that was inserted. */
  lemma BesideInserted(s: seq<int>, pos: nat, v: int, a: int)
    requires pos <= |s| && v !in s && a != v
    ensures Before(Inserted(s, pos, v), a, v) ==> exists i :: 0 <= i < pos && s[i] == a
    ensures Before(Inserted(s, pos, v), v, a) ==> exists i :: pos <= i < |s| && s[i] == a
  {
    var t := Inserted(s, pos, v);
    if Before(t, a, v) {
      var i, j :| 0 <= i < j < |t| && t[i] == a && t[j] == v;
      InsertedAt(s, pos, v, i);
      InsertedAt(s, pos, v, j);
      assert s[i] == a;
    }
    if Before(t, v, a) {
      var i, j :| 0 <= i < j < |t| && t[i] == v && t[j] == a;
      InsertedAt(s, pos, v, i);
      InsertedAt(s, pos, v, j);
      assert s[j - 1] == a;
    }
  }

  // ----- tables

  ghost predicate Has(m: Mapping, v: int) {
    exists i :: 0 <= i < |m| && m[i].v == v
  }

  /** Among the values that are not in `base`, every one refers only to values of a smaller rank. */
  ghost predicate Ranked(m: Mapping, base: seq<int>, rank: seq<nat>) {
    && |rank| == |m|
    && forall i, j | 0 <= i < |m| && 0 <= j < |m| && m[i].vrel == m[j].v && m[i].v !in base && m[j].v !in base ::
         rank[j] < rank[i]
  }

  /** What a table must be like: its values are different small numbers that refer to each other. */
  ghost predicate TableOk(m: Mapping) {
    && (forall i | 0 <= i < |m| :: 0 <= m[i].v < 32 && (m[i].vrel == -1 || Has(m, m[i].vrel)))
    && (forall i, j | 0 <= i < j < |m| :: m[i].v != m[j].v)
  }

  /** The references have no cycles among the values that are not in `base`. */
  ghost predicate NoCycles(m: Mapping, base: seq<int>) {
    exists rank :: Ranked(m, base, rank)
  }

  function ValueOf(m: Mapping, key: string): int {
    if m == [] then -1 else if m[0].s == key then m[0].v else ValueOf(m[1..], key)
  }

  /** `key2val`. */
  method KeyToVal(m: Mapping, key: string) returns (v: int)
    ensures v == ValueOf(m, key)
  {
    for i := 0 to |m|
      invariant ValueOf(m, key) == ValueOf(m[i..], key)
    {
      assert m[i..][1..] == m[i + 1..];
      if m[i].s == key {
        return m[i].v;
      }
    }
    return -1;
  }

  lemma {:induction false} ValueInTable(m: Mapping, key: string)
    ensures ValueOf(m, key) == -1 || Has(m, ValueOf(m, key))
  {
    if m != [] {
      if m[0].s == key {
        assert m[0].v == ValueOf(m, key);
      } else {
        ValueInTable(m[1..], key);
        if Has(m[1..], ValueOf(m, key)) {
          var i :| 0 <= i < |m[1..]| && m[1..][i].v == ValueOf(m, key);
          assert m[i + 1].v == ValueOf(m, key);
        }
      }
    }
  }

  /** A key that several entries have means the value of the first, and one that none has means -1. */
  lemma {:induction false} FirstCounts(m: Mapping, key: string, i: nat)
    ensures i < |m| && m[i].s == key && (forall j | 0 <= j < i :: m[j].s != key) ==> ValueOf(m, key) == m[i].v
    ensures (forall j | 0 <= j < |m| :: m[j].s != key) ==> ValueOf(m, key) == -1
    decreases |m|
  {
    if m != [] {
      FirstCounts(m[1..], key, if i == 0 then 0 else i - 1);
    }
  }

  // ----- words

  /** The first word, up to a comma. */
  function FirstWord(s: string): (w: string)
    ensures |w| <= |s| && ',' !in w && (|w| < |s| ==> s[|w|] == ',')
  {
    if s == [] || s[0] == ',' then [] else [s[0]] + FirstWord(s[1..])
  }

  /** The words between commas, empty ones left out. */
  function Words(s: string): seq<string>
    decreases |s|
  {
    if s == [] then []
    else if s[0] == ',' then Words(s[1..])
    else [FirstWord(s)] + Words(s[|FirstWord(s)|..])
  }

  /** The values of the words in their order, each where it is first mentioned, after those of `before`. */
  function Mentioned(m: Mapping, words: seq<string>, before: seq<int>): seq<int> {
    if words == [] then before
    else
      var v := ValueOf(m, words[0]);
      Mentioned(m, words[1..], if v == -1 || v in before then before else before + [v])
  }

  /** The values that a list mentions. */
  function Listed(m: Mapping, s: string): seq<int> {
    Mentioned(m, Words(s), [])
  }

  /** Some word has that value. */
  ghost predicate Named(m: Mapping, words: seq<string>, x: int) {
    exists i :: 0 <= i < |words| && ValueOf(m, words[i]) == x
  }

  lemma NoneNamed(m: Mapping)
    ensures forall x :: !Named(m, [], x)
  {
  }

  lemma NamedNext(m: Mapping, words: seq<string>, x: int)
    requires words != []
    ensures Named(m, words, x) <==> ValueOf(m, words[0]) == x || Named(m, words[1..], x)
  {
    hide ValueOf;
    if Named(m, words[1..], x) {
      var i :| 0 <= i < |words[1..]| && ValueOf(m, words[1..][i]) == x;
      assert ValueOf(m, words[i + 1]) == x;
    }
    if Named(m, words, x) && ValueOf(m, words[0]) != x {
      var i :| 0 <= i < |words| && ValueOf(m, words[i]) == x;
      assert words[1..][i - 1] == words[i];
    }
  }

  /** A word with value `x` comes before any with value `y`. */
  ghost predicate FirstMentioned(m: Mapping, words: seq<string>, x: int, y: int) {
    exists i :: 0 <= i < |words| && ValueOf(m, words[i]) == x
                && forall j | 0 <= j <= i :: ValueOf(m, words[j]) != y
  }

  /** The list has the value of every word that has one, once, in the order of their first mention. */
  lemma ListedMeans(m: Mapping, str: string)
    ensures NoDup(Listed(m, str))
    ensures forall x :: x in Listed(m, str) <==> x != -1 && Named(m, Words(str), x)
    ensures forall x, y | x in Listed(m, str) && y in Listed(m, str) ::
              Before(Listed(m, str), x, y) <==> FirstMentioned(m, Words(str), x, y)
  {
    hide ValueOf, Words, Mentioned, NoDup, Before, Named, FirstMentioned;
    var words, list := Words(str), Listed(m, str);
    assert NoDup([]) by { NothingTwice(); }
    ListedHas(m, words, []);
    forall x, y | x in list && y in list ensures Before(list, x, y) <==> FirstMentioned(m, words, x, y) {
      if FirstMentioned(m, words, x, y) {
        ListedOrder(m, words, [], x, y);
      } else {
        if x != y {
          OneIsFirst(m, words, x, y);
          ListedOrder(m, words, [], y, x);
        }
        NotBoth(list, y, x);
      }
    }
  }

  lemma NotBoth(s: seq<int>, x: int, y: int)
    requires NoDup(s) && (Before(s, x, y) || x == y)
    ensures !Before(s, y, x)
  {
  }

  lemma NothingTwice()
    ensures NoDup([])
  {
  }

  lemma {:induction false} ListedHas(m: Mapping, words: seq<string>, before: seq<int>)
    requires NoDup(before)
    ensures var r := Mentioned(m, words, before);
            && NoDup(r) && |before| <= |r| && r[..|before|] == before
            && forall x :: x in r <==> x in before || (x != -1 && Named(m, words, x))
    decreases |words|
  {
    hide ValueOf, Named;
    if words == [] {
      NoneNamed(m);
    } else {
      var v := ValueOf(m, words[0]);
      var next := if v == -1 || v in before then before else before + [v];
      ListedHas(m, words[1..], next);
      var r := Mentioned(m, words, before);
      assert r == Mentioned(m, words[1..], next);
      assert r[..|before|] == next[..|before|];
      forall x ensures x in r <==> x in before || (x != -1 && Named(m, words, x)) {
        NamedNext(m, words, x);
      }
    }
  }

  lemma {:induction false} OneIsFirst(m: Mapping, words: seq<string>, x: int, y: int)
    requires x != y && Named(m, words, x) && Named(m, words, y)
    ensures FirstMentioned(m, words, x, y) || FirstMentioned(m, words, y, x)
    decreases |words|
  {
    hide ValueOf;
    var v, rest := ValueOf(m, words[0]), words[1..];
    if v != x && v != y {
      NamedNext(m, words, x);
      NamedNext(m, words, y);
      OneIsFirst(m, rest, x, y);
      if FirstMentioned(m, rest, x, y) { LaterMentioned(m, words, x, y); } else { LaterMentioned(m, words, y, x); }
    }
  }

  lemma LaterMentioned(m: Mapping, words: seq<string>, x: int, y: int)
    requires words != [] && FirstMentioned(m, words[1..], x, y) && ValueOf(m, words[0]) != y
    ensures FirstMentioned(m, words, x, y)
  {
    hide ValueOf;
    var rest := words[1..];
    var i :| 0 <= i < |rest| && ValueOf(m, rest[i]) == x && forall j | 0 <= j <= i :: ValueOf(m, rest[j]) != y;
    assert ValueOf(m, words[i + 1]) == x;
    forall j | 0 <= j <= i + 1 ensures ValueOf(m, words[j]) != y {
      assert j > 0 ==> words[j] == rest[j - 1];
    }
  }

  lemma NotInFront(r: seq<int>, n: nat, a: nat, y: int)
    requires a < n <= |r| && y in r
    ensures y in r[..n] || Before(r, r[a], y)
  {
    var b :| 0 <= b < |r| && r[b] == y;
    if b < n { assert r[..n][b] == y; }
  }

  lemma {:induction false} ListedOrder(m: Mapping, words: seq<string>, before: seq<int>, x: int, y: int)
    requires NoDup(before) && y !in before && FirstMentioned(m, words, x, y) && x != -1
    requires y in Mentioned(m, words, before)
    ensures Before(Mentioned(m, words, before), x, y)
    decreases |words|
  {
    hide ValueOf;
    var v := ValueOf(m, words[0]);
    var next := if v == -1 || v in before then before else before + [v];
    var i :| 0 <= i < |words| && ValueOf(m, words[i]) == x && forall j | 0 <= j <= i :: ValueOf(m, words[j]) != y;
    if x in next {
      ListedHas(m, words[1..], next);
      var r := Mentioned(m, words, before);
      var a :| 0 <= a < |next| && next[a] == x;
      assert r[..|next|] == next && r[a] == x;
      NotInFront(r, |next|, a, y);
    } else {
      assert i > 0 && words[1..][i - 1] == words[i];
      forall j | 0 <= j <= i - 1 ensures ValueOf(m, words[1..][j]) != y {
        assert words[1..][j] == words[j + 1];
      }
      ListedOrder(m, words[1..], next, x, y);
    }
  }

  // ----- the list in the configuration

  /** Entries moved up by one from `pos` on, with a value put there, are the list with that value inserted. */
  lemma MovedUp(ints: map<int, int>, list: seq<int>, pos: nat, v: int)
    requires pos <= |list| && (forall i | 0 <= i < pos :: i in ints && ints[i] == list[i])
             && (forall i | pos < i <= |list| :: i in ints && ints[i] == list[i - 1])
    ensures forall i | 0 <= i < |Inserted(list, pos, v)| ::
              i in ints[pos := v] && ints[pos := v][i] == Inserted(list, pos, v)[i]
  {
    hide Inserted;
    InsertedLength(list, pos, v);
    forall i | 0 <= i <= |list| ensures i in ints[pos := v] && ints[pos := v][i] == Inserted(list, pos, v)[i] {
      InsertedAt(list, pos, v, i);
    }
  }

  lemma InsertedLength(list: seq<int>, pos: nat, v: int)
    requires pos <= |list|
    ensures |Inserted(list, pos, v)| == |list| + 1
  {
  }

  /** The entries of a configuration under one primary key. */
  class Conf {
    var ints: map<int, int>

    constructor ()
      ensures ints == map[]
    {
      ints := map[];
    }

    ghost predicate Holds(list: seq<int>)
      reads this
    {
      forall j | 0 <= j < |list| :: j in ints && ints[j] == list[j]
    }

    /** `conf_set_int_int`. */
    method Set(j: int, v: int)
      modifies this
      ensures ints == old(ints)[j := v]
    {
      ints := ints[j := v];
    }

    /** `conf_get_int_int`. */
    method Get(j: int) returns (v: int)
      requires j in ints
      ensures v == ints[j]
    {
      v := ints[j];
    }

    /** A value goes to place `pos`, and those from there on move up by one. */
    method Insert(pos: nat, v: int, n: nat, ghost list: seq<int>)
      requires Holds(list) && n == |list| && pos <= n
      modifies this
      ensures Holds(Inserted(list, pos, v))
    {
      var j := n - 1;
      while j >= pos
        invariant pos - 1 <= j <= n - 1
        invariant forall i | 0 <= i <= j :: i in ints && ints[i] == list[i]
        invariant forall i | j + 1 < i <= n :: i in ints && ints[i] == list[i - 1]
        decreases j
      {
        var x := Get(j);
        Set(j + 1, x);
        j := j - 1;
      }
      ghost var moved := ints;
      Set(pos, v);
      MovedUp(moved, list, pos, v);
    }

    /** Where a value is in the list. */
    method Find(v: int, n: nat, ghost list: seq<int>) returns (j: nat)
      requires Holds(list) && n == |list| && v in list
      ensures j < n && list[j] == v
    {
      ghost var k :| 0 <= k < n && list[k] == v;
      j := 0;
      while j < n
        invariant j <= k
      {
        var x := Get(j);
        if x == v {
          break;
        }
        j := j + 1;
      }
      assert j < n;
    }
  }

  // ----- reading

  /** The bitmap tells which values are in the list. */
  ghost predicate SeenOk(seen: nat, list: seq<int>) {
    seen < Pow2(32) && forall v: nat {:trigger Bit(seen, v)} | v < 32 :: Bit(seen, v) <==> v in list
  }

  ghost predicate InTable(m: Mapping, list: seq<int>) {
    forall v | v in list :: Has(m, v)
  }

  lemma SeenMore(seen: nat, list: seq<int>, v: nat)
    requires SeenOk(seen, list) && v < 32
    ensures SeenOk(Mark(seen, v), list + [v]) && forall pos: nat | pos <= |list| ::
            SeenOk(Mark(seen, v), Inserted(list, pos, v))
  {
    hide Bit, Mark, Pow2;
    MarkKeeps(32, seen, v);
    forall pos: nat | pos <= |list| ensures SeenOk(Mark(seen, v), Inserted(list, pos, v)) {
      SameMembers(list, pos, v);
    }
  }

  lemma SameMembers(list: seq<int>, pos: nat, v: int)
    requires pos <= |list|
    ensures forall x :: x in Inserted(list, pos, v) <==> x in list || x == v
  {
    forall x ensures x in Inserted(list, pos, v) <==> x in list || x == v {
      assert list == list[..pos] + list[pos..];
    }
  }

  lemma NothingSeen(m: Mapping)
    ensures SeenOk(0, []) && NoDup([]) && InTable(m, [])
  {
    forall v: nat | v < 32 ensures !Bit(0, v) {
      ZeroHasNoBit(v);
    }
  }

  lemma {:induction false} ZeroHasNoBit(v: nat)
    ensures !Bit(0, v)
    decreases v
  {
    if v > 0 {
      ZeroHasNoBit(v - 1);
    }
  }

  /** The end of the run of characters from `p` on that are, or are not, commas. */
  method Skip(str: string, p: nat, commas: bool) returns (q: nat)
    requires p <= |str|
    ensures p <= q <= |str| && (forall i | p <= i < q :: str[i] == ',' <==> commas)
            && (q < |str| ==> (str[q] == ',' <==> !commas))
  {
    q := p;
    while q < |str| && (str[q] == ',') == commas
      invariant p <= q <= |str| && forall i | p <= i < q :: str[i] == ',' <==> commas
    {
      q := q + 1;
    }
  }

  lemma {:induction false} CommasSkipped(str: string, p: nat, q: nat)
    requires p <= q <= |str| && forall i | p <= i < q :: str[i] == ','
    ensures Words(str[p..]) == Words(str[q..])
    decreases q - p
  {
    if p < q {
      assert str[p..][1..] == str[p + 1..];
      CommasSkipped(str, p + 1, q);
    }
  }

  lemma {:induction false} WordTaken(str: string, p: nat, q: nat)
    requires p <= q <= |str| && (forall i | p <= i < q :: str[i] != ',') && (q < |str| ==> str[q] == ',')
    ensures FirstWord(str[p..]) == str[p..q]
    decreases q - p
  {
    if p < q {
      assert str[p..][1..] == str[p + 1..];
      WordTaken(str, p + 1, q);
      assert str[p..q] == [str[p]] + str[p + 1..q];
    } else {
      assert str[p..q] == [];
    }
  }

  /** The first loop of `gprefs_from_str`. */
  method ReadWords(str: string, m: Mapping, conf: Conf) returns (n: nat, seen: nat)
    requires TableOk(m)
    modifies conf
    ensures conf.Holds(Listed(m, str)) && n == |Listed(m, str)| && SeenOk(seen, Listed(m, str))
    ensures NoDup(Listed(m, str)) && InTable(m, Listed(m, str))
  {
    hide TableOk, Words, SeenOk, ValueOf, NoDup, InTable, Mentioned, FirstWord;
    n, seen := 0, 0;
    NothingSeen(m);
    ghost var list := [];
    var p := 0;
    assert str[0..] == str;
    while true
      invariant p <= |str| && conf.Holds(list) && n == |list| && SeenOk(seen, list) && NoDup(list) && InTable(m, list)
      invariant Mentioned(m, Words(str[p..]), list) == Listed(m, str)
      decreases |str| - p
    {
      var q := Skip(str, p, true);
      CommasSkipped(str, p, q);
      p := q;
      if p == |str| {
        AllRead(str, m, list);
        break;
      }
      p := Skip(str, q, false);
      WordTaken(str, q, p);
      WordRead(str, m, list, q, p);
      var w := str[q..p];
      if p < |str| {
        CommasSkipped(str, p, p + 1);
        p := p + 1;
      }
      n, seen, list := NoteWord(w, m, conf, n, seen, list);
    }
  }

  /** The value of a word goes to the end of the list if it has one that is not there yet. */
  method NoteWord(w: string, m: Mapping, conf: Conf, n: nat, seen: nat, ghost list: seq<int>)
      returns (n': nat, seen': nat, ghost list': seq<int>)
    requires TableOk(m) && conf.Holds(list) && n == |list| && SeenOk(seen, list) && NoDup(list) && InTable(m, list)
    modifies conf
    ensures conf.Holds(list') && n' == |list'| && SeenOk(seen', list') && NoDup(list') && InTable(m, list')
    ensures var v := ValueOf(m, w); list' == if v == -1 || v in list then list else list + [v]
  {
    hide TableOk, Bit, Mark, Pow2, SeenOk, ValueOf;
    n', seen', list' := n, seen, list;
    var v := KeyToVal(m, w);
    if v != -1 {
      InRange(m, w);
      SeenIs(seen, list, v);
      if !Bit(seen, v) {
        SeenMore(seen, list, v);
        seen' := Mark(seen, v);
        conf.Set(n, v);
        list' := list + [v];
        n' := n + 1;
      }
    }
  }

  lemma SeenIs(seen: nat, list: seq<int>, v: int)
    requires SeenOk(seen, list) && 0 <= v < 32
    ensures Bit(seen, v) <==> v in list
  {
  }

  lemma InRange(m: Mapping, key: string)
    requires TableOk(m) && ValueOf(m, key) != -1
    ensures 0 <= ValueOf(m, key) < 32 && Has(m, ValueOf(m, key))
  {
    ValueInTable(m, key);
    var i :| 0 <= i < |m| && m[i].v == ValueOf(m, key);
  }

  lemma AllRead(str: string, m: Mapping, list: seq<int>)
    ensures Mentioned(m, Words(str[|str|..]), list) == list
  {
    assert str[|str|..] == [];
  }

  lemma WordRead(str: string, m: Mapping, list: seq<int>, q: nat, p: nat)
    requires q < p <= |str| && str[q] != ',' && FirstWord(str[q..]) == str[q..p]
    ensures var v := ValueOf(m, str[q..p]);
            Mentioned(m, Words(str[q..]), list) == Mentioned(m, Words(str[p..]), if v == -1 || v in list then
                list else list + [v])
  {
    assert str[q..][|str[q..p]|..] == str[p..];
    assert Words(str[q..]) == [str[q..p]] + Words(str[p..]);
  }

  // ----- completing

  ghost predicate OrderKept(base: seq<int>, list: seq<int>) {
    forall a, b {:trigger Before(base, a, b)} | Before(base, a, b) :: Before(list, a, b)
  }

  /** A value that was added stands where its rule says: on its side of the value it refers to, or beyond all those
      that the list mentioned. */
  ghost predicate Placed(e: KeyVal, base: seq<int>, list: seq<int>) {
    e.v in list && e.v !in base ==>
      if e.vrel == -1 then forall x | x in base :: if e.side < 0 then Before(list, x, e.v) else Before(list, e.v, x)
      else if e.side < 0 then Before(list, e.v, e.vrel)
      else Before(list, e.vrel, e.v)
  }

  /** Only values that were not mentioned stand between `lo` and `hi`, drawn there by a reference to one of these two or
      to another between them. */
  ghost predicate OnlyDrawn(m: Mapping, base: seq<int>, list: seq<int>, lo: int, hi: int) {
    forall k | 0 <= k < |m| && Before(list, lo, m[k].v) && Before(list, m[k].v, hi) ::
      m[k].v !in base && m[k].vrel != -1
      && (m[k].vrel == lo || m[k].vrel == hi || (Before(list, lo, m[k].vrel) && Before(list, m[k].vrel, hi)))
  }

  /** Only values that were not mentioned stand after `v`: such as go to the end, or refer to `v` or to another after
      it. */
  ghost predicate OnlyAfter(m: Mapping, base: seq<int>, list: seq<int>, v: int) {
    forall k | 0 <= k < |m| && Before(list, v, m[k].v) ::
      m[k].v !in base
      && if m[k].vrel == -1 then m[k].side < 0 else m[k].vrel == v || Before(list, v, m[k].vrel)
  }

  ghost predicate OnlyBefore(m: Mapping, base: seq<int>, list: seq<int>, v: int) {
    forall k | 0 <= k < |m| && Before(list, m[k].v, v) ::
      m[k].v !in base
      && if m[k].vrel == -1 then m[k].side >= 0 else m[k].vrel == v || Before(list, m[k].vrel, v)
  }

  /** A value that was added stands right there: nothing that was mentioned comes between. */
  ghost predicate Close(m: Mapping, e: KeyVal, base: seq<int>, list: seq<int>) {
    e.v in list && e.v !in base ==>
      if e.vrel == -1 then if e.side < 0 then OnlyAfter(m, base, list, e.v) else OnlyBefore(m, base, list, e.v)
      else if e.side < 0 then OnlyDrawn(m, base, list, e.v, e.vrel)
      else OnlyDrawn(m, base, list, e.vrel, e.v)
  }

  /** Of two entries with one reference, the one that is added first: the first one in the table, or the next one in the
      table after the reference if that was not mentioned either. */
  ghost predicate Sooner(m: Mapping, base: seq<int>, i: nat, j: nat)
    requires i < |m| && j < |m|
  {
    var r := m[i].vrel;
    if r == -1 || r in base then i < j
    else
      var k := EntryOf(m, r);
      if i < k <==> j < k then i < j else k < i
  }

  /** Two entries with one reference that were not mentioned. */
  ghost predicate Siblings(m: Mapping, base: seq<int>, i: nat, j: nat) {
    i < |m| && j < |m| && i != j && m[i].vrel == m[j].vrel && m[i].v !in base && m[j].v !in base
  }

  /** The one that is added sooner stands farther from their reference. */
  ghost predicate InOrder(m: Mapping, base: seq<int>, list: seq<int>, i: nat, j: nat) {
    Siblings(m, base, i, j) && Sooner(m, base, i, j) && m[j].v in list ==>
      && m[i].v in list
      && (m[i].side < 0 && m[j].side < 0 ==> Before(list, m[i].v, m[j].v))
      && (m[i].side >= 0 && m[j].side >= 0 ==> Before(list, m[j].v, m[i].v))
  }

  ghost predicate Sound(m: Mapping, base: seq<int>, list: seq<int>) {
    && (forall i {:trigger Close(m, m[i], base, list)} | 0 <= i < |m| :: Close(m, m[i], base, list))
    && (forall i: nat, j: nat {:trigger InOrder(m, base, list, i, j)} :: InOrder(m, base, list, i, j))
    && NoDup(list) && InTable(m, list) && (forall x | x in base :: x in list) && OrderKept(base, list)
    && forall i {:trigger Placed(m[i], base, list)} | 0 <= i < |m| :: Placed(m[i], base, list)
  }

  /** Where the rule of `e` puts its value in the list. */
  ghost predicate RightPlace(e: KeyVal, list: seq<int>, pos: nat) {
    && pos <= |list|
    && if e.vrel == -1 then pos == (if e.side < 0 then |list| else 0)
       else exists j: nat :: j < |list| && list[j] == e.vrel && pos == if e.side < 0 then j else j + 1
  }

  lemma PlacedStays(e: KeyVal, base: seq<int>, list: seq<int>, pos: nat, v: int)
    requires pos <= |list| && Placed(e, base, list) && e.v != v
    ensures Placed(e, base, Inserted(list, pos, v))
  {
    SameMembers(list, pos, v);
    if e.v in list && e.v !in base {
      if e.vrel == -1 {
        forall x | x in base
          ensures if e.side < 0 then Before(Inserted(list, pos, v), x, e.v) else Before(Inserted(list, pos, v), e.v, x)
        {
          if e.side < 0 {
            InsertedBefore(list, pos, v, x, e.v);
          } else {
            InsertedBefore(list, pos, v, e.v, x);
          }
        }
      } else if e.side < 0 {
        InsertedBefore(list, pos, v, e.v, e.vrel);
      } else {
        InsertedBefore(list, pos, v, e.vrel, e.v);
      }
    }
  }

  lemma PlacedNow(e: KeyVal, base: seq<int>, list: seq<int>, pos: nat)
    requires RightPlace(e, list, pos) && e.v !in list && forall x | x in base :: x in list
    ensures Placed(e, base, Inserted(list, pos, e.v))
  {
    var t := Inserted(list, pos, e.v);
    if e.vrel == -1 {
      forall x | x in base ensures if e.side < 0 then Before(t, x, e.v) else Before(t, e.v, x) {
        var k :| 0 <= k < |list| && list[k] == x;
        InsertedBetween(list, pos, e.v, k);
      }
    } else {
      var j: nat :| j < |list| && list[j] == e.vrel && pos == if e.side < 0 then j else j + 1;
      InsertedBetween(list, pos, e.v, j);
    }
  }

  lemma OrderStays(base: seq<int>, list: seq<int>, pos: nat, v: int)
    requires OrderKept(base, list) && pos <= |list|
    ensures OrderKept(base, Inserted(list, pos, v))
  {
    forall a, b | Before(base, a, b) ensures Before(Inserted(list, pos, v), a, b) {
      InsertedBefore(list, pos, v, a, b);
    }
  }

  /** Entry `i`, whose value is missing, goes where its rule puts it. */
  ghost predicate Comes(m: Mapping, base: seq<int>, list: seq<int>, i: nat, pos: nat) {
    && TableOk(m) && NoDup(list) && (forall x | x in base :: x in list) && i < |m| && m[i].v !in list
    && RightPlace(m[i], list, pos)
  }

  lemma SameEntry(m: Mapping, i: nat, k: nat)
    requires TableOk(m) && i < |m| && k < |m| && m[k].v == m[i].v
    ensures k == i
  {
  }

  lemma InOrderAt(s: seq<int>, i: nat, j: nat)
    requires i < j < |s|
    ensures Before(s, s[i], s[j])
  {
  }

  lemma DrawnStays(m: Mapping, base: seq<int>, list: seq<int>, i: nat, pos: nat, lo: int, hi: int)
    requires Comes(m, base, list, i, pos) && OnlyDrawn(m, base, list, lo, hi) && lo in list && hi in list
    ensures OnlyDrawn(m, base, Inserted(list, pos, m[i].v), lo, hi)
  {
    hide TableOk, Inserted, Before;
    var v, t := m[i].v, Inserted(list, pos, m[i].v);
    forall k | 0 <= k < |m| && Before(t, lo, m[k].v) && Before(t, m[k].v, hi)
      ensures m[k].v !in base && m[k].vrel != -1 && (m[k].vrel == lo || m[k].vrel == hi
              || (Before(t, lo, m[k].vrel) && Before(t, m[k].vrel, hi)))
    {
      var r := m[k].vrel;
      if m[k].v == v {
        SameEntry(m, i, k);
        BesideInserted(list, pos, v, lo);
        BesideInserted(list, pos, v, hi);
        var a :| 0 <= a < pos && list[a] == lo;
        var b :| pos <= b < |list| && list[b] == hi;
        assert r != -1;
        var j: nat :| j < |list| && list[j] == r && pos == if m[i].side < 0 then j else j + 1;
        if a != j && b != j {
          InOrderAt(list, a, j);
          InOrderAt(list, j, b);
        }
      } else {
        BeforeInserting(list, pos, v, lo, m[k].v);
        BeforeInserting(list, pos, v, m[k].v, hi);
      }
      if r != lo && r != hi {
        InsertedBefore(list, pos, v, lo, r);
        InsertedBefore(list, pos, v, r, hi);
      }
    }
  }

  lemma AfterStays(m: Mapping, base: seq<int>, list: seq<int>, i: nat, pos: nat, w: int)
    requires Comes(m, base, list, i, pos) && OnlyAfter(m, base, list, w) && w in list
    ensures OnlyAfter(m, base, Inserted(list, pos, m[i].v), w)
  {
    hide TableOk, Inserted, Before;
    var v, t := m[i].v, Inserted(list, pos, m[i].v);
    forall k | 0 <= k < |m| && Before(t, w, m[k].v)
      ensures m[k].v !in base && if m[k].vrel == -1 then m[k].side < 0 else m[k].vrel == w || Before(t, w, m[k].vrel)
    {
      var r := m[k].vrel;
      if m[k].v == v {
        SameEntry(m, i, k);
        BesideInserted(list, pos, v, w);
        var a :| 0 <= a < pos && list[a] == w;
        if r != -1 {
          var j: nat :| j < |list| && list[j] == r && pos == if m[i].side < 0 then j else j + 1;
          if a != j { InOrderAt(list, a, j); }
        }
      } else {
        BeforeInserting(list, pos, v, w, m[k].v);
      }
      if r != -1 && r != w { InsertedBefore(list, pos, v, w, r); }
    }
  }

  lemma BeforeStays(m: Mapping, base: seq<int>, list: seq<int>, i: nat, pos: nat, w: int)
    requires Comes(m, base, list, i, pos) && OnlyBefore(m, base, list, w) && w in list
    ensures OnlyBefore(m, base, Inserted(list, pos, m[i].v), w)
  {
    hide TableOk, Inserted, Before;
    var v, t := m[i].v, Inserted(list, pos, m[i].v);
    forall k | 0 <= k < |m| && Before(t, m[k].v, w)
      ensures m[k].v !in base && if m[k].vrel == -1 then m[k].side >= 0 else m[k].vrel == w || Before(t, m[k].vrel, w)
    {
      var r := m[k].vrel;
      if m[k].v == v {
        SameEntry(m, i, k);
        BesideInserted(list, pos, v, w);
        var b :| pos <= b < |list| && list[b] == w;
        if r != -1 {
          var j: nat :| j < |list| && list[j] == r && pos == if m[i].side < 0 then j else j + 1;
          if b != j { InOrderAt(list, j, b); }
        }
      } else {
        BeforeInserting(list, pos, v, m[k].v, w);
      }
      if r != -1 && r != w { InsertedBefore(list, pos, v, r, w); }
    }
  }

  lemma CloseStays(m: Mapping, e: KeyVal, base: seq<int>, list: seq<int>, i: nat, pos: nat)
    requires Comes(m, base, list, i, pos) && Placed(e, base, list) && Close(m, e, base, list) && e.v != m[i].v
    ensures Close(m, e, base, Inserted(list, pos, m[i].v))
  {
    hide OnlyDrawn, OnlyAfter, OnlyBefore, Comes;
    CanCome(m, base, list, i, pos);
    SameMembers(list, pos, m[i].v);
    if e.v in list && e.v !in base {
      if e.vrel == -1 {
        if e.side < 0 {
          AfterStays(m, base, list, i, pos, e.v);
        } else {
          BeforeStays(m, base, list, i, pos, e.v);
        }
      } else if e.side < 0 {
        DrawnStays(m, base, list, i, pos, e.v, e.vrel);
      } else {
        DrawnStays(m, base, list, i, pos, e.vrel, e.v);
      }
    }
  }

  lemma CanCome(m: Mapping, base: seq<int>, list: seq<int>, i: nat, pos: nat)
    requires Comes(m, base, list, i, pos)
    ensures i < |m| && pos <= |list|
  {
  }

  lemma CloseNow(m: Mapping, base: seq<int>, list: seq<int>, i: nat, pos: nat)
    requires Comes(m, base, list, i, pos)
    ensures Close(m, m[i], base, Inserted(list, pos, m[i].v))
  {
    hide TableOk, Inserted, Before;
    var e, t := m[i], Inserted(list, pos, m[i].v);
    forall k | 0 <= k < |m| && m[k].v != e.v
      ensures e.vrel == -1 && e.side < 0 ==> !Before(t, e.v, m[k].v)
      ensures e.vrel == -1 && e.side >= 0 ==> !Before(t, m[k].v, e.v)
      ensures e.vrel != -1 && e.side < 0 ==> !(Before(t, e.v, m[k].v) && Before(t, m[k].v, e.vrel))
      ensures e.vrel != -1 && e.side >= 0 ==> !(Before(t, e.vrel, m[k].v) && Before(t, m[k].v, e.v))
    {
      BesideInserted(list, pos, e.v, m[k].v);
      if e.vrel != -1 {
        NotBetween(list, pos, e, m[k].v);
      }
    }
    NotBeforeItself(list, pos, e.v);
  }

  lemma NotBeforeItself(list: seq<int>, pos: nat, v: int)
    requires NoDup(list) && pos <= |list| && v !in list
    ensures !Before(Inserted(list, pos, v), v, v)
  {
    InsertedNoDup(list, pos, v);
  }

  lemma NotBetween(list: seq<int>, pos: nat, e: KeyVal, x: int)
    requires NoDup(list) && e.v !in list && RightPlace(e, list, pos) && e.vrel != -1 && x != e.v
    ensures var t := Inserted(list, pos, e.v);
            if e.side < 0 then !(Before(t, e.v, x) && Before(t, x, e.vrel))
            else !(Before(t, e.vrel, x) && Before(t, x, e.v))
  {
    hide Inserted;
    var t := Inserted(list, pos, e.v);
    BesideInserted(list, pos, e.v, x);
    if e.side < 0 && Before(t, x, e.vrel) { BeforeInserting(list, pos, e.v, x, e.vrel); }
    if e.side >= 0 && Before(t, e.vrel, x) { BeforeInserting(list, pos, e.v, e.vrel, x); }
  }

  /** The entries with the same reference that are to be added sooner are there. */
  ghost predicate InTime(m: Mapping, base: seq<int>, list: seq<int>, j: nat) {
    j < |m| && forall i: nat | Siblings(m, base, i, j) && Sooner(m, base, i, j) :: m[i].v in list
  }

  lemma OrderedNow(m: Mapping, base: seq<int>, list: seq<int>, pos: nat, i: nat, j: nat)
    requires Comes(m, base, list, j, pos) && InTime(m, base, list, j) && Siblings(m, base, i, j)
             && Placed(m[i], base, list)
    ensures InOrder(m, base, Inserted(list, pos, m[j].v), i, j)
  {
    hide Inserted, Before, TableOk, Sooner;
    var t := Inserted(list, pos, m[j].v);
    if Sooner(m, base, i, j) {
      SameMembers(list, pos, m[j].v);
      if m[i].side < 0 <==> m[j].side < 0 {
        var a: nat := OnSide(m, base, list, pos, i, j);
        InsertedBetween(list, pos, m[j].v, a);
      }
    }
  }

  lemma OnSide(m: Mapping, base: seq<int>, list: seq<int>, pos: nat, i: nat, j: nat) returns (a: nat)
    requires Comes(m, base, list, j, pos) && Siblings(m, base, i, j) && Placed(m[i], base, list) && m[i].v in list
    requires m[i].side < 0 <==> m[j].side < 0
    ensures a < |list| && list[a] == m[i].v && (a < pos <==> m[i].side < 0)
  {
    hide TableOk;
    a :| a < |list| && list[a] == m[i].v;
    if m[i].vrel != -1 {
      var b, c :| 0 <= b < c < |list|
                  && if m[i].side < 0 then list[b] == m[i].v && list[c] == m[i].vrel
                     else list[b] == m[i].vrel && list[c] == m[i].v;
    }
  }

  lemma OrderedStays(m: Mapping, base: seq<int>, list: seq<int>, i: nat, pos: nat, a: nat, b: nat)
    requires Comes(m, base, list, i, pos) && InOrder(m, base, list, a, b) && InTime(m, base, list, i)
    requires a < |m| ==> Placed(m[a], base, list)
    ensures InOrder(m, base, Inserted(list, pos, m[i].v), a, b)
  {
    hide Inserted, Before, TableOk, Sooner;
    var v := m[i].v;
    SameMembers(list, pos, v);
    if Siblings(m, base, a, b) && Sooner(m, base, a, b) {
      if m[b].v in list {
        if m[a].side < 0 && m[b].side < 0 { InsertedBefore(list, pos, v, m[a].v, m[b].v); }
        if m[a].side >= 0 && m[b].side >= 0 { InsertedBefore(list, pos, v, m[b].v, m[a].v); }
      } else if m[b].v == v {
        SameEntry(m, i, b);
        OrderedNow(m, base, list, pos, a, b);
      }
    }
  }

  lemma SoundMore(m: Mapping, base: seq<int>, list: seq<int>, i: nat, pos: nat)
    requires TableOk(m) && Sound(m, base, list) && i < |m| && m[i].v !in list && RightPlace(m[i], list, pos)
             && InTime(m, base, list, i)
    ensures Sound(m, base, Inserted(list, pos, m[i].v))
  {
    hide Inserted, Before, Close, Placed, InOrder, InTime, RightPlace;
    var v := m[i].v;
    CanCome(m, base, list, i, pos);
    var t := Inserted(list, pos, v);
    forall k | 0 <= k < |m| ensures Close(m, m[k], base, t) {
      assert Close(m, m[k], base, list) && Placed(m[k], base, list);
      if k == i {
        CloseNow(m, base, list, i, pos);
      } else {
        CloseStays(m, m[k], base, list, i, pos);
      }
    }
    forall a: nat, b: nat ensures InOrder(m, base, t, a, b) {
      assert InOrder(m, base, list, a, b);
      assert a < |m| ==> Placed(m[a], base, list);
      OrderedStays(m, base, list, i, pos, a, b);
    }
    InsertedNoDup(list, pos, v);
    OrderStays(base, list, pos, v);
    assert Has(m, v);
    forall k | 0 <= k < |m| ensures Placed(m[k], base, Inserted(list, pos, v)) {
      assert Placed(m[k], base, list);
      if k == i {
        PlacedNow(m[i], base, list, pos);
      } else {
        PlacedStays(m[k], base, list, pos, v);
      }
    }
  }

  lemma SoundAtFirst(m: Mapping, base: seq<int>)
    requires NoDup(base) && InTable(m, base)
    ensures Sound(m, base, base)
  {
  }

  // ----- which entries come first

  /** The table has been looked at up to entry `s` in this pass: what can be added still is what refers to a value that
      was added since. */
  ghost predicate Scanned(m: Mapping, base: seq<int>, list: seq<int>, s: nat) {
    forall i: nat {:trigger Addable(m, i, list)} | Addable(m, i, list) ::
      var r := m[i].vrel;
      if i < s then r != -1 && r !in base && i < EntryOf(m, r) < s
      else r == -1 || r in base || EntryOf(m, r) < s || i < EntryOf(m, r)
  }

  lemma ScanStarts(m: Mapping, base: seq<int>)
    ensures Scanned(m, base, base, 0)
  {
  }

  lemma ScanAgain(m: Mapping, base: seq<int>, list: seq<int>)
    requires Scanned(m, base, list, |m|)
    ensures Scanned(m, base, list, 0)
  {
  }

  lemma ScanStep(m: Mapping, base: seq<int>, list: seq<int>, s: nat)
    requires TableOk(m) && Sound(m, base, list) && Scanned(m, base, list, s) && s < |m|
    ensures Scanned(m, base, Step(m, list, s), s + 1)
  {
    hide Inserted, PosOf, Close, Placed, InOrder, OrderKept, NoDup;
    var t := Step(m, list, s);
    if Addable(m, s, list) { SameMembers(list, PosOf(m[s], list), m[s].v); }
    forall i: nat | Addable(m, i, t)
      ensures var r := m[i].vrel;
              if i < s + 1 then r != -1 && r !in base && i < EntryOf(m, r) < s + 1
              else r == -1 || r in base || EntryOf(m, r) < s + 1 || i < EntryOf(m, r)
    {
      var r := m[i].vrel;
      if r != -1 && r !in list {
        assert r == m[s].v;
        EntryIs(m, s);
      } else {
        assert Addable(m, i, list);
      }
    }
  }

  lemma EntryIs(m: Mapping, s: nat)
    requires TableOk(m) && s < |m|
    ensures EntryOf(m, m[s].v) == s
  {
  }

  lemma SoonerThere(m: Mapping, base: seq<int>, list: seq<int>, s: nat)
    requires TableOk(m) && Scanned(m, base, list, s) && Addable(m, s, list)
    ensures InTime(m, base, list, s)
  {
    forall i: nat | Siblings(m, base, i, s) && Sooner(m, base, i, s) ensures m[i].v in list {
      if m[i].v !in list {
        assert Addable(m, i, list);
        assert false;
      }
    }
  }

  // ----- there is always something to add

  lemma {:induction false} SizeOfList(s: seq<int>)
    ensures |set x | x in s| <= |s| && (NoDup(s) ==> |set x | x in s| == |s|)
  {
    if s != [] {
      SizeOfList(s[1..]);
      assert (set x | x in s) == (set x | x in s[1..]) + {s[0]};
      if NoDup(s) {
        assert s[0] !in s[1..];
      }
    }
  }

  function ValuesOf(m: Mapping): (r: seq<int>)
    ensures |r| == |m| && forall i | 0 <= i < |m| :: r[i] == m[i].v
  {
    seq(|m|, i requires 0 <= i < |m| => m[i].v)
  }

  /** The value of entry `k` is missing and can be added. */
  ghost predicate Addable(m: Mapping, k: nat, list: seq<int>) {
    k < |m| && m[k].v !in list && (m[k].vrel == -1 || m[k].vrel in list)
  }

  ghost predicate SomeAddable(m: Mapping, list: seq<int>) {
    exists k: nat :: Addable(m, k, list)
  }

  lemma SomethingMissing(m: Mapping, list: seq<int>)
    requires TableOk(m) && |list| < |m|
    ensures exists i: nat :: i < |m| && m[i].v !in list
  {
    var vs := ValuesOf(m);
    assert NoDup(vs);
    SizeOfList(vs);
    SizeOfList(list);
    var a, b := set x | x in vs, set x | x in list;
    if a <= b {
      SubsetSize(a, b);
    } else {
      var x :| x in a && x !in b;
      var i: nat :| i < |vs| && vs[i] == x;
      assert m[i].v !in list;
    }
  }

  lemma SubsetSize(a: set<int>, b: set<int>)
    requires a <= b
    ensures |a| <= |b|
  {
    assert b == a + (b - a);
  }

  /** Some missing value can be added right away: one of smallest rank. */
  lemma {:induction false} SomethingToAdd(m: Mapping, base: seq<int>, list: seq<int>, rank: seq<nat>, i: nat)
    requires TableOk(m) && Ranked(m, base, rank) && i < |m| && m[i].v !in list && forall x | x in base :: x in list
    ensures SomeAddable(m, list)
    decreases rank[i]
  {
    if m[i].vrel == -1 || m[i].vrel in list {
      assert Addable(m, i, list);
    } else {
      var j :| 0 <= j < |m| && m[j].v == m[i].vrel;
      SomethingToAdd(m, base, list, rank, j);
    }
  }

  lemma NextToAdd(m: Mapping, base: seq<int>, list: seq<int>)
    requires TableOk(m) && NoCycles(m, base) && |list| < |m| && forall x | x in base :: x in list
    ensures SomeAddable(m, list)
  {
    SomethingMissing(m, list);
    var i: nat :| i < |m| && m[i].v !in list;
    var rank :| Ranked(m, base, rank);
    SomethingToAdd(m, base, list, rank, i);
  }

  function IndexOf(s: seq<int>, v: int): (i: nat)
    requires v in s
    ensures i < |s| && s[i] == v
  {
    if s[0] == v then 0 else 1 + IndexOf(s[1..], v)
  }

  // ----- what the loop does to the list

  /** Where the rule of an entry that can be added puts its value. */
  ghost function PosOf(e: KeyVal, list: seq<int>): (pos: nat)
    requires e.vrel == -1 || e.vrel in list
    ensures pos <= |list|
  {
    if e.vrel == -1 then (if e.side < 0 then |list| else 0)
    else if e.side < 0 then IndexOf(list, e.vrel)
    else IndexOf(list, e.vrel) + 1
  }

  /** The list after entry `i` has been looked at. */
  ghost function Step(m: Mapping, list: seq<int>, i: nat): seq<int>
    requires i < |m|
  {
    if Addable(m, i, list) then Inserted(list, PosOf(m[i], list), m[i].v) else list
  }

  /** The list after the entries from `i` on. */
  ghost function PassFrom(m: Mapping, list: seq<int>, i: nat): seq<int>
    requires i <= |m|
    decreases |m| - i
  {
    if i == |m| then list else PassFrom(m, Step(m, list, i), i + 1)
  }

  /** The list after `k` passes over the table. */
  ghost function Passes(m: Mapping, list: seq<int>, k: nat): seq<int> {
    if k == 0 then list else PassFrom(m, Passes(m, list, k - 1), 0)
  }

  /** The loop ends: after some passes all values are there. */
  ghost predicate Ends(m: Mapping, base: seq<int>) {
    exists k: nat :: |Passes(m, base, k)| == |m|
  }

  /** The order in which values were added ranks those that were not there at first: each refers to one before it. */
  ghost predicate InTurn(m: Mapping, base: seq<int>, list: seq<int>, turn: seq<int>) {
    && NoDup(turn) && InTable(m, turn) && |turn| == |list| && (forall x :: x in turn <==> x in list)
    && forall i | 0 <= i < |m| && m[i].v in turn && m[i].v !in base && m[i].vrel != -1 ::
         Before(turn, m[i].vrel, m[i].v)
  }

  lemma TurnStep(m: Mapping, base: seq<int>, list: seq<int>, turn: seq<int>, k: nat) returns (next: seq<int>)
    requires TableOk(m) && InTurn(m, base, list, turn) && k < |m|
    ensures InTurn(m, base, Step(m, list, k), next)
  {
    next := turn;
    if Addable(m, k, list) {
      var v := m[k].v;
      next := turn + [v];
      SameMembers(list, PosOf(m[k], list), v);
      assert Has(m, v);
      forall i | 0 <= i < |m| && m[i].v in next && m[i].v !in base && m[i].vrel != -1
        ensures Before(next, m[i].vrel, m[i].v)
      {
        if m[i].v in turn {
          var a, b :| 0 <= a < b < |turn| && turn[a] == m[i].vrel && turn[b] == m[i].v;
          assert next[a] == m[i].vrel && next[b] == m[i].v;
        } else {
          assert i == k;
          var a :| 0 <= a < |turn| && turn[a] == m[k].vrel;
          assert next[a] == m[k].vrel && next[|turn|] == v;
        }
      }
    }
  }

  lemma {:induction false} TurnPass(m: Mapping, base: seq<int>, list: seq<int>, turn: seq<int>, k: nat)
    returns (next: seq<int>)
    requires TableOk(m) && InTurn(m, base, list, turn) && k <= |m|
    ensures InTurn(m, base, PassFrom(m, list, k), next)
    decreases |m| - k
  {
    hide InTurn, TableOk, Step;
    if k == |m| {
      next := turn;
    } else {
      next := TurnStep(m, base, list, turn, k);
      next := TurnPass(m, base, Step(m, list, k), next, k + 1);
    }
  }

  lemma {:induction false} TurnPasses(m: Mapping, base: seq<int>, k: nat) returns (turn: seq<int>)
    requires TableOk(m) && NoDup(base) && InTable(m, base)
    ensures InTurn(m, base, Passes(m, base, k), turn)
  {
    if k == 0 {
      turn := base;
    } else {
      turn := TurnPasses(m, base, k - 1);
      turn := TurnPass(m, base, Passes(m, base, k - 1), turn, 0);
    }
  }

  lemma {:induction false} PassGrows(m: Mapping, list: seq<int>, i: nat)
    requires i <= |m|
    ensures |list| <= |PassFrom(m, list, i)| && forall x | x in list :: x in PassFrom(m, list, i)
    ensures |PassFrom(m, list, i)| == |list| ==> forall k: nat | i <= k :: !Addable(m, k, list)
    decreases |m| - i
  {
    hide Step, Addable;
    if i < |m| {
      StepGrows(m, list, i);
      PassGrows(m, Step(m, list, i), i + 1);
    } else {
      NothingBeyond(m, list);
    }
  }

  lemma StepGrows(m: Mapping, list: seq<int>, i: nat)
    requires i < |m|
    ensures |list| <= |Step(m, list, i)| && forall x | x in list :: x in Step(m, list, i)
    ensures |Step(m, list, i)| == |list| ==> Step(m, list, i) == list && !Addable(m, i, list)
  {
    if Addable(m, i, list) { SameMembers(list, PosOf(m[i], list), m[i].v); }
  }

  lemma NothingBeyond(m: Mapping, list: seq<int>)
    ensures forall k: nat | |m| <= k :: !Addable(m, k, list)
  {
  }

  /** Without cycles every pass adds something until all is there. */
  lemma {:induction false} EndsFrom(m: Mapping, base: seq<int>, k: nat) returns (n: nat)
    requires TableOk(m) && NoCycles(m, base) && NoDup(base) && InTable(m, base)
    ensures k <= n && |Passes(m, base, n)| == |m|
    decreases |m| - |Passes(m, base, k)|
  {
    hide TableOk, NoCycles, InTurn;
    var list := Passes(m, base, k);
    var turn := TurnPasses(m, base, k);
    TurnBound(m, base, list, turn);
    if |list| == |m| {
      n := k;
    } else {
      PassesKeep(m, base, k);
      NextToAdd(m, base, list);
      PassGrows(m, list, 0);
      n := EndsFrom(m, base, k + 1);
    }
  }

  lemma {:induction false} PassesKeep(m: Mapping, base: seq<int>, k: nat)
    ensures forall x | x in base :: x in Passes(m, base, k)
  {
    if k > 0 {
      PassesKeep(m, base, k - 1);
      PassGrows(m, Passes(m, base, k - 1), 0);
    }
  }

  lemma TurnBound(m: Mapping, base: seq<int>, list: seq<int>, turn: seq<int>)
    requires TableOk(m) && InTurn(m, base, list, turn)
    ensures |list| <= |m|
  {
    NotMore(m, turn);
  }

  /** The loop of `gprefs_from_str` ends if and only if there are no cycles among the values that the list does not
      mention. */
  lemma EndsIff(m: Mapping, base: seq<int>)
    requires TableOk(m) && NoDup(base) && InTable(m, base)
    ensures Ends(m, base) <==> NoCycles(m, base)
  {
    if NoCycles(m, base) {
      var n := EndsFrom(m, base, 0);
    }
    if Ends(m, base) {
      var k: nat :| |Passes(m, base, k)| == |m|;
      var turn := TurnPasses(m, base, k);
      AllThere(m, turn);
      var rank: seq<nat> := seq(|m|, i requires 0 <= i < |m| => IndexOf(turn, m[i].v));
      forall i, j | 0 <= i < |m| && 0 <= j < |m| && m[i].vrel == m[j].v && m[i].v !in base && m[j].v !in base
        ensures rank[j] < rank[i]
      {
        assert 0 <= m[j].v;
        assert Before(turn, m[i].vrel, m[i].v);
        var a, b :| 0 <= a < b < |turn| && turn[a] == m[i].vrel && turn[b] == m[i].v;
        assert a == rank[j] && b == rank[i];
      }
      assert Ranked(m, base, rank);
    }
  }

  /** Two values that refer to each other: the loop does not end on an empty text, but it does once one is mentioned. */
  lemma TwoInACircle(m: Mapping)
    requires m == [KeyVal("a", 0, 1, 1), KeyVal("b", 1, 0, 1)]
    ensures TableOk(m) && !Ends(m, []) && Ends(m, [0])
  {
    hide Ends, Ranked;
    CircleIsTable(m);
    EndsIff(m, []);
    EndsIff(m, [0]);
    forall rank ensures !Ranked(m, [], rank) {
      NoRankInCircle(m, rank);
    }
    OneLeftOut(m);
  }

  lemma CircleIsTable(m: Mapping)
    requires m == [KeyVal("a", 0, 1, 1), KeyVal("b", 1, 0, 1)]
    ensures TableOk(m) && NoDup([0]) && InTable(m, [0])
  {
    assert m[0].v == 0 && m[1].v == 1;
    assert Has(m, 0) && Has(m, 1);
  }

  lemma NoRankInCircle(m: Mapping, rank: seq<nat>)
    requires m == [KeyVal("a", 0, 1, 1), KeyVal("b", 1, 0, 1)]
    ensures !Ranked(m, [], rank)
  {
    assert m[0].vrel == m[1].v && m[1].vrel == m[0].v;
  }

  lemma OneLeftOut(m: Mapping)
    requires m == [KeyVal("a", 0, 1, 1), KeyVal("b", 1, 0, 1)]
    ensures NoCycles(m, [0])
  {
    assert m[0].v == 0 && m[1].v == 1 && m[0].vrel == 1 && m[1].vrel == 0;
    assert Ranked(m, [0], [0, 0]);
  }

  /** So it ends for every text if and only if there are no cycles at all. */
  lemma AlwaysEndsIff(m: Mapping)
    requires TableOk(m)
    ensures NoCycles(m, []) <==> forall base | NoDup(base) && InTable(m, base) :: Ends(m, base)
  {
    if NoCycles(m, []) {
      forall base | NoDup(base) && InTable(m, base) ensures Ends(m, base) {
        var rank :| Ranked(m, [], rank);
        assert Ranked(m, base, rank);
        EndsIff(m, base);
      }
    }
    if forall base | NoDup(base) && InTable(m, base) :: Ends(m, base) {
      assert Ends(m, []);
      EndsIff(m, []);
    }
  }

  lemma AllThere(m: Mapping, full: seq<int>)
    requires TableOk(m) && NoDup(full) && InTable(m, full) && |full| == |m|
    ensures forall i | 0 <= i < |m| :: m[i].v in full
  {
    var vs := ValuesOf(m);
    assert NoDup(vs);
    SizeOfList(vs);
    SizeOfList(full);
    var a, b := set x | x in full, set x | x in vs;
    forall x | x in a ensures x in b {
      var i :| 0 <= i < |m| && m[i].v == x;
      assert vs[i] == x;
    }
    SameSize(a, b);
    forall i | 0 <= i < |m| ensures m[i].v in full {
      assert vs[i] in b;
    }
  }

  lemma SameSize(a: set<int>, b: set<int>)
    requires a <= b && |a| == |b|
    ensures a == b
  {
    assert b == a + (b - a);
  }

  // ----- the loops

  /** One element of the table, in one pass over it. */
  method AddOne(m: Mapping, i: nat, conf: Conf, n: nat, seen: nat, ghost base: seq<int>, ghost list: seq<int>)
    returns (n': nat, seen': nat, ghost list': seq<int>)
    requires TableOk(m) && i < |m| && Sound(m, base, list) && SeenOk(seen, list) && conf.Holds(list) && n == |list|
             && Scanned(m, base, list, i)
    modifies conf
    ensures Sound(m, base, list') && SeenOk(seen', list') && conf.Holds(list') && n' == |list'|
            && Scanned(m, base, list', i + 1)
            && (forall x | x in list :: x in list')
    ensures n <= n' && list' == Step(m, list, i) && (n' == n ==> list' == list)
    ensures n' > n <==> Addable(m, i, list)
  {
    hide TableOk, Bit, Mark, Pow2, Sound, SeenOk, NoDup, Scanned, InTime;
    n', seen', list' := n, seen, list;
    ScanStep(m, base, list, i);
    Entries(m, i);
    SeenIs(seen, list, m[i].v);
    if !Bit(seen, m[i].v) {
      if m[i].vrel != -1 {
        SeenIs(seen, list, m[i].vrel);
        if !Bit(seen, m[i].vrel) {
          return;
        }
      }
      var pos;
      if m[i].vrel == -1 {
        pos := if m[i].side < 0 then n else 0;
      } else {
        var j := conf.Find(m[i].vrel, n, list);
        OnlyIndex(m, base, list, m[i].vrel, j);
        pos := if m[i].side < 0 then j else j + 1;
      }
      assert RightPlace(m[i], list, pos);
      SoonerThere(m, base, list, i);
      SoundMore(m, base, list, i, pos);
      SeenMore(seen, list, m[i].v);
      SameMembers(list, pos, m[i].v);
      conf.Insert(pos, m[i].v, n, list);
      list' := Inserted(list, pos, m[i].v);
      seen' := Mark(seen, m[i].v);
      n' := n + 1;
    }
  }

  lemma OnlyIndex(m: Mapping, base: seq<int>, list: seq<int>, v: int, j: nat)
    requires Sound(m, base, list) && j < |list| && list[j] == v
    ensures v in list && j == IndexOf(list, v)
  {
  }

  lemma Entries(m: Mapping, i: nat)
    requires TableOk(m) && i < |m|
    ensures 0 <= m[i].v < 32 && (m[i].vrel == -1 || 0 <= m[i].vrel < 32)
  {
    if m[i].vrel != -1 {
      var j :| 0 <= j < |m| && m[j].v == m[i].vrel;
    }
  }

  /** One pass over the table adds something if and only if something can be added. */
  method Pass(m: Mapping, conf: Conf, n: nat, seen: nat, ghost base: seq<int>, ghost list: seq<int>)
    returns (n': nat, seen': nat, ghost list': seq<int>)
    requires TableOk(m) && Sound(m, base, list) && SeenOk(seen, list) && conf.Holds(list) && n == |list|
             && Scanned(m, base, list, 0)
    modifies conf
    ensures Sound(m, base, list') && SeenOk(seen', list') && conf.Holds(list') && n' == |list'| && n <= n'
            && Scanned(m, base, list', 0)
    ensures list' == PassFrom(m, list, 0) && (n' > n <==> SomeAddable(m, list))
  {
    hide TableOk, Bit, Mark, Pow2, Sound, SeenOk, Step, Scanned;
    n', seen', list' := n, seen, list;
    for i := 0 to |m|
      invariant PassFrom(m, list, 0) == PassFrom(m, list', i) && Scanned(m, base, list', i)
      invariant Sound(m, base, list') && SeenOk(seen', list') && conf.Holds(list') && n' == |list'| && n <= n'
      invariant if n' > n then SomeAddable(m, list) else list' == list && forall k: nat | k < i :: !Addable(m, k, list)
    {
      n', seen', list' := AddOne(m, i, conf, n', seen', base, list');
    }
    ScanAgain(m, base, list');
  }

  /** The second loop of `gprefs_from_str`. */
  method Complete(m: Mapping, conf: Conf, n0: nat, seen0: nat, ghost base: seq<int>)
    returns (ghost list: seq<int>, ghost k: nat)
    requires TableOk(m) && NoCycles(m, base) && NoDup(base) && InTable(m, base) && SeenOk(seen0, base)
             && conf.Holds(base) && n0 == |base|
    modifies conf
    ensures Sound(m, base, list) && conf.Holds(list) && |list| == |m| && (|base| == |m| ==> list == base)
    ensures list == Passes(m, base, k)
  {
    hide TableOk, NoCycles, SeenOk, OrderKept, Placed, Close, InOrder, Scanned;
    var n, seen := n0, seen0;
    list, k := base, 0;
    SoundAtFirst(m, base);
    ScanStarts(m, base);
    NotMore(m, list);
    while n < |m|
      invariant Sound(m, base, list) && SeenOk(seen, list) && conf.Holds(list) && n == |list| <= |m|
                && (|base| == |m| ==> list == base)
      invariant list == Passes(m, base, k) && Scanned(m, base, list, 0)
      decreases |m| - n
    {
      NextToAdd(m, base, list);
      n, seen, list := Pass(m, conf, n, seen, base, list);
      k := k + 1;
      NotMore(m, list);
    }
  }

  lemma NotMore(m: Mapping, list: seq<int>)
    requires TableOk(m) && NoDup(list) && InTable(m, list)
    ensures |list| <= |m|
  {
    var vs := ValuesOf(m);
    assert NoDup(vs);
    SizeOfList(vs);
    SizeOfList(list);
    forall x | x in list ensures x in vs {
      var i :| 0 <= i < |m| && m[i].v == x;
      assert vs[i] == x;
    }
    SubsetSize(set x | x in list, set x | x in vs);
  }

  /** `gprefs_from_str`: ends with all values of the table, each once.  Those that the list mentions keep its order, and
      every other one stands where its rule says.  It is asked only for what the loop needs to end (see `EndsIff`). */
  method ReadPreferences(str: string, m: Mapping, conf: Conf) returns (ghost list: seq<int>)
    requires TableOk(m) && NoCycles(m, Listed(m, str))
    modifies conf
    ensures conf.Holds(list) && |list| == |m| && NoDup(list) && (forall i | 0 <= i < |m| :: m[i].v in list)
    ensures OrderKept(Listed(m, str), list) && forall i | 0 <= i < |m| :: Placed(m[i], Listed(m, str), list)
    ensures forall i | 0 <= i < |m| :: Close(m, m[i], Listed(m, str), list)
    ensures forall i: nat, j: nat :: InOrder(m, Listed(m, str), list, i, j)
    ensures |Listed(m, str)| == |m| ==> list == Listed(m, str)
  {
    hide Listed, TableOk, NoCycles, Placed, Close, InOrder, OrderKept, SeenOk;
    var n, seen := ReadWords(str, m, conf);
    ghost var k;
    list, k := Complete(m, conf, n, seen, Listed(m, str));
    AllThere(m, list);
    forall i | 0 <= i < |m| ensures Placed(m[i], Listed(m, str), list) && Close(m, m[i], Listed(m, str), list) {
    }
  }

  // ----- writing

  /** The index of the entry of a value, or the size of the table. */
  function EntryOf(m: Mapping, v: int): (i: nat)
    ensures i <= |m| && (i < |m| ==> m[i].v == v) && forall j | 0 <= j < i :: m[j].v != v
  {
    if m == [] || m[0].v == v then 0 else 1 + EntryOf(m[1..], v)
  }

  /** `val2key`, where `i` is the entry found. */
  method ValToKey(m: Mapping, v: int) returns (i: nat)
    ensures i == EntryOf(m, v)
  {
    i := 0;
    while i < |m| && m[i].v != v
      invariant i <= |m| && forall j | 0 <= j < i :: m[j].v != v
    {
      i := i + 1;
    }
  }

  /** What is written for the values of a list. */
  function Written(m: Mapping, list: seq<int>): string {
    if list == [] then ""
    else
      var w, i := Written(m, list[..|list| - 1]), EntryOf(m, list[|list| - 1]);
      if i == |m| then w else w + (if w != "" then "," else "") + m[i].s
  }

  /** `wprefs`. */
  method WritePreferences(m: Mapping, conf: Conf, ghost list: seq<int>) returns (out: string)
    requires conf.Holds(list) && |list| == |m|
    ensures out == Written(m, list)
  {
    out := "";
    for i := 0 to |m|
      invariant out == Written(m, list[..i])
    {
      var v := conf.Get(i);
      var k := ValToKey(m, v);
      assert list[..i + 1][..i] == list[..i];
      if k < |m| {
        out := out + (if |out| != 0 then "," else "") + m[k].s;
      }
    }
    assert list[..|m|] == list;
  }

  /** The words of a table are different from each other, not empty, and free of commas. */
  ghost predicate KeysOk(m: Mapping) {
    && (forall i | 0 <= i < |m| :: m[i].s != "" && ',' !in m[i].s)
    && (forall i, j | 0 <= i < j < |m| :: m[i].s != m[j].s)
  }

  lemma {:induction false} OneWord(x: string)
    requires ',' !in x
    ensures FirstWord(x) == x && (x != "" ==> Words(x) == [x])
  {
    if x != "" {
      OneWord(x[1..]);
      assert x[|x|..] == "";
    }
  }

  lemma {:induction false} WordsJoined(a: string, b: string)
    ensures Words(a + "," + b) == Words(a) + Words(b)
    decreases |a|
  {
    hide FirstWord, Words;
    var s := a + "," + b;
    WordsUnfold(s);
    WordsUnfold(a);
    if a == "" {
      assert s[1..] == b;
    } else if a[0] == ',' {
      assert s[1..] == a[1..] + "," + b;
      WordsJoined(a[1..], b);
    } else {
      FirstOfJoined(a, b);
      FirstNotEmpty(a);
      var w := FirstWord(a);
      assert s[|w|..] == a[|w|..] + "," + b;
      WordsJoined(a[|w|..], b);
    }
  }

  lemma WordsUnfold(s: string)
    ensures Words(s) == if s == [] then [] else if s[0] == ',' then Words(s[1..]) else
              [FirstWord(s)] + Words(s[|FirstWord(s)|..])
  {
  }

  lemma FirstNotEmpty(a: string)
    requires a != "" && a[0] != ','
    ensures |FirstWord(a)| > 0
  {
  }

  lemma {:induction false} FirstOfJoined(a: string, b: string)
    ensures FirstWord(a + "," + b) == FirstWord(a)
  {
    if a != "" && a[0] != ',' {
      assert (a + "," + b)[1..] == a[1..] + "," + b;
      FirstOfJoined(a[1..], b);
    }
  }

  /** The name of a value, if it has one. */
  function NameOf(m: Mapping, v: int): string {
    var i := EntryOf(m, v);
    if i == |m| then "" else m[i].s
  }

  function Names(m: Mapping, list: seq<int>): (r: seq<string>)
    ensures |r| == |list| && forall i | 0 <= i < |list| :: r[i] == NameOf(m, list[i])
  {
    seq(|list|, i requires 0 <= i < |list| => NameOf(m, list[i]))
  }

  lemma InTableFound(m: Mapping, list: seq<int>)
    requires InTable(m, list)
    ensures forall v | v in list :: EntryOf(m, v) < |m|
  {
    forall v | v in list ensures EntryOf(m, v) < |m| {
      var i :| 0 <= i < |m| && m[i].v == v;
    }
  }

  lemma {:induction false} WordsWritten(m: Mapping, list: seq<int>)
    requires KeysOk(m) && forall v | v in list :: EntryOf(m, v) < |m|
    ensures Words(Written(m, list)) == Names(m, list) && (Written(m, list) == "" <==> list == [])
  {
    if list != [] {
      var front, v := list[..|list| - 1], list[|list| - 1];
      Found(m, list);
      WordsWritten(m, front);
      WrittenLast(m, list);
      hide Words, Written, EntryOf, Names, NameOf;
      NamesLast(m, list);
    }
  }

  lemma Found(m: Mapping, list: seq<int>)
    requires list != [] && forall v | v in list :: EntryOf(m, v) < |m|
    ensures EntryOf(m, list[|list| - 1]) < |m| && forall v | v in list[..|list| - 1] :: EntryOf(m, v) < |m|
  {
    hide EntryOf;
    assert list[|list| - 1] in list && forall x | x in list[..|list| - 1] :: x in list;
  }

  lemma NamesLast(m: Mapping, list: seq<int>)
    requires list != []
    ensures Names(m, list) == Names(m, list[..|list| - 1]) + [NameOf(m, list[|list| - 1])]
  {
    hide NameOf;
  }

  lemma WrittenLast(m: Mapping, list: seq<int>)
    requires KeysOk(m) && list != [] && EntryOf(m, list[|list| - 1]) < |m|
    ensures Words(Written(m, list)) == Words(Written(m, list[..|list| - 1])) + [NameOf(m, list[|list| - 1])]
            && Written(m, list) != ""
  {
    var w, name := Written(m, list[..|list| - 1]), m[EntryOf(m, list[|list| - 1])].s;
    assert Written(m, list) == w + (if w != "" then "," else "") + name;
    hide Written, EntryOf;
    OneWord(name);
    if w != "" {
      WordsJoined(w, name);
      assert w + "," + name != "";
    } else {
      assert w + "" + name == name;
    }
  }

  lemma {:induction false} NameMeans(m: Mapping, i: nat)
    requires KeysOk(m) && i < |m|
    ensures ValueOf(m, m[i].s) == m[i].v
  {
    if i > 0 {
      assert KeysOk(m[1..]);
      NameMeans(m[1..], i - 1);
    }
  }

  lemma {:induction false} NamesMentioned(m: Mapping, list: seq<int>, k: nat)
    requires TableOk(m) && KeysOk(m) && NoDup(list) && (forall v | v in list :: EntryOf(m, v) < |m|) && k <= |list|
    ensures Mentioned(m, Names(m, list)[k..], list[..k]) == list
    decreases |list| - k
  {
    hide TableOk, KeysOk, NoDup, Names, EntryOf, Mentioned;
    if k == |list| {
      assert list[..k] == list && Names(m, list)[k..] == [];
      NoneMentioned(m, list);
    } else {
      NextMentioned(m, list, k);
      NamesMentioned(m, list, k + 1);
    }
  }

  lemma NoneMentioned(m: Mapping, before: seq<int>)
    ensures Mentioned(m, [], before) == before
  {
  }

  lemma NextMentioned(m: Mapping, list: seq<int>, k: nat)
    requires TableOk(m) && KeysOk(m) && NoDup(list) && k < |list| && EntryOf(m, list[k]) < |m|
    ensures Mentioned(m, Names(m, list)[k..], list[..k]) == Mentioned(m, Names(m, list)[k + 1..], list[..k + 1])
  {
    hide KeysOk, EntryOf, Mentioned, TableOk, NoDup;
    var words := Names(m, list)[k..];
    var i := EntryOf(m, list[k]);
    NameMeans(m, i);
    Entries(m, i);
    assert words[0] == m[i].s && words[1..] == Names(m, list)[k + 1..];
    NotBefore(list, k);
    MentionedFirst(m, words, list[..k]);
  }

  lemma NotBefore(list: seq<int>, k: nat)
    requires NoDup(list) && k < |list|
    ensures list[k] !in list[..k] && list[..k] + [list[k]] == list[..k + 1]
  {
  }

  lemma MentionedFirst(m: Mapping, words: seq<string>, before: seq<int>)
    requires words != []
    ensures var v := ValueOf(m, words[0]);
            Mentioned(m, words, before)
            == Mentioned(m, words[1..], if v == -1 || v in before then before else before + [v])
  {
  }

  /** What is written mentions the list itself. */
  lemma WrittenIsListed(m: Mapping, list: seq<int>)
    requires TableOk(m) && KeysOk(m) && NoDup(list) && InTable(m, list)
    ensures Listed(m, Written(m, list)) == list
  {
    InTableFound(m, list);
    WordsWritten(m, list);
    NamesMentioned(m, list, 0);
    assert Names(m, list)[0..] == Names(m, list) && list[..0] == [];
  }

  /** A complete list that is written and read back is the same list. */
  method WriteThenRead(m: Mapping, conf: Conf, list: seq<int>, back: Conf)
    requires TableOk(m) && KeysOk(m) && conf.Holds(list) && |list| == |m| && NoDup(list) && InTable(m, list)
             && conf != back
    modifies back
    ensures back.Holds(list)
  {
    var out := WritePreferences(m, conf, list);
    WrittenIsListed(m, list);
    AllThere(m, list);
    assert Ranked(m, list, seq(|m|, i => 0));
    ghost var list' := ReadPreferences(out, m, back);
  }
}
