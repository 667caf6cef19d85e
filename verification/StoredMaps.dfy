/** String maps in the settings: written as a list of escaped pairs, and read back by a decoder that works in place. */
module StoredMaps {
  import opened Basics

  const NUL: char := '\0'

  datatype Entry = Entry(key: string, val: string)

  type StrMap = map<string, string>

  ghost predicate NoNul(s: string) {
    NUL !in s
  }

  // ----- the order of the entries

  /** `strcmp(a, b) < 0`. */
  predicate Less(a: string, b: string) {
    b != "" && (a == "" || a[0] < b[0] || (a[0] == b[0] && Less(a[1..], b[1..])))
  }

  /** The entries of a map, in the order in which the configuration gives them. */
  ghost predicate Sorted(es: seq<Entry>) {
    forall i, j | 0 <= i < j < |es| :: Less(es[i].key, es[j].key)
  }

  ghost predicate Clean(es: seq<Entry>) {
    forall e | e in es :: NoNul(e.key) && NoNul(e.val)
  }

  ghost function MapOf(es: seq<Entry>): StrMap {
    if es == [] then map[] else MapOf(es[..|es| - 1])[es[|es| - 1].key := es[|es| - 1].val]
  }

  lemma {:induction false} NotLessItself(a: string)
    ensures !Less(a, a)
  {
    if a != "" {
      NotLessItself(a[1..]);
    }
  }

  lemma Distinct(es: seq<Entry>, i: nat, j: nat)
    requires Sorted(es) && i < j < |es|
    ensures es[i].key != es[j].key && es[j].key != ""
  {
    NotLessItself(es[i].key);
  }

  ghost predicate IsKey(es: seq<Entry>, k: string) {
    exists i :: 0 <= i < |es| && es[i].key == k
  }

  lemma {:induction false} MapOfSorted(es: seq<Entry>)
    requires Sorted(es)
    ensures forall k :: k in MapOf(es) <==> IsKey(es, k)
    ensures forall i | 0 <= i < |es| :: es[i].key in MapOf(es) && MapOf(es)[es[i].key] == es[i].val
  {
    hide Sorted, MapOf, IsKey;
    if es == [] {
      MapOfNothing(es);
    } else {
      var front, n := es[..|es| - 1], |es| - 1;
      SortedFront(es);
      MapOfSorted(front);
      MapOfLast(es);
      forall i | 0 <= i < n ensures es[i].key in MapOf(es) && MapOf(es)[es[i].key] == es[i].val {
        Distinct(es, i, n);
        assert front[i] == es[i];
      }
      forall k ensures k in MapOf(es) <==> IsKey(es, k) {
        KeyOfFront(es, k);
      }
    }
  }

  lemma MapOfNothing(es: seq<Entry>)
    requires es == []
    ensures MapOf(es) == map[] && forall k :: !IsKey(es, k)
  {
  }

  lemma MapOfLast(es: seq<Entry>)
    requires es != []
    ensures MapOf(es) == MapOf(es[..|es| - 1])[es[|es| - 1].key := es[|es| - 1].val]
  {
  }

  lemma SortedFront(es: seq<Entry>)
    requires Sorted(es) && es != []
    ensures Sorted(es[..|es| - 1])
  {
  }

  lemma KeyOfFront(es: seq<Entry>, k: string)
    requires es != []
    ensures IsKey(es, k) <==> IsKey(es[..|es| - 1], k) || es[|es| - 1].key == k
  {
    var front := es[..|es| - 1];
    if IsKey(front, k) {
      var i :| 0 <= i < |front| && front[i].key == k;
      assert es[i].key == k;
    }
    if i :| 0 <= i < |es| && es[i].key == k {
      assert i < |front| ==> front[i].key == k;
    }
  }

  // ----- characters

  /** The first place of a character, or the length of the string. */
  function Find(s: string, c: char): (i: nat)
    ensures i <= |s| && c !in s[..i] && (i < |s| <==> c in s) && (i < |s| ==> s[i] == c)
  {
    if s == "" || s[0] == c then 0 else 1 + Find(s[1..], c)
  }

  /** The first `a` becomes a `b`. */
  function Replaced(s: string, a: char, b: char): (r: string)
    ensures |r| == |s| && (a !in s ==> r == s)
  {
    var i := Find(s, a);
    if i == |s| then s else s[i := b]
  }

  predicate IsSpecial(c: char) {
    c == '=' || c == ',' || c == '\\'
  }

  function Escaped(s: string): string {
    if s == "" then "" else (if IsSpecial(s[0]) then ['\\', s[0]] else [s[0]]) + Escaped(s[1..])
  }

  // ----- writing

  /** The stored form of dynamic port forwardings: filed under a third letter, without a value. */
  function Legacy(e: Entry): Entry {
    if e.val == "D" then Entry(Replaced(e.key, 'L', 'D'), "") else e
  }

  function LegacyAll(es: seq<Entry>): (r: seq<Entry>)
    ensures |r| == |es| && forall i | 0 <= i < |es| :: r[i] == Legacy(es[i])
  {
    seq(|es|, i requires 0 <= i < |es| => Legacy(es[i]))
  }

  function Item(e: Entry, values: bool): string {
    Escaped(e.key) + if values then "=" + Escaped(e.val) else ""
  }

  /** What is stored, the last entry at its end. */
  function Stored(es: seq<Entry>, values: bool): string {
    if es == [] then ""
    else
      var w := Stored(es[..|es| - 1], values);
      w + (if w != "" then "," else "") + Item(es[|es| - 1], values)
  }

  /** A string is written character by character, escaped. */
  method PutEscaped(out: string, s: string) returns (out': string)
    ensures out' == out + Escaped(s)
  {
    out' := out;
    for i := 0 to |s|
      invariant out' + Escaped(s[i..]) == out + Escaped(s)
    {
      assert s[i..][1..] == s[i + 1..];
      if IsSpecial(s[i]) {
        out' := out' + ['\\'];
      }
      out' := out' + [s[i]];
    }
    assert s[|s|..] == "";
  }

  /** One entry is written, after a comma unless it is the first. */
  method PutEntry(out: string, e: Entry, portForwards: bool, values: bool) returns (out': string)
    ensures out' == out + (if out != "" then "," else "") + Item(if portForwards then Legacy(e) else e, values)
  {
    hide Escaped;
    var key, val := e.key, e.val;
    if portForwards && val == "D" {
      val := "";
      var l := Find(key, 'L');
      if l < |key| {
        key := key[l := 'D'];
      }
    }
    assert Entry(key, val) == if portForwards then Legacy(e) else e;
    hide Legacy;
    out' := out;
    if |out| != 0 {
      out' := out' + ",";
    }
    ghost var before := out';
    out' := PutEscaped(out', key);
    if values {
      out' := out' + "=";
      out' := PutEscaped(out', val);
    }
    assert out' == before + Item(Entry(key, val), values);
  }

  /** `wmap`. */
  method WriteMap(es: seq<Entry>, portForwards: bool, values: bool) returns (out: string)
    ensures out == Stored(if portForwards then LegacyAll(es) else es, values)
  {
    hide Item, Legacy;
    ghost var all := if portForwards then LegacyAll(es) else es;
    out := "";
    for i := 0 to |es|
      invariant out == Stored(all[..i], values)
    {
      assert all[..i + 1][..i] == all[..i] && all[..i + 1][i] == if portForwards then Legacy(es[i]) else es[i];
      out := PutEntry(out, es[i], portForwards, values);
    }
    assert all[..|es|] == all;
  }

  // ----- what is stored

  /** `t` spells `s`, with a backslash before every comma, equals sign and backslash and before nothing else. */
  ghost predicate Spells(t: string, s: string)
    decreases |t|
  {
    if t == "" then s == ""
    else if t[0] == '\\' then
      |t| > 1 && t[1] in {',', '=', '\\'} && s != "" && s[0] == t[1] && Spells(t[2..], s[1..])
    else t[0] !in {',', '='} && s != "" && s[0] == t[0] && Spells(t[1..], s[1..])
  }

  lemma {:induction false} SpellsIff(t: string, s: string)
    ensures Spells(t, s) <==> t == Escaped(s)
    decreases |t| + |s|
  {
    if t != "" && s != "" {
      var k := if t[0] == '\\' then 2 else 1;
      if k <= |t| {
        SpellsIff(t[k..], s[1..]);
        assert t == t[..k] + t[k..];
      }
      if IsSpecial(s[0]) {
        assert Escaped(s)[0] == '\\' && Escaped(s)[1] == s[0] && Escaped(s)[2..] == Escaped(s[1..]);
      } else {
        assert Escaped(s)[0] == s[0] && Escaped(s)[1..] == Escaped(s[1..]);
      }
    }
  }

  /** The parts of a text between the commas that no backslash precedes. */
  function Fields(t: string): (r: seq<string>)
    ensures r != []
    decreases |t|
  {
    if t == "" then [""]
    else if t[0] == ',' then [""] + Fields(t[1..])
    else if t[0] == '\\' && |t| > 1 then
      var r := Fields(t[2..]);
      [t[..2] + r[0]] + r[1..]
    else
      var r := Fields(t[1..]);
      [t[..1] + r[0]] + r[1..]
  }

  /** No such comma, and no backslash at the end. */
  predicate OneField(t: string)
    decreases |t|
  {
    t == "" || (t[0] != ',' && if t[0] == '\\' then |t| > 1 && OneField(t[2..]) else OneField(t[1..]))
  }

  lemma {:induction false} FieldsOfOne(t: string)
    requires OneField(t)
    ensures Fields(t) == [t]
    decreases |t|
  {
    if t != "" {
      var k := if t[0] == '\\' then 2 else 1;
      FieldsOfOne(t[k..]);
      assert t == t[..k] + t[k..];
    }
  }

  lemma {:induction false} OneFieldMore(a: string, b: string)
    requires OneField(a) && OneField(b)
    ensures OneField(a + b)
    decreases |a|
  {
    if a == "" {
      assert a + b == b;
    } else {
      var k := if a[0] == '\\' then 2 else 1;
      assert (a + b)[k..] == a[k..] + b;
      OneFieldMore(a[k..], b);
    }
  }

  /** How far the first character goes, with the one it escapes. */
  function StepOf(t: string): nat
    requires t != ""
  {
    if t[0] == '\\' && |t| > 1 then 2 else 1
  }

  lemma FieldsStep(t: string)
    requires t != "" && t[0] != ','
    ensures var k, r := StepOf(t), Fields(t[StepOf(t)..]); Fields(t) == [t[..k] + r[0]] + r[1..]
  {
  }

  lemma {:induction false} FieldsMore(a: string, b: string)
    requires Intact(a)
    ensures Fields(a + "," + b) == Fields(a) + Fields(b)
    decreases |a|
  {
    hide Fields;
    var s := a + "," + b;
    if a == "" {
      assert s[1..] == b;
      FieldsAfterComma(s);
      FieldsOfOne("");
    } else {
      var k := StepOf(a);
      assert s[k..] == a[k..] + "," + b && s[..k] == a[..k];
      FieldsMore(a[k..], b);
      if a[0] == ',' {
        FieldsAfterComma(a);
        FieldsAfterComma(s);
        Regrouped([""], Fields(a[1..]), Fields(b));
      } else {
        FieldsStep(a);
        FieldsStep(s);
      }
    }
  }

  lemma FieldsAfterComma(t: string)
    requires t != "" && t[0] == ','
    ensures Fields(t) == [""] + Fields(t[1..])
  {
  }

  lemma Regrouped(a: seq<string>, b: seq<string>, c: seq<string>)
    ensures a + (b + c) == a + b + c
  {
  }

  lemma {:induction false} IntactMore(a: string, b: string)
    requires Intact(a) && Intact(b)
    ensures Intact(a + "," + b)
    decreases |a|
  {
    var s := a + "," + b;
    if a == "" {
      assert s[1..] == b;
    } else {
      var k := if a[0] == '\\' then 2 else 1;
      assert s[k..] == a[k..] + "," + b;
      IntactMore(a[k..], b);
    }
  }

  lemma {:induction false} EscapedIsOne(s: string)
    ensures OneField(Escaped(s)) && Intact(Escaped(s))
  {
    if s != "" {
      EscapedIsOne(s[1..]);
      var t := Escaped(s);
      if IsSpecial(s[0]) {
        assert t[0] == '\\' && t[1] == s[0] && t[2..] == Escaped(s[1..]);
      } else {
        assert t[0] == s[0] && t[1..] == Escaped(s[1..]);
      }
    }
  }

  lemma {:induction false} OneIsIntact(t: string)
    requires OneField(t)
    ensures Intact(t)
    decreases |t|
  {
    if t != "" { OneIsIntact(t[if t[0] == '\\' then 2 else 1..]); }
  }

  lemma ItemIsOne(e: Entry, values: bool)
    ensures OneField(Item(e, values)) && Intact(Item(e, values))
  {
    hide Escaped, OneField, Intact;
    EscapedIsOne(e.key);
    EscapedIsOne(e.val);
    if values {
      JustEquals();
      OneFieldMore("=", Escaped(e.val));
      OneFieldMore(Escaped(e.key), "=" + Escaped(e.val));
    } else {
      assert Item(e, values) == Escaped(e.key);
    }
    OneIsIntact(Item(e, values));
  }

  lemma JustEquals()
    ensures OneField("=")
  {
    assert "="[1..] == "";
  }

  /** A part of the text is an entry: its key, and if values are stored, an equals sign and its value. */
  ghost predicate Shows(f: string, e: Entry, values: bool) {
    if values then exists k: nat :: k < |f| && f[k] == '=' && Spells(f[..k], e.key) && Spells(f[k + 1..], e.val)
    else Spells(f, e.key)
  }

  lemma ItemShows(e: Entry, values: bool)
    ensures Shows(Item(e, values), e, values)
  {
    hide Escaped, Spells;
    var f, k := Item(e, values), |Escaped(e.key)|;
    SpellsIff(Escaped(e.key), e.key);
    if values {
      SpellsIff(Escaped(e.val), e.val);
      assert f[..k] == Escaped(e.key) && f[k] == '=' && f[k + 1..] == Escaped(e.val);
    } else {
      assert f == Escaped(e.key);
    }
  }

  /** The text has one part for every entry, in their order, with one comma between two and none at the end.  Only keys
      stored without values can be lost: an empty one at the start leaves nothing behind. */
  lemma {:induction false} StoredShows(es: seq<Entry>, values: bool)
    ensures es == [] ==> Stored(es, values) == ""
    ensures es != [] && (values || es[0].key != "") ==>
              var fs := Fields(Stored(es, values));
              |fs| == |es| && forall i | 0 <= i < |es| :: Shows(fs[i], es[i], values)
    ensures es != [] && !values && es[0].key == "" ==> Stored(es, values) == Stored(es[1..], values)
  {
    hide Item, Shows, Fields, Intact;
    if es != [] {
      if values || es[0].key != "" {
        var fs := PartsOf(es, values);
      } else {
        EmptyLost(es);
      }
    }
  }

  lemma {:induction false} EmptyLost(es: seq<Entry>)
    requires es != [] && es[0].key == ""
    ensures Stored(es, false) == Stored(es[1..], false)
  {
    hide Item;
    if |es| == 1 {
      assert es[..0] == [] && es[1..] == [];
      NoItem(es[0]);
    } else {
      var front := es[..|es| - 1];
      EmptyLost(front);
      assert es[1..][..|es| - 2] == front[1..];
    }
  }

  lemma NoItem(e: Entry)
    requires e.key == ""
    ensures Item(e, false) == ""
  {
  }

  lemma {:induction false} PartsOf(es: seq<Entry>, values: bool) returns (fs: seq<string>)
    requires es != [] && (values || es[0].key != "")
    ensures fs == Fields(Stored(es, values)) && Intact(Stored(es, values)) && Stored(es, values) != ""
    ensures |fs| == |es| && forall i | 0 <= i < |es| :: Shows(fs[i], es[i], values)
  {
    hide Item, Shows, Fields, Intact;
    var front, last := es[..|es| - 1], es[|es| - 1];
    var item := Item(last, values);
    ItemIsOne(last, values);
    ItemShows(last, values);
    FieldsOfOne(item);
    if |es| == 1 {
      assert front == [] && "" + "" + item == item;
      SomeItem(last, values);
      fs := [item];
    } else {
      fs := PartsOf(front, values);
      FieldsMore(Stored(front, values), item);
      IntactMore(Stored(front, values), item);
      fs := fs + [item];
    }
  }

  lemma SomeItem(e: Entry, values: bool)
    requires values || e.key != ""
    ensures Item(e, values) != ""
  {
  }

  // ----- reading

  /** The first entry, with an `=` that is not escaped turned into a NUL, and what is left after the comma. */
  function Taken(s: string): (r: (string, string))
    ensures |r.1| <= |s| && (s != "" ==> |r.1| < |s|)
  {
    if s == "" then ("", "")
    else if s[0] == ',' then ("", s[1..])
    else if s[0] == '\\' && |s| >= 2 then
      var (t, rest) := Taken(s[2..]);
      ([s[1]] + t, rest)
    else
      var (t, rest) := Taken(s[1..]);
      ([if s[0] == '=' then NUL else s[0]] + t, rest)
  }

  /** Every backslash has a character after it. */
  predicate Intact(s: string) {
    s == "" || if s[0] == '\\' then |s| >= 2 && Intact(s[2..]) else Intact(s[1..])
  }

  /** The key ends at the first NUL, the value starts after the last one. */
  function KeyIn(t: string): string {
    t[..Find(t, NUL)]
  }

  function ValIn(t: string): string {
    if NUL !in t then "" else LastPart(t)
  }

  function LastPart(t: string): string {
    if NUL !in t then t else LastPart(t[Find(t, NUL) + 1..])
  }

  /** One entry goes into the map. */
  function Put(m: StrMap, t: string, portForwards: bool): StrMap {
    if portForwards && 'D' in KeyIn(t) then m[Replaced(KeyIn(t), 'D', 'L') := "D"] else m[KeyIn(t) := ValIn(t)]
  }

  function Parsed(m: StrMap, s: string, portForwards: bool): StrMap
    decreases |s|
  {
    if s == "" then m else Parsed(Put(m, Taken(s).0, portForwards), Taken(s).1, portForwards)
  }

  lemma {:induction false} FirstIs(a: string, b: string, c: char)
    requires c !in a && b != "" && b[0] == c
    ensures Find(a + b, c) == |a| && c in a + b
  {
    if a == "" {
      assert a + b == b;
    } else {
      assert (a + b)[1..] == a[1..] + b;
      FirstIs(a[1..], b, c);
    }
  }

  lemma ReplacedFirst(a: string, x: char, b: string, y: char)
    requires x !in a
    ensures Replaced(a + [x] + b, x, y) == a + [y] + b && x in a + [x] + b
  {
    FirstIs(a, [x] + b, x);
    assert a + [x] + b == a + ([x] + b);
    assert (a + [x] + b)[|a| := y] == a + [y] + b;
  }

  lemma KeyAndValue(key: string, val: string)
    requires NUL !in key && NUL !in val
    ensures KeyIn(key + [NUL] + val) == key && ValIn(key + [NUL] + val) == val
  {
    var t := key + [NUL] + val;
    FirstIs(key, [NUL] + val, NUL);
    assert t == key + ([NUL] + val) && t[..|key|] == key && t[|key| + 1..] == val;
    assert LastPart(t) == LastPart(val) == val;
  }

  lemma NotIn(a: string, b: string, c: char)
    requires c !in a && c !in b
    ensures c !in a + b
  {
  }

  /** The translation, letter by letter: a dynamic forwarding is stored under the letter D, without a value. */
  lemma ForwardsStored(a: string, b: string, val: string)
    requires 'L' !in a
    ensures Legacy(Entry(a + "L" + b, "D")) == Entry(a + "D" + b, "")
    ensures Legacy(Entry(a, "D")) == Entry(a, "")
    ensures val != "D" ==> Legacy(Entry(a + b, val)) == Entry(a + b, val)
  {
    hide Replaced;
    ReplacedFirst(a, 'L', b, 'D');
    NotReplaced(a, 'L', 'D');
  }

  lemma NotReplaced(a: string, x: char, y: char)
    requires x !in a
    ensures Replaced(a, x, y) == a
  {
  }

  /** And it is filed under the letter L, with the value D. */
  lemma ForwardsFiled(a: string, b: string, val: string, m: StrMap)
    requires NUL !in a && NUL !in b && NUL !in val && 'D' !in a
    ensures Put(m, a + "D" + b + [NUL] + val, true) == m[a + "L" + b := "D"]
    ensures Put(m, a + [NUL] + val, true) == m[a := val]
  {
    hide Replaced, KeyIn, ValIn;
    NotIn(a, "D", NUL);
    NotIn(a + "D", b, NUL);
    KeyAndValue(a + "D" + b, val);
    KeyAndValue(a, val);
    ReplacedFirst(a, 'D', b, 'L');
  }

  /** The buffer from `p` on is still the stored string. */
  ghost predicate Unread(buf: array<char>, s: string, p: nat)
    reads buf
  {
    buf.Length == |s| + 1 && p <= |s| && buf[|s|] == NUL && forall i | p <= i < |s| :: buf[i] == s[i]
  }

  /** `val` is where the value starts in the text decoded so far; -1 while there is none. */
  ghost predicate ValueAt(t: string, val: int) {
    if NUL in t then 0 <= val <= |t| && LastPart(t) == t[val..] else val == -1
  }

  lemma ValueStays(t: string, val: int, c: char)
    requires ValueAt(t, val) && c != NUL
    ensures ValueAt(t + [c], val)
  {
    if NUL in t {
      LastPartMore(t, c);
      assert (t + [c])[val..] == t[val..] + [c];
    }
  }

  lemma {:induction false} LastPartMore(t: string, c: char)
    requires c != NUL && NUL in t
    ensures LastPart(t + [c]) == LastPart(t) + [c]
    decreases |t|
  {
    FindMore(t, c);
    var i := Find(t, NUL) + 1;
    assert (t + [c])[i..] == t[i..] + [c];
    if NUL in t[i..] {
      LastPartMore(t[i..], c);
    }
  }

  lemma {:induction false} FindMore(t: string, c: char)
    requires NUL in t
    ensures Find(t + [c], NUL) == Find(t, NUL)
  {
    if t[0] != NUL {
      assert (t + [c])[1..] == t[1..] + [c];
      FindMore(t[1..], c);
    }
  }

  lemma {:induction false} LastPartEnds(t: string)
    ensures LastPart(t + [NUL]) == ""
    decreases |t|
  {
    var u := t + [NUL];
    var i := Find(u, NUL) + 1;
    FirstNul(t);
    if i <= |t| {
      assert u[i..] == t[i..] + [NUL];
      LastPartEnds(t[i..]);
    } else {
      assert u[i..] == "";
    }
  }

  lemma {:induction false} FirstNul(t: string)
    ensures Find(t + [NUL], NUL) == Find(t, NUL)
  {
    if t != "" && t[0] != NUL {
      assert (t + [NUL])[1..] == t[1..] + [NUL];
      FirstNul(t[1..]);
    }
  }

  /** What one more character does to the entry. */
  lemma TakenStep(s: string, p: nat)
    requires p < |s| && s[p] != ',' && Intact(s[p..])
    ensures var n := if s[p] == '\\' then 2 else 1;
            var c := if s[p] == '\\' then s[p + 1] else if s[p] == '=' then NUL else s[p];
            p + n <= |s| && Intact(s[p + n..]) && Taken(s[p..]) == ([c] + Taken(s[p + n..]).0, Taken(s[p + n..]).1)
  {
    assert s[p..][1..] == s[p + 1..];
    assert |s[p..]| >= 2 ==> s[p..][2..] == s[p + 2..] && s[p..][1] == s[p + 1];
  }

  /** The next character of an entry, unescaped. */
  method NextChar(buf: array<char>, s: string, p0: nat) returns (c: char, p: nat)
    requires Unread(buf, s, p0) && p0 < |s| && s[p0] != ',' && Intact(s[p0..])
    ensures p0 < p <= |s| && Intact(s[p..]) && Taken(s[p0..]) == ([c] + Taken(s[p..]).0, Taken(s[p..]).1)
  {
    hide Taken, Intact;
    TakenStep(s, p0);
    p := p0;
    c := buf[p];
    p := p + 1;
    if c == '=' {
      c := NUL;
    }
    if c == '\\' {
      c := buf[p];
      p := p + 1;
    }
  }

  /** One entry is decoded in place, to the front of the buffer; what is written never reaches what is still to be
      read. */
  method DecodeItem(buf: array<char>, s: string, p0: nat) returns (p: nat, q: nat, val: int)
    requires Unread(buf, s, p0) && NoNul(s) && Intact(s[p0..]) && p0 < |s|
    modifies buf
    ensures p0 < p <= |s| && q <= p && Unread(buf, s, p) && Intact(s[p..]) && (q < p || p == |s|)
    ensures buf[..q] == Taken(s[p0..]).0 && s[p..] == Taken(s[p0..]).1 && ValueAt(buf[..q], val)
  {
    hide Taken, Intact, LastPart, ValueAt;
    p, q, val := p0, 0, -1;
    NoValueYet();
    assert buf[..0] == "" && "" + Taken(s[p0..]).0 == Taken(s[p0..]).0;
    while buf[p] != NUL && buf[p] != ','
      invariant p0 <= p <= |s| && q <= p - p0 && Unread(buf, s, p) && Intact(s[p..]) && ValueAt(buf[..q], val)
      invariant Taken(s[p0..]) == (buf[..q] + Taken(s[p..]).0, Taken(s[p..]).1)
      decreases |s| - p
    {
      ghost var t, rest := buf[..q], Taken(s[p..]).0;
      var c;
      c, p := NextChar(buf, s, p);
      assert t + rest == (t + [c]) + Taken(s[p..]).0;
      buf[q] := c;
      q := q + 1;
      assert buf[..q] == t + [c];
      if c == NUL {
        val := q;
        ValueFrom(t);
      } else {
        ValueStays(t, val, c);
      }
    }
    TakenEnd(s, p);
    if buf[p] == ',' {
      p := p + 1;
    }
  }

  lemma NoValueYet()
    ensures ValueAt("", -1)
  {
  }

  lemma ValueFrom(t: string)
    ensures ValueAt(t + [NUL], |t| + 1)
  {
    LastPartEnds(t);
    assert (t + [NUL])[|t| + 1..] == "" && (t + [NUL])[|t|] == NUL;
  }

  lemma TakenEnd(s: string, p: nat)
    requires p <= |s| && (p == |s| || s[p] == ',')
    ensures Taken(s[p..]).0 == "" && Taken(s[p..]).1 == (if p < |s| then s[p + 1..] else s[p..])
            && (p < |s| && Intact(s[p..]) ==> Intact(s[p + 1..]))
  {
    if p < |s| {
      assert s[p..][1..] == s[p + 1..];
    }
  }

  /** The string that starts at `at`; there is a NUL at `end`, if not before. */
  method CString(buf: array<char>, at: nat, end: nat) returns (r: string)
    requires at <= end < buf.Length && buf[end] == NUL
    ensures r == KeyIn(buf[at..end])
  {
    var i := at;
    r := "";
    while buf[i] != NUL
      invariant at <= i <= end && r == buf[at..i] && NUL !in r
      decreases end - i
    {
      r := r + [buf[i]];
      i := i + 1;
    }
    ghost var t := buf[at..end];
    assert r == t[..i - at] && (i < end ==> t[i - at] == NUL);
    FindIs(t, NUL, i - at);
  }

  lemma {:induction false} FindIs(s: string, c: char, i: nat)
    requires i <= |s| && c !in s[..i] && (i < |s| ==> s[i] == c)
    ensures Find(s, c) == i
  {
    if i > 0 {
      assert s[0] in s[..i] && s[1..][..i - 1] == s[..i][1..];
      FindIs(s[1..], c, i - 1);
    }
  }

  lemma {:induction false} LastPartPlain(t: string)
    ensures NUL !in LastPart(t) && KeyIn(LastPart(t)) == LastPart(t)
    decreases |t|
  {
    if NUL in t {
      LastPartPlain(t[Find(t, NUL) + 1..]);
    } else {
      assert t[..|t|] == t;
    }
  }

  /** One entry of the stored list goes into the map. */
  method ReadItem(buf: array<char>, s: string, p0: nat, m: StrMap, portForwards: bool) returns (p: nat, m': StrMap)
    requires Unread(buf, s, p0) && NoNul(s) && Intact(s[p0..]) && p0 < |s|
    modifies buf
    ensures p0 < p <= |s| && Unread(buf, s, p) && Intact(s[p..]) && s[p..] == Taken(s[p0..]).1
            && m' == Put(m, Taken(s[p0..]).0, portForwards)
  {
    hide Taken, Intact, LastPart;
    var q, val;
    p, q, val := DecodeItem(buf, s, p0);
    ghost var t := buf[..q];
    if val == -1 {
      val := q;
    }
    buf[q] := NUL;
    assert buf[..q] == t && buf[0..q] == t;
    var key := CString(buf, 0, q);
    if portForwards && 'D' in key {
      var d := Find(key, 'D');
      m' := m[key[d := 'L'] := "D"];
    } else {
      var v := CString(buf, val, q);
      ValueFound(t, val, v);
      m' := m[key := v];
    }
  }

  lemma ValueFound(t: string, val: nat, v: string)
    requires val <= |t| && (if NUL in t then LastPart(t) == t[val..] else val == |t|) && v == KeyIn(t[val..])
    ensures v == ValIn(t)
  {
    LastPartPlain(t);
  }

  /** `gppmap`: the entries there were are dropped, and those of the stored list come in. */
  method ReadMap(stored: Option<string>, portForwards: bool) returns (found: bool, m: StrMap)
    requires stored.Some? ==> NoNul(stored.value) && Intact(stored.value)
    ensures found == stored.Some? && m == if stored.None? then map[] else Parsed(map[], stored.value, portForwards)
  {
    hide Intact, Put, Taken;
    m := map[];
    if stored.None? {
      return false, m;
    }
    var s := stored.value;
    var buf := new char[|s| + 1](i requires 0 <= i <= |s| => if i < |s| then s[i] else NUL);
    var p := 0;
    assert s[0..] == s;
    while buf[p] != NUL
      invariant fresh(buf) && Unread(buf, s, p) && Intact(s[p..]) && Parsed(m, s[p..], portForwards)
                == Parsed(map[], s, portForwards)
      decreases |s| - p
    {
      p, m := ReadItem(buf, s, p, m, portForwards);
    }
    assert p == |s| && s[p..] == "";
    found := true;
  }

  // ----- reading back what was written

  /** One character, escaped or not. */
  lemma TakenChar(c: char, e: string)
    ensures IsSpecial(c) ==>
            Taken(['\\', c] + e) == ([c] + Taken(e).0, Taken(e).1) && (Intact(e) ==> Intact(['\\', c] + e))
    ensures !IsSpecial(c) ==> Taken([c] + e) == ([c] + Taken(e).0, Taken(e).1) && (Intact(e) ==> Intact([c] + e))
  {
    assert ([c] + e)[1..] == e && (['\\', c] + e)[2..] == e;
  }

  lemma EscapedPlus(x: string, rest: string)
    requires x != ""
    ensures Escaped(x) + rest == (if IsSpecial(x[0]) then ['\\', x[0]] else [x[0]]) + (Escaped(x[1..]) + rest)
  {
  }

  lemma FirstPlus(x: string, t: string)
    requires x != ""
    ensures x + t == [x[0]] + (x[1..] + t)
  {
  }

  lemma {:induction false} TakenEscaped(x: string, rest: string)
    ensures Taken(Escaped(x) + rest) == (x + Taken(rest).0, Taken(rest).1)
            && (Intact(rest) ==> Intact(Escaped(x) + rest))
  {
    hide Taken, Intact, Escaped;
    if x == "" {
      EscapedNothing(rest);
      assert "" + Taken(rest).0 == Taken(rest).0;
    } else {
      TakenEscaped(x[1..], rest);
      TakenChar(x[0], Escaped(x[1..]) + rest);
      EscapedPlus(x, rest);
      FirstPlus(x, Taken(rest).0);
    }
  }

  lemma EscapedNothing(rest: string)
    ensures Escaped("") + rest == rest
  {
  }

  /** The text of an entry as the decoder sees it. */
  function TextOf(e: Entry, values: bool): string {
    e.key + if values then [NUL] + e.val else ""
  }

  lemma TakenItem(e: Entry, values: bool, rest: string)
    requires rest == "" || rest[0] == ','
    ensures Taken(Item(e, values) + rest) == (TextOf(e, values), if rest == "" then "" else rest[1..])
    ensures Intact(rest) ==> Intact(Item(e, values) + rest)
  {
    hide Escaped, Taken, Intact;
    TakenRest(rest);
    if values {
      var r := Escaped(e.val) + rest;
      TakenEscaped(e.val, rest);
      TakenEquals(r);
      TakenEscaped(e.key, "=" + r);
      assert Item(e, values) + rest == Escaped(e.key) + ("=" + r);
      assert e.key + ([NUL] + (e.val + "")) == TextOf(e, values);
    } else {
      TakenEscaped(e.key, rest);
      assert Item(e, values) + rest == Escaped(e.key) + rest && e.key + "" == TextOf(e, values);
    }
  }

  lemma TakenRest(rest: string)
    requires rest == "" || rest[0] == ','
    ensures Taken(rest) == ("", if rest == "" then "" else rest[1..])
  {
  }

  lemma TakenEquals(r: string)
    ensures Taken("=" + r) == ([NUL] + Taken(r).0, Taken(r).1) && (Intact(r) ==> Intact("=" + r))
  {
    assert ("=" + r)[1..] == r;
  }

  /** The stored list, the first entry at its front. */
  function Joined(es: seq<Entry>, values: bool): string {
    if es == [] then "" else Item(es[0], values) + if |es| == 1 then "" else "," + Joined(es[1..], values)
  }

  /** The two agree unless the first entry leaves no trace. */
  lemma {:induction false} StoredIsJoined(es: seq<Entry>, values: bool)
    requires es != [] && Item(es[0], values) != ""
    ensures Stored(es, values) == Joined(es, values) && Stored(es, values) != ""
  {
    hide Item;
    var front := es[..|es| - 1];
    if |es| == 1 {
      assert Stored(front, values) == "";
    } else {
      StoredIsJoined(front, values);
      JoinedLast(es, values);
    }
  }

  lemma {:induction false} JoinedLast(es: seq<Entry>, values: bool)
    requires |es| >= 2
    ensures Joined(es, values) == Joined(es[..|es| - 1], values) + "," + Item(es[|es| - 1], values)
  {
    hide Item;
    var tail, front := es[1..], es[..|es| - 1];
    if |es| > 2 {
      JoinedLast(tail, values);
      assert tail[..|tail| - 1] == front[1..];
      assert Joined(es, values) == Item(es[0], values)
             + ("," + (Joined(front[1..], values) + "," + Item(es[|es| - 1], values)));
      assert Joined(front, values) == Item(es[0], values) + ("," + Joined(front[1..], values));
    } else {
      assert Joined(tail, values) == Item(es[1], values) + "" && Joined(front, values) == Item(es[0], values) + "";
    }
  }

  /** The entries put into the map one after another. */
  ghost function PutAll(m: StrMap, es: seq<Entry>, values: bool, portForwards: bool): StrMap
    decreases |es|
  {
    if es == [] then m else PutAll(Put(m, TextOf(es[0], values), portForwards), es[1..], values, portForwards)
  }

  lemma {:induction false} ParsedJoined(m: StrMap, es: seq<Entry>, values: bool, portForwards: bool)
    requires forall e | e in es :: Item(e, values) != ""
    ensures Parsed(m, Joined(es, values), portForwards) == PutAll(m, es, values, portForwards)
            && Intact(Joined(es, values))
    decreases |es|
  {
    hide Put, Item, TextOf, Taken;
    if es != [] {
      var rest := if |es| == 1 then "" else "," + Joined(es[1..], values);
      var m' := Put(m, TextOf(es[0], values), portForwards);
      ParsedJoined(m', es[1..], values, portForwards);
      TakenItem(es[0], values, rest);
      assert es[0] in es;
      if |es| == 1 {
        assert es[1..] == [];
      } else {
        assert rest[1..] == Joined(es[1..], values);
      }
    }
  }

  /** The decoder finds key and value of an entry. */
  lemma TextFacts(e: Entry, values: bool)
    requires NoNul(e.key) && NoNul(e.val)
    ensures KeyIn(TextOf(e, values)) == e.key && ValIn(TextOf(e, values)) == if values then e.val else ""
  {
    var t := TextOf(e, values);
    assert t[..|e.key|] == e.key;
    FindIs(t, NUL, |e.key|);
    if values {
      assert t[|e.key|] == NUL && t[|e.key| + 1..] == e.val;
      assert LastPart(t) == LastPart(e.val) == e.val;
    }
  }

  lemma {:induction false} PutAllLast(m: StrMap, es: seq<Entry>, values: bool, portForwards: bool)
    requires es != []
    ensures PutAll(m, es, values, portForwards) ==
              Put(PutAll(m, es[..|es| - 1], values, portForwards), TextOf(es[|es| - 1], values), portForwards)
    decreases |es|
  {
    hide Put, TextOf;
    if |es| == 1 {
      assert es[1..] == [] && es[..0] == [];
    } else {
      var m' := Put(m, TextOf(es[0], values), portForwards);
      PutAllLast(m', es[1..], values, portForwards);
      assert es[1..][..|es| - 2] == es[..|es| - 1][1..];
    }
  }

  /** What the entries of a list become if each one is put in under its own key. */
  lemma {:induction false} PutAllIs(es: seq<Entry>, written: seq<Entry>, values: bool, portForwards: bool)
    requires |written| == |es|
    requires forall i, m | 0 <= i < |es| ::
             Put(m, TextOf(written[i], values), portForwards) == m[es[i].key := es[i].val]
    ensures PutAll(map[], written, values, portForwards) == MapOf(es)
    decreases |es|
  {
    hide Put, TextOf;
    if es != [] {
      var n := |es| - 1;
      PutAllIs(es[..n], written[..n], values, portForwards);
      PutAllLast(map[], written, values, portForwards);
    }
  }

  lemma ItemsNotEmpty(es: seq<Entry>)
    ensures forall e | e in es :: Item(e, true) != ""
  {
    forall e | e in es ensures Item(e, true) != "" {
      assert Item(e, true)[|Escaped(e.key)|] == '=';
    }
  }

  /** What the decoder makes of a list of pairs. */
  lemma ParsedStored(es: seq<Entry>, portForwards: bool)
    ensures Parsed(map[], Stored(es, true), portForwards) == PutAll(map[], es, true, portForwards)
            && Intact(Stored(es, true))
  {
    ItemsNotEmpty(es);
    if es != [] {
      StoredIsJoined(es, true);
      ParsedJoined(map[], es, true, portForwards);
    }
  }

  /** Every map of strings without NULs is read back as it was written. */
  lemma RoundTrip(es: seq<Entry>)
    requires Clean(es)
    ensures Parsed(map[], Stored(es, true), false) == MapOf(es)
  {
    ParsedStored(es, false);
    forall i, m | 0 <= i < |es| ensures Put(m, TextOf(es[i], true), false) == m[es[i].key := es[i].val] {
      assert es[i] in es;
      TextFacts(es[i], true);
    }
    PutAllIs(es, es, true, false);
  }

  // ----- keys alone

  lemma {:induction false} FirstLeavesNoTrace(es: seq<Entry>)
    requires es != [] && es[0].key == ""
    ensures Stored(es, false) == Stored(es[1..], false)
  {
    hide Item;
    var n := |es| - 1;
    if n == 0 {
      assert es[1..] == [] && es[..0] == [];
      EmptyItem(es[0]);
    } else {
      FirstLeavesNoTrace(es[..n]);
      assert es[..n][1..] == es[1..][..n - 1] && es[1..][n - 1] == es[n];
    }
  }

  lemma EmptyItem(e: Entry)
    requires e.key == ""
    ensures Item(e, false) == ""
  {
  }

  lemma KeyItem(e: Entry)
    ensures Item(e, false) == "" <==> e.key == ""
  {
  }

  /** What the keys alone are read back as. */
  ghost predicate KeysOf(m: StrMap, es: seq<Entry>) {
    forall k {:trigger k in m} {:trigger IsKey(es, k)} ::
        (k in m <==> k != "" && IsKey(es, k)) && (k in m ==> m[k] == "")
  }

  lemma {:induction false} KeysRead(es: seq<Entry>)
    requires Clean(es) && Sorted(es)
    ensures KeysOf(Parsed(map[], Stored(es, false), false), es)
    decreases |es|
  {
    hide Stored, Parsed;
    if es == [] {
      NothingRead(es);
    } else if es[0].key == "" {
      FirstLeavesNoTrace(es);
      assert Sorted(es[1..]) && Clean(es[1..]);
      KeysRead(es[1..]);
      forall k | k != "" ensures IsKey(es, k) <==> IsKey(es[1..], k) {
        KeyShift(es, k);
      }
    } else {
      SomeKeysRead(es);
    }
  }

  lemma NothingRead(es: seq<Entry>)
    requires es == []
    ensures KeysOf(Parsed(map[], Stored(es, false), false), es)
  {
  }

  lemma NoEmptyKey(es: seq<Entry>)
    requires Sorted(es) && es != [] && es[0].key != ""
    ensures forall e | e in es :: e.key != "" && Item(e, false) != ""
  {
    forall e | e in es ensures e.key != "" && Item(e, false) != "" {
      var i :| 0 <= i < |es| && es[i] == e;
      if i > 0 {
        Distinct(es, 0, i);
      }
      KeyItem(e);
    }
  }

  lemma SomeKeysRead(es: seq<Entry>)
    requires Clean(es) && Sorted(es) && es != [] && es[0].key != ""
    ensures KeysOf(Parsed(map[], Stored(es, false), false), es)
  {
    NoEmptyKey(es);
    hide Stored, Parsed, Item, MapOf, Clean, KeysOf, Sorted;
    assert es[0] in es;
    StoredIsJoined(es, false);
    ParsedJoined(map[], es, false, false);
    PutBare(es);
    MapOfBare(es);
  }

  lemma PutBare(es: seq<Entry>)
    requires Clean(es)
    ensures PutAll(map[], es, false, false) == MapOf(Bare(es))
  {
    hide Put, TextOf, MapOf, PutAll;
    var bare := Bare(es);
    forall i, m | 0 <= i < |es| ensures Put(m, TextOf(es[i], false), false) == m[bare[i].key := bare[i].val] {
      assert es[i] in es;
      KeyPut(m, es[i]);
    }
    PutAllIs(bare, es, false, false);
  }

  lemma MapOfBare(es: seq<Entry>)
    requires Sorted(es) && forall e | e in es :: e.key != ""
    ensures KeysOf(MapOf(Bare(es)), es)
  {
    var bare := Bare(es);
    assert Sorted(bare);
    MapOfSorted(bare);
    hide MapOf, Sorted;
    forall k ensures IsKey(bare, k) <==> k != "" && IsKey(es, k) {
      BareKey(es, bare, k);
    }
    forall k | IsKey(bare, k) ensures MapOf(bare)[k] == "" {
      var i :| 0 <= i < |bare| && bare[i].key == k;
    }
  }

  lemma KeyPut(m: StrMap, e: Entry)
    requires NoNul(e.key) && NoNul(e.val)
    ensures Put(m, TextOf(e, false), false) == m[e.key := ""]
  {
    TextFacts(e, false);
  }

  ghost function Bare(es: seq<Entry>): (r: seq<Entry>)
    ensures |r| == |es| && forall i | 0 <= i < |es| :: r[i] == Entry(es[i].key, "")
  {
    seq(|es|, i requires 0 <= i < |es| => Entry(es[i].key, ""))
  }

  lemma KeyShift(es: seq<Entry>, k: string)
    requires es != [] && es[0].key == "" && k != ""
    ensures IsKey(es, k) <==> IsKey(es[1..], k)
  {
    if i :| 0 <= i < |es| && es[i].key == k {
      assert es[1..][i - 1].key == k;
    }
    if i :| 0 <= i < |es[1..]| && es[1..][i].key == k {
      assert es[i + 1].key == k;
    }
  }

  lemma BareKey(es: seq<Entry>, bare: seq<Entry>, k: string)
    requires |bare| == |es| && (forall i | 0 <= i < |es| :: bare[i] == Entry(es[i].key, "")) && forall e | e in es ::
             e.key != ""
    ensures IsKey(bare, k) <==> k != "" && IsKey(es, k)
  {
    if i :| 0 <= i < |bare| && bare[i].key == k {
      assert es[i].key == k && es[i] in es;
    }
    if i :| 0 <= i < |es| && es[i].key == k {
      assert bare[i].key == k;
    }
  }

  /** Keys alone give the map back if and only if all values are empty and no key is. */
  lemma KeysOnlyIff(es: seq<Entry>)
    requires Clean(es) && Sorted(es)
    ensures Parsed(map[], Stored(es, false), false) == MapOf(es) <==> forall e | e in es :: e.key != "" && e.val == ""
  {
    hide Stored, Parsed, MapOf, Sorted, Clean;
    KeysRead(es);
    MapOfSorted(es);
    var m := Parsed(map[], Stored(es, false), false);
    if m == MapOf(es) {
      forall e | e in es ensures e.key != "" && e.val == "" {
        var i :| 0 <= i < |es| && es[i] == e;
        assert e.key in m;
      }
    }
    if forall e | e in es :: e.key != "" && e.val == "" {
      SameKeys(m, es);
    }
  }

  lemma SameKeys(m: StrMap, es: seq<Entry>)
    requires KeysOf(m, es) && Sorted(es) && forall e | e in es :: e.key != "" && e.val == ""
    ensures m == MapOf(es)
  {
    MapOfSorted(es);
    hide MapOf, Sorted;
    forall k ensures (k in m <==> k in MapOf(es)) && (k in m ==> m[k] == MapOf(es)[k]) {
      if IsKey(es, k) {
        var i :| 0 <= i < |es| && es[i].key == k;
        assert es[i] in es;
      }
    }
  }

  // ----- port forwardings

  /** An entry that survives the legacy form: a dynamic forwarding has its `L`, and no `D` before it; any other one has
      no `D` in its key. */
  predicate Survives(e: Entry) {
    if e.val == "D" then 'L' in e.key && 'D' !in e.key[..Find(e.key, 'L')] else 'D' !in e.key
  }

  lemma SwappedBack(key: string)
    requires 'L' in key && 'D' !in key[..Find(key, 'L')]
    ensures 'D' in Replaced(key, 'L', 'D') && Replaced(Replaced(key, 'L', 'D'), 'D', 'L') == key
  {
    var l := Find(key, 'L');
    var k := key[l := 'D'];
    assert k[l] == 'D' && k[..l] == key[..l];
    FindIs(k, 'D', l);
    assert k[l := 'L'] == key;
  }

  lemma SurvivorPut(m: StrMap, e: Entry)
    requires NoNul(e.key) && NoNul(e.val) && Survives(e)
    ensures Put(m, TextOf(Legacy(e), true), true) == m[e.key := e.val]
  {
    var w := Legacy(e);
    if e.val == "D" {
      ReplacedClean(e.key, 'L', 'D');
      TextFacts(w, true);
      SwappedBack(e.key);
    } else {
      TextFacts(e, true);
    }
  }

  lemma ReplacedClean(s: string, a: char, b: char)
    requires NoNul(s) && b != NUL
    ensures NoNul(Replaced(s, a, b))
  {
    var r := Replaced(s, a, b);
    forall i | 0 <= i < |r| ensures r[i] != NUL {
      assert s[i] in s;
    }
  }

  /** Whatever is read has the surviving form. */
  ghost predicate AllSurvive(m: StrMap) {
    forall k | k in m :: Survives(Entry(k, m[k]))
  }

  lemma PutSurvives(m: StrMap, e: Entry)
    requires NoNul(e.key) && NoNul(e.val) && AllSurvive(m)
    ensures AllSurvive(Put(m, TextOf(Legacy(e), true), true))
  {
    var w := Legacy(e);
    if e.val == "D" {
      ReplacedClean(e.key, 'L', 'D');
    }
    TextFacts(w, true);
    if 'D' in w.key {
      var d, k := Find(w.key, 'D'), Replaced(w.key, 'D', 'L');
      assert k[d] == 'L';
      NoneBefore(k, d);
      assert Survives(Entry(k, "D"));
    } else {
      assert w.val != "D";
      assert Survives(Entry(w.key, w.val));
    }
  }

  lemma {:induction false} FoundBy(s: string, c: char, d: nat)
    requires d < |s| && s[d] == c
    ensures Find(s, c) <= d
  {
    if s[0] != c {
      FoundBy(s[1..], c, d - 1);
    }
  }

  lemma NoneBefore(k: string, d: nat)
    requires d < |k| && k[d] == 'L' && 'D' !in k[..d]
    ensures 'L' in k && 'D' !in k[..Find(k, 'L')]
  {
    FoundBy(k, 'L', d);
    var l := Find(k, 'L');
    assert k[..l] == k[..d][..l];
  }

  lemma {:induction false} AllReadSurvive(es: seq<Entry>)
    requires Clean(es)
    ensures AllSurvive(PutAll(map[], LegacyAll(es), true, true))
  {
    hide Put, TextOf, Legacy, Survives;
    if es != [] {
      var n := |es| - 1;
      assert es[n] in es && forall e | e in es[..n] :: e in es;
      AllReadSurvive(es[..n]);
      PutAllLast(map[], LegacyAll(es), true, true);
      assert LegacyAll(es)[..n] == LegacyAll(es[..n]);
      PutSurvives(PutAll(map[], LegacyAll(es[..n]), true, true), es[n]);
    }
  }

  /** Port forwardings are read back as they were written if and only if all of them have the surviving form. */
  lemma PortForwardsIff(es: seq<Entry>)
    requires Clean(es) && Sorted(es)
    ensures Parsed(map[], Stored(LegacyAll(es), true), true) == MapOf(es) <==> forall e | e in es :: Survives(e)
  {
    var all := LegacyAll(es);
    ParsedStored(all, true);
    if forall e | e in es :: Survives(e) {
      forall i, m | 0 <= i < |es| ensures Put(m, TextOf(all[i], true), true) == m[es[i].key := es[i].val] {
        assert es[i] in es;
        SurvivorPut(m, es[i]);
      }
      PutAllIs(es, all, true, true);
    }
    if PutAll(map[], all, true, true) == MapOf(es) {
      AllReadSurvive(es);
      MapOfSorted(es);
      forall e | e in es ensures Survives(e) {
        var i :| 0 <= i < |es| && es[i] == e;
        assert MapOf(es)[e.key] == e.val;
      }
    }
  }

  /** A map written and read back. */
  method WriteThenRead(es: seq<Entry>) returns (m: StrMap)
    requires Clean(es)
    ensures m == MapOf(es)
  {
    var out := WriteMap(es, false, true);
    ParsedStored(es, false);
    StoredClean(es);
    RoundTrip(es);
    var found;
    found, m := ReadMap(Some(out), false);
  }

  lemma {:induction false} StoredClean(es: seq<Entry>)
    requires Clean(es)
    ensures NoNul(Stored(es, true))
  {
    if es != [] {
      var n := |es| - 1;
      assert es[n] in es && forall e | e in es[..n] :: e in es;
      StoredClean(es[..n]);
      EscapedClean(es[n].key);
      EscapedClean(es[n].val);
    }
  }

  lemma {:induction false} EscapedClean(x: string)
    requires NoNul(x)
    ensures NoNul(Escaped(x))
  {
    if x != "" {
      EscapedClean(x[1..]);
    }
  }
}
