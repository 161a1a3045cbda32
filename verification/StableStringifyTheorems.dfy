/** The stable text identifies a JSON value up to the order of object keys. */
module StableStringifyTheorems {
  import opened Text
  import opened StableStringify

  function Keys(entries: seq<Entry>): set<string> {
    set e | e in entries :: e.key
  }

  /** Equal up to the order of object keys, at every depth. */
  ghost predicate Equivalent(v: Json, w: Json)
    decreases v
  {
    match v
    case Array(items) =>
      w.Array? && |items| == |w.items| && forall i :: 0 <= i < |items| ==> Equivalent(items[i], w.items[i])
    case Object(entries) =>
      && w.Object? && Keys(entries) == Keys(w.entries)
      && forall i, j :: 0 <= i < |entries| && 0 <= j < |w.entries| && entries[i].key == w.entries[j].key ==>
        Equivalent(entries[i].value, w.entries[j].value)
    case _ => v == w
  }

  ghost predicate SameEntries(a: seq<Entry>, b: seq<Entry>) {
    |a| == |b| && forall i :: 0 <= i < |a| ==> a[i].key == b[i].key && Equivalent(a[i].value, b[i].value)
  }

  // ---------- Sorted entries ----------

  lemma {:induction false} AscendingUnique(a: seq<Entry>, b: seq<Entry>)
    requires Ascending(a) && Ascending(b) && Keys(a) == Keys(b)
    ensures |a| == |b| && forall i :: 0 <= i < |a| ==> a[i].key == b[i].key
  {
    NoKeys(a);
    NoKeys(b);
    if a != [] {
      assert a[0].key in Keys(b);
      LeastKey(a);
      LeastKey(b);
      StringLessTotal(a[0].key, b[0].key);
      AscendingUnique(a[1..], b[1..]);
    }
  }

  lemma NoKeys(a: seq<Entry>)
    ensures Keys(a) == {} <==> a == []
  {
    if a != [] {
      assert a[0] in a && a[0].key in Keys(a);
    }
  }

  lemma LeastKey(a: seq<Entry>)
    requires a != [] && Ascending(a)
    ensures forall key :: key in Keys(a) ==> key == a[0].key || StringLess(a[0].key, key)
    ensures Keys(a[1..]) == Keys(a) - {a[0].key}
  {
    assert a == [a[0]] + a[1..];
    StringLessTotal(a[0].key, a[0].key);
    forall e | e in a[1..]
      ensures StringLess(a[0].key, e.key) && e.key != a[0].key
    {
      StringLessTotal(a[0].key, e.key);
    }
  }

  lemma SortedKeys(entries: seq<Entry>)
    ensures Keys(SortByKey(entries)) == Keys(entries)
  {
    SortKeeps(entries);
  }

  /** Objects are equivalent exactly when their sorted entries agree one by one. */
  lemma ObjectsEquivalent(v: Json, w: Json)
    requires v.Object? && w.Object? && DistinctKeys(v.entries) && DistinctKeys(w.entries)
    ensures Equivalent(v, w) <==> SameEntries(SortByKey(v.entries), SortByKey(w.entries))
  {
    var a, b := SortByKey(v.entries), SortByKey(w.entries);
    SortKeeps(v.entries);
    SortKeeps(w.entries);
    SortedKeys(v.entries);
    SortedKeys(w.entries);
    SortAscends(v.entries);
    SortAscends(w.entries);
    if Equivalent(v, w) {
      AscendingUnique(a, b);
      forall k | 0 <= k < |a|
        ensures Equivalent(a[k].value, b[k].value)
      {
        assert a[k] in v.entries && b[k] in w.entries;
      }
    }
    if SameEntries(a, b) {
      SameKeys(a, b);
      forall i, j | 0 <= i < |v.entries| && 0 <= j < |w.entries| && v.entries[i].key == w.entries[j].key
        ensures Equivalent(v.entries[i].value, w.entries[j].value)
      {
        var k := IndexOf(a, v.entries[i]);
        var m := IndexOf(b, w.entries[j]);
        StringLessTotal(a[k].key, b[m].key);
        assert k == m;
      }
    }
  }

  lemma SameKeys(a: seq<Entry>, b: seq<Entry>)
    requires SameEntries(a, b)
    ensures Keys(a) == Keys(b)
  {
    forall key
      ensures key in Keys(a) <==> key in Keys(b)
    {
      if key in Keys(a) {
        var i :| 0 <= i < |a| && a[i].key == key;
        assert b[i] in b;
      }
      if key in Keys(b) {
        var i :| 0 <= i < |b| && b[i].key == key;
        assert a[i] in a;
      }
    }
  }

  lemma IndexOf(a: seq<Entry>, e: Entry) returns (k: nat)
    requires e in a
    ensures k < |a| && a[k] == e
  {
    k :| k < |a| && a[k] == e;
  }

  // ---------- Equivalent values have the same text ----------

  lemma {:induction false} EquivalentSameText(v: Json, w: Json)
    requires WellFormed(v) && WellFormed(w) && Equivalent(v, w)
    ensures Stringify(v) == Stringify(w)
    decreases v
  {
    match v
    case Array(items) =>
      ItemsSameText(v, items, w, w.items);
    case Object(entries) =>
      var a, b := SortByKey(entries), SortByKey(w.entries);
      ObjectsEquivalent(v, w);
      SortKeeps(entries);
      SortKeeps(w.entries);
      EntriesSameText(v, a, w, b);
    case _ =>
  }

  lemma {:induction false} ItemsSameText(v: Json, vs: seq<Json>, w: Json, ws: seq<Json>)
    requires forall i :: 0 <= i < |vs| ==> vs[i] < v && WellFormed(vs[i])
    requires forall i :: 0 <= i < |ws| ==> ws[i] < w && WellFormed(ws[i])
    requires |vs| == |ws| && forall i :: 0 <= i < |vs| ==> Equivalent(vs[i], ws[i])
    ensures StringifyItems(v, vs) == StringifyItems(w, ws)
    decreases v, |vs|
  {
    if vs != [] {
      EquivalentSameText(vs[0], ws[0]);
      ItemsSameText(v, vs[1..], w, ws[1..]);
    }
  }

  lemma {:induction false} EntriesSameText(v: Json, vs: seq<Entry>, w: Json, ws: seq<Entry>)
    requires forall e :: e in vs ==> e.value < v && WellFormed(e.value)
    requires forall e :: e in ws ==> e.value < w && WellFormed(e.value)
    requires SameEntries(vs, ws)
    ensures StringifyEntries(v, vs) == StringifyEntries(w, ws)
    decreases v, |vs|
  {
    if vs != [] {
      assert vs[0] in vs && ws[0] in ws;
      EquivalentSameText(vs[0].value, ws[0].value);
      EntriesSameText(v, vs[1..], w, ws[1..]);
    }
  }

  // ---------- The text can be read in one way only ----------

  function HexValue(c: char): int {
    if '0' <= c <= '9' then c as int - '0' as int else c as int - 'a' as int + 10
  }

  /** The character a string literal starts with, read back from its escape. */
  function Unescape(s: string): int
    requires s != [] && (s[0] == '\\' ==> |s| >= 2 && (s[1] == 'u' ==> |s| >= 6))
  {
    if s[0] != '\\' then s[0] as int
    else match s[1]
      case 'b' => 8
      case 'f' => 12
      case 'n' => 10
      case 'r' => 13
      case 't' => 9
      case 'u' => 16 * HexValue(s[4]) + HexValue(s[5])
      case c => c as int
  }

  lemma UnescapeEscaped(c: char, x: string)
    ensures var s := EscapeChar(c) + x;
      && s != [] && (s[0] == '\\' ==> |s| >= 2 && (s[1] == 'u' ==> |s| >= 6))
      && Unescape(s) == c as int
  {
    var s, e := EscapeChar(c) + x, EscapeChar(c);
    assert forall i :: 0 <= i < |e| ==> s[i] == e[i];
  }

  lemma EscapeCharReadable(c: char, d: char, x: string, y: string)
    requires EscapeChar(c) + x == EscapeChar(d) + y
    ensures c == d && x == y
  {
    UnescapeEscaped(c, x);
    UnescapeEscaped(d, y);
    var s, t := EscapeChar(c) + x, EscapeChar(d) + y;
    assert c as int == d as int;
    assert x == s[|EscapeChar(c)|..] && y == t[|EscapeChar(d)|..];
  }

  lemma EscapeEnds(s: string, x: string)
    ensures (Escape(s) + "\"" + x)[0] == '\"' <==> s == []
  {
    if s != [] {
      assert (Escape(s) + "\"" + x)[0] == EscapeChar(s[0])[0];
    }
  }

  lemma {:induction false} EscapeReadable(s: string, t: string, x: string, y: string)
    requires Escape(s) + "\"" + x == Escape(t) + "\"" + y
    ensures s == t && x == y
  {
    hide EscapeChar;
    EscapeEnds(s, x);
    EscapeEnds(t, y);
    if s == [] {
      assert x == (Escape(s) + "\"" + x)[1..] && y == (Escape(t) + "\"" + y)[1..];
    } else {
      var u, v := Escape(s[1..]) + "\"" + x, Escape(t[1..]) + "\"" + y;
      assert Escape(s) + "\"" + x == EscapeChar(s[0]) + u;
      assert Escape(t) + "\"" + y == EscapeChar(t[0]) + v;
      EscapeCharReadable(s[0], t[0], u, v);
      EscapeReadable(s[1..], t[1..], x, y);
      assert s == [s[0]] + s[1..] && t == [t[0]] + t[1..];
    }
  }

  lemma QuoteReadable(s: string, t: string, x: string, y: string)
    requires Quote(s) + x == Quote(t) + y
    ensures s == t && x == y
  {
    hide Escape;
    var a, b := Quote(s) + x, Quote(t) + y;
    assert a[1..] == Escape(s) + "\"" + x && b[1..] == Escape(t) + "\"" + y;
    EscapeReadable(s, t, x, y);
  }

  /** What may follow a value inside a text. */
  predicate Delimited(s: string) {
    s == [] || s[0] == ',' || s[0] == ']' || s[0] == '}'
  }

  /** How many number characters a text starts with. */
  function NumberLength(s: string): nat {
    if s != [] && IsNumberChar(s[0]) then 1 + NumberLength(s[1..]) else 0
  }

  lemma {:induction false} NumberEnds(s: string, x: string)
    requires forall i :: 0 <= i < |s| ==> IsNumberChar(s[i])
    requires Delimited(x)
    ensures NumberLength(s + x) == |s|
  {
    if s == [] {
      assert s + x == x;
    } else {
      assert (s + x)[1..] == s[1..] + x;
      NumberEnds(s[1..], x);
    }
  }

  lemma NumberReadable(s: string, t: string, x: string, y: string)
    requires forall i :: 0 <= i < |s| ==> IsNumberChar(s[i])
    requires forall i :: 0 <= i < |t| ==> IsNumberChar(t[i])
    requires s + x == t + y && Delimited(x) && Delimited(y)
    ensures s == t && x == y
  {
    NumberEnds(s, x);
    NumberEnds(t, y);
    assert s == (s + x)[..|s|] && t == (t + y)[..|t|];
    assert x == (s + x)[|s|..] && y == (t + y)[|t|..];
  }

  /** The first character of a text tells the kind of value. */
  lemma FirstChar(v: Json)
    requires WellFormed(v)
    ensures Stringify(v) != []
    ensures var c := Stringify(v)[0];
      && (v.Null? <==> c == 'n')
      && (v.Bool? && v.value <==> c == 't')
      && (v.Bool? && !v.value <==> c == 'f')
      && (v.Number? <==> '0' <= c <= '9' || c == '-')
      && (v.Str? <==> c == '\"')
      && (v.Array? <==> c == '[')
      && (v.Object? <==> c == '{')
  {
  }

  lemma {:induction false} Readable(v: Json, w: Json, x: string, y: string)
    requires WellFormed(v) && WellFormed(w)
    requires Stringify(v) + x == Stringify(w) + y && Delimited(x) && Delimited(y)
    ensures Equivalent(v, w) && x == y
    decreases v
  {
    FirstChar(v);
    FirstChar(w);
    var s, t := Stringify(v) + x, Stringify(w) + y;
    assert s[0] == Stringify(v)[0] && t[0] == Stringify(w)[0];
    match v
    case Number(text) =>
      NumberReadable(text, w.text, x, y);
    case Str(text) =>
      QuoteReadable(text, w.text, x, y);
    case Array(_) =>
      ArrayReadable(v, w, x, y);
    case Object(entries) =>
      ObjectReadable(v, w, x, y);
    case _ =>
      assert Stringify(v) == Stringify(w);
      assert x == s[|Stringify(v)|..] && y == t[|Stringify(w)|..];
  }

  lemma {:induction false} ArrayReadable(v: Json, w: Json, x: string, y: string)
    requires v.Array? && w.Array? && WellFormed(v) && WellFormed(w)
    requires Stringify(v) + x == Stringify(w) + y
    ensures Equivalent(v, w) && x == y
    decreases v, |v.items| + 1
  {
    var s, t := Stringify(v) + x, Stringify(w) + y;
    assert s[1..] == ItemsText(v, v.items, "]" + x) && t[1..] == ItemsText(w, w.items, "]" + y);
    ItemsReadable(v, v.items, w, w.items, "]" + x, "]" + y);
    assert x == ("]" + x)[1..] && y == ("]" + y)[1..];
  }

  lemma {:induction false} ObjectReadable(v: Json, w: Json, x: string, y: string)
    requires v.Object? && w.Object? && WellFormed(v) && WellFormed(w)
    requires Stringify(v) + x == Stringify(w) + y
    ensures Equivalent(v, w) && x == y
    decreases v, |v.entries| + 1
  {
    var a, b := SortByKey(v.entries), SortByKey(w.entries);
    ObjectText(v, a, x);
    ObjectText(w, b, y);
    EntriesReadable(v, a, w, b, "}" + x, "}" + y);
    ObjectsEquivalent(v, w);
    assert x == ("}" + x)[1..] && y == ("}" + y)[1..];
  }

  lemma ObjectText(v: Json, sorted: seq<Entry>, x: string)
    requires v.Object? && WellFormed(v) && sorted == SortByKey(v.entries)
    ensures |sorted| == |v.entries| && forall e :: e in sorted ==> e.value < v && WellFormed(e.value)
    ensures (Stringify(v) + x)[1..] == EntriesText(v, sorted, "}" + x)
  {
    SortKeeps(v.entries);
  }

  // ---------- Lists of pieces ----------

  function ItemsText(v: Json, vs: seq<Json>, x: string): string
    requires forall i :: 0 <= i < |vs| ==> vs[i] < v
  {
    Join(StringifyItems(v, vs), ",") + x
  }

  function EntriesText(v: Json, vs: seq<Entry>, x: string): string
    requires forall e :: e in vs ==> e.value < v
  {
    Join(StringifyEntries(v, vs), ",") + x
  }

  lemma ItemsTextCons(v: Json, vs: seq<Json>, x: string)
    requires vs != [] && forall i :: 0 <= i < |vs| ==> vs[i] < v
    ensures ItemsText(v, vs, x) ==
      Stringify(vs[0]) + if |vs| == 1 then x else "," + ItemsText(v, vs[1..], x)
  {
    var first, rest := Stringify(vs[0]), StringifyItems(v, vs[1..]);
    assert |vs| == 1 <==> rest == [];
    JoinCons(first, rest, x);
  }

  lemma EntriesTextCons(v: Json, vs: seq<Entry>, x: string)
    requires vs != [] && forall e :: e in vs ==> e.value < v
    ensures vs[0].value < v && forall e :: e in vs[1..] ==> e.value < v
    ensures EntriesText(v, vs, x) == Quote(vs[0].key) +
      (":" + (Stringify(vs[0].value) + if |vs| == 1 then x else "," + EntriesText(v, vs[1..], x)))
  {
    assert vs[0] in vs;
    var key, value, rest := Quote(vs[0].key), Stringify(vs[0].value), StringifyEntries(v, vs[1..]);
    assert |vs| == 1 <==> rest == [];
    var tail := if rest == [] then x else "," + (Join(rest, ",") + x);
    JoinCons(key + ":" + value, rest, x);
    ConcatAssociative(":", value, tail);
    ConcatAssociative(key, ":" + value, tail);
    ConcatAssociative(key, ":", value);
  }

  lemma JoinCons(first: string, rest: seq<string>, x: string)
    ensures Join([first] + rest, ",") + x == first + if rest == [] then x else "," + (Join(rest, ",") + x)
  {
    assert ([first] + rest)[1..] == rest;
    if rest != [] {
      assert first + "," + Join(rest, ",") + x == first + ("," + (Join(rest, ",") + x));
    }
  }

  /** A list of values is not empty exactly when its text does not start with the closing bracket. */
  lemma ItemsNonEmpty(v: Json, vs: seq<Json>, x: string)
    requires forall i :: 0 <= i < |vs| ==> vs[i] < v && WellFormed(vs[i])
    requires x != [] && x[0] == ']'
    ensures var s := ItemsText(v, vs, x); s != [] && (vs == [] <==> s[0] == ']')
  {
    if vs != [] {
      FirstChar(vs[0]);
      ItemsTextCons(v, vs, x);
      assert ItemsText(v, vs, x)[0] == Stringify(vs[0])[0];
    }
  }

  lemma {:induction false} ItemsReadable(v: Json, vs: seq<Json>, w: Json, ws: seq<Json>, x: string, y: string)
    requires forall i :: 0 <= i < |vs| ==> vs[i] < v && WellFormed(vs[i])
    requires forall i :: 0 <= i < |ws| ==> ws[i] < w && WellFormed(ws[i])
    requires x != [] && x[0] == ']' && y != [] && y[0] == ']'
    requires ItemsText(v, vs, x) == ItemsText(w, ws, y)
    ensures |vs| == |ws| && x == y && forall i :: 0 <= i < |vs| ==> Equivalent(vs[i], ws[i])
    decreases v, |vs|
  {
    ItemsNonEmpty(v, vs, x);
    ItemsNonEmpty(w, ws, y);
    if vs == [] {
      assert ItemsText(v, vs, x) == x && ItemsText(w, ws, y) == y;
    } else {
      hide ItemsText, Stringify, WellFormed, Equivalent;
      ItemsTextCons(v, vs, x);
      ItemsTextCons(w, ws, y);
      var a := if |vs| == 1 then x else "," + ItemsText(v, vs[1..], x);
      var b := if |ws| == 1 then y else "," + ItemsText(w, ws[1..], y);
      Readable(vs[0], ws[0], a, b);
      if |vs| > 1 && |ws| > 1 {
        assert a[1..] == ItemsText(v, vs[1..], x) && b[1..] == ItemsText(w, ws[1..], y);
        ItemsReadable(v, vs[1..], w, ws[1..], x, y);
        assert forall i :: 1 <= i < |vs| ==> vs[i] == vs[1..][i - 1] && ws[i] == ws[1..][i - 1];
      }
    }
  }

  lemma EntriesNonEmpty(v: Json, vs: seq<Entry>, x: string)
    requires forall e :: e in vs ==> e.value < v
    requires x != [] && x[0] == '}'
    ensures var s := EntriesText(v, vs, x); s != [] && (vs == [] <==> s[0] == '}')
  {
    if vs != [] {
      EntriesTextCons(v, vs, x);
      assert EntriesText(v, vs, x)[0] == Quote(vs[0].key)[0];
    }
  }

  lemma {:induction false} EntriesReadable(v: Json, vs: seq<Entry>, w: Json, ws: seq<Entry>, x: string, y: string)
    requires forall e :: e in vs ==> e.value < v && WellFormed(e.value)
    requires forall e :: e in ws ==> e.value < w && WellFormed(e.value)
    requires x != [] && x[0] == '}' && y != [] && y[0] == '}'
    requires EntriesText(v, vs, x) == EntriesText(w, ws, y)
    ensures SameEntries(vs, ws) && x == y
    decreases v, |vs|
  {
    EntriesNonEmpty(v, vs, x);
    EntriesNonEmpty(w, ws, y);
    if vs == [] {
      assert EntriesText(v, vs, x) == x && EntriesText(w, ws, y) == y;
    } else {
      hide EntriesText, Stringify, Quote, WellFormed, Equivalent, SameEntries;
      EntriesTextCons(v, vs, x);
      EntriesTextCons(w, ws, y);
      var a := if |vs| == 1 then x else "," + EntriesText(v, vs[1..], x);
      var b := if |ws| == 1 then y else "," + EntriesText(w, ws[1..], y);
      assert vs[0] in vs && ws[0] in ws;
      EntryReadable(vs[0], ws[0], a, b);
      Readable(vs[0].value, ws[0].value, a, b);
      if |vs| == 1 {
        SingleEntry(vs, ws);
      } else {
        assert a[1..] == EntriesText(v, vs[1..], x) && b[1..] == EntriesText(w, ws[1..], y);
        EntriesReadable(v, vs[1..], w, ws[1..], x, y);
      }
      SameEntriesCons(vs, ws);
    }
  }

  lemma SingleEntry(a: seq<Entry>, b: seq<Entry>)
    requires |a| == |b| == 1
    ensures SameEntries(a[1..], b[1..])
  {
  }

  lemma SameEntriesCons(a: seq<Entry>, b: seq<Entry>)
    requires a != [] && b != [] && SameEntries(a[1..], b[1..])
    requires a[0].key == b[0].key && Equivalent(a[0].value, b[0].value)
    ensures SameEntries(a, b)
  {
    assert forall i :: 1 <= i < |a| ==> a[i] == a[1..][i - 1] && b[i] == b[1..][i - 1];
  }

  lemma EntryReadable(e: Entry, f: Entry, x: string, y: string)
    requires Quote(e.key) + (":" + (Stringify(e.value) + x)) == Quote(f.key) + (":" + (Stringify(f.value) + y))
    ensures e.key == f.key && Stringify(e.value) + x == Stringify(f.value) + y
  {
    var p, q := ":" + (Stringify(e.value) + x), ":" + (Stringify(f.value) + y);
    QuoteReadable(e.key, f.key, p, q);
    assert p[1..] == Stringify(e.value) + x && q[1..] == Stringify(f.value) + y;
  }

  /** Two values have the same text exactly when they are equal up to the order of object keys. */
  lemma StableTextIffEquivalent(v: Json, w: Json)
    requires WellFormed(v) && WellFormed(w)
    ensures Stringify(v) == Stringify(w) <==> Equivalent(v, w)
  {
    if Equivalent(v, w) {
      EquivalentSameText(v, w);
    }
    if Stringify(v) == Stringify(w) {
      Readable(v, w, "", "");
    }
  }
}
