/** The MCP registration key, `name:` followed by the stable text of the configuration, identifies both. */
module RegistrationKeys {
  import opened Text
  import opened StableStringify
  import opened StableStringifyTheorems

  /** A reader that only tracks string literals and the nesting of brackets. */
  datatype Mode = Outside | Inside | Escaped | Dead

  datatype Scan = Scan(mode: Mode, depth: int)

  function Step(scan: Scan, c: char): Scan {
    match scan.mode
    case Outside =>
      if c == '\"' then scan.(mode := Inside)
      else if c == '\\' then scan.(mode := Dead)
      else if c == '{' || c == '[' then scan.(depth := scan.depth + 1)
      else if c == '}' || c == ']' then scan.(depth := scan.depth - 1)
      else scan
    case Inside => if c == '\"' then scan.(mode := Outside) else if c == '\\' then scan.(mode := Escaped) else scan
    case Escaped => scan.(mode := Inside)
    case Dead => scan
  }

  function Steps(scan: Scan, s: string): Scan
    decreases |s|
  {
    if s == [] then scan else Steps(Step(scan, s[0]), s[1..])
  }

  lemma {:induction false} StepsAppend(scan: Scan, s: string, t: string)
    ensures Steps(scan, s + t) == Steps(Steps(scan, s), t)
    decreases |s|
  {
    if s == [] {
      assert s + t == t;
    } else {
      assert (s + t)[1..] == s[1..] + t;
      StepsAppend(Step(scan, s[0]), s[1..], t);
    }
  }

  /** The depth does not go below `floor` while reading `s`, which ends outside literals at `end`. */
  ghost predicate Keeps(scan: Scan, s: string, floor: int, end: Scan) {
    && Steps(scan, s) == end
    && forall i :: 0 <= i <= |s| ==> Steps(scan, s[..i]).depth >= floor
  }

  lemma KeepsAppend(scan: Scan, s: string, middle: Scan, t: string, floor: int, end: Scan)
    requires Keeps(scan, s, floor, middle) && Keeps(middle, t, floor, end)
    ensures Keeps(scan, s + t, floor, end)
  {
    StepsAppend(scan, s, t);
    forall i | 0 <= i <= |s + t|
      ensures Steps(scan, (s + t)[..i]).depth >= floor
    {
      if i <= |s| {
        assert (s + t)[..i] == s[..i];
      } else {
        assert (s + t)[..i] == s + t[..i - |s|];
        StepsAppend(scan, s, t[..i - |s|]);
      }
    }
  }

  lemma KeepsChar(scan: Scan, c: char, floor: int)
    requires scan.depth >= floor && Step(scan, c).depth >= floor
    ensures Keeps(scan, [c], floor, Step(scan, c))
  {
    assert [c][1..] == [];
    assert forall i :: 0 <= i <= 1 ==> [c][..i] == if i == 0 then [] else [c];
  }

  lemma KeepsPlain(scan: Scan, s: string, floor: int)
    requires scan.depth >= floor && scan.mode == Outside
    requires forall i :: 0 <= i < |s| ==> s[i] !in "\"\\{}[]"
    ensures Keeps(scan, s, floor, scan)
  {
    if s == [] {
      assert forall i :: 0 <= i <= 0 ==> s[..i] == [];
    } else {
      KeepsChar(scan, s[0], floor);
      KeepsPlain(scan, s[1..], floor);
      KeepsAppend(scan, [s[0]], scan, s[1..], floor, scan);
      assert s == [s[0]] + s[1..];
    }
  }

  lemma KeepsEscape(c: char, d: int)
    ensures Keeps(Scan(Inside, d), EscapeChar(c), d, Scan(Inside, d))
  {
    var scan, s := Scan(Inside, d), EscapeChar(c);
    if |s| == 1 {
      KeepsChar(scan, c, d);
    } else {
      var escaped := Scan(Escaped, d);
      KeepsChar(scan, s[0], d);
      KeepsChar(escaped, s[1], d);
      KeepsAppend(scan, [s[0]], escaped, [s[1]], d, scan);
      assert [s[0]] + [s[1]] == [s[0], s[1]];
      EscapeTail(c);
      KeepsInside(s[2..], d);
      KeepsAppend(scan, [s[0], s[1]], scan, s[2..], d, scan);
      assert s == [s[0], s[1]] + s[2..];
    }
  }

  /** What follows the backslash and the letter of an escape is hexadecimal. */
  lemma EscapeTail(c: char)
    requires |EscapeChar(c)| >= 2
    ensures forall i :: 2 <= i < |EscapeChar(c)| ==> EscapeChar(c)[i] != '\"' && EscapeChar(c)[i] != '\\'
  {
    var s := EscapeChar(c);
    if |s| == 6 {
      var high, low := HexDigit(c as int / 16), HexDigit(c as int % 16);
      assert s == "\\u00" + [high, low];
    }
  }

  lemma {:induction false} KeepsInside(s: string, d: int)
    requires forall i :: 0 <= i < |s| ==> s[i] != '\"' && s[i] != '\\'
    ensures Keeps(Scan(Inside, d), s, d, Scan(Inside, d))
  {
    var scan := Scan(Inside, d);
    if s == [] {
      assert forall i :: 0 <= i <= 0 ==> s[..i] == [];
    } else {
      KeepsChar(scan, s[0], d);
      KeepsInside(s[1..], d);
      KeepsAppend(scan, [s[0]], scan, s[1..], d, scan);
      assert s == [s[0]] + s[1..];
    }
  }

  lemma {:induction false} KeepsEscapes(s: string, d: int)
    ensures Keeps(Scan(Inside, d), Escape(s), d, Scan(Inside, d))
  {
    var scan := Scan(Inside, d);
    if s == [] {
      KeepsInside("", d);
    } else {
      KeepsEscape(s[0], d);
      KeepsEscapes(s[1..], d);
      KeepsAppend(scan, EscapeChar(s[0]), scan, Escape(s[1..]), d, scan);
    }
  }

  lemma KeepsQuote(s: string, d: int)
    ensures Keeps(Scan(Outside, d), Quote(s), d, Scan(Outside, d))
  {
    var outside, inside := Scan(Outside, d), Scan(Inside, d);
    KeepsChar(outside, '\"', d);
    KeepsEscapes(s, d);
    KeepsAppend(outside, "\"", inside, Escape(s), d, inside);
    KeepsChar(inside, '\"', d);
    KeepsAppend(outside, "\"" + Escape(s), inside, "\"", d, outside);
  }

  /** Brackets around a text that stays one level up. */
  lemma KeepsBrackets(left: char, body: string, right: char, d: int)
    requires (left == '[' && right == ']') || (left == '{' && right == '}')
    requires Keeps(Scan(Outside, d + 1), body, d + 1, Scan(Outside, d + 1))
    ensures Keeps(Scan(Outside, d), [left] + body + [right], d, Scan(Outside, d))
    ensures forall i :: 0 < i < |body| + 2 ==> Steps(Scan(Outside, d), ([left] + body + [right])[..i]).depth >= d + 1
  {
    var low, high := Scan(Outside, d), Scan(Outside, d + 1);
    KeepsChar(low, left, d);
    assert Keeps(high, body, d, high);
    KeepsAppend(low, [left], high, body, d, high);
    KeepsChar(high, right, d);
    KeepsAppend(low, [left] + body, high, [right], d, low);
    forall i | 0 < i < |body| + 2
      ensures Steps(low, ([left] + body + [right])[..i]).depth >= d + 1
    {
      assert ([left] + body + [right])[..i] == [left] + body[..i - 1];
      StepsAppend(low, [left], body[..i - 1]);
    }
  }

  /** Reading a value ends where it began, outside literals, and never closes an outer bracket. */
  lemma {:induction false} KeepsValue(v: Json, d: int)
    requires WellFormed(v)
    ensures Keeps(Scan(Outside, d), Stringify(v), d, Scan(Outside, d))
    decreases v
  {
    hide Keeps, Steps;
    match v
    case Str(text) =>
      KeepsQuote(text, d);
    case Array(items) =>
      KeepsItems(v, items, d + 1);
      KeepsBrackets('[', Join(StringifyItems(v, items), ","), ']', d);
    case Object(entries) =>
      SortKeeps(entries);
      KeepsEntries(v, SortByKey(entries), d + 1);
      KeepsBrackets('{', Join(StringifyEntries(v, SortByKey(entries)), ","), '}', d);
    case _ =>
      KeepsScalar(v, d);
  }

  lemma KeepsScalar(v: Json, d: int)
    requires WellFormed(v) && (v.Null? || v.Bool? || v.Number?)
    ensures Keeps(Scan(Outside, d), Stringify(v), d, Scan(Outside, d))
  {
    if v.Number? {
      assert forall i :: 0 <= i < |v.text| ==> IsNumberChar(v.text[i]);
    }
    KeepsPlain(Scan(Outside, d), Stringify(v), d);
  }

  lemma {:induction false} KeepsItems(v: Json, vs: seq<Json>, d: int)
    requires forall i :: 0 <= i < |vs| ==> vs[i] < v && WellFormed(vs[i])
    ensures Keeps(Scan(Outside, d), Join(StringifyItems(v, vs), ","), d, Scan(Outside, d))
    decreases v, |vs|
  {
    if vs == [] {
      KeepsPlain(Scan(Outside, d), "", d);
    } else {
      KeepsValue(vs[0], d);
      KeepsItems(v, vs[1..], d);
      KeepsJoin(Stringify(vs[0]), StringifyItems(v, vs[1..]), d);
    }
  }

  lemma {:induction false} KeepsEntries(v: Json, vs: seq<Entry>, d: int)
    requires forall e :: e in vs ==> e.value < v && WellFormed(e.value)
    ensures Keeps(Scan(Outside, d), Join(StringifyEntries(v, vs), ","), d, Scan(Outside, d))
    decreases v, |vs|
  {
    var scan := Scan(Outside, d);
    if vs == [] {
      KeepsPlain(scan, "", d);
    } else {
      assert vs[0] in vs;
      KeepsQuote(vs[0].key, d);
      KeepsPlain(scan, ":", d);
      KeepsAppend(scan, Quote(vs[0].key), scan, ":", d, scan);
      KeepsValue(vs[0].value, d);
      KeepsAppend(scan, Quote(vs[0].key) + ":", scan, Stringify(vs[0].value), d, scan);
      KeepsEntries(v, vs[1..], d);
      KeepsJoin(Quote(vs[0].key) + ":" + Stringify(vs[0].value), StringifyEntries(v, vs[1..]), d);
    }
  }

  lemma KeepsJoin(first: string, rest: seq<string>, d: int)
    requires Keeps(Scan(Outside, d), first, d, Scan(Outside, d))
    requires Keeps(Scan(Outside, d), Join(rest, ","), d, Scan(Outside, d))
    ensures Keeps(Scan(Outside, d), Join([first] + rest, ","), d, Scan(Outside, d))
  {
    var scan := Scan(Outside, d);
    assert ([first] + rest)[1..] == rest;
    if rest != [] {
      KeepsPlain(scan, ",", d);
      KeepsAppend(scan, first, scan, ",", d, scan);
      KeepsAppend(scan, first + ",", scan, Join(rest, ","), d, scan);
    }
  }

  /** Strictly inside the text of an object some bracket is open. */
  lemma ObjectOpen(v: Json, i: nat)
    requires v.Object? && WellFormed(v) && 0 < i < |Stringify(v)|
    ensures Steps(Scan(Outside, 0), Stringify(v)[..i]).depth >= 1
  {
    SortKeeps(v.entries);
    KeepsEntries(v, SortByKey(v.entries), 1);
    KeepsBrackets('{', Join(StringifyEntries(v, SortByKey(v.entries)), ","), '}', 0);
  }

  // ---------- Reading from the wrong side of a quote ----------

  predicate Opposite(a: Scan, b: Scan) {
    (a.mode.Outside? && b.mode.Inside?) || (a.mode.Inside? && b.mode.Outside?)
  }

  lemma {:induction false} DeadStays(scan: Scan, s: string)
    requires scan.mode.Dead?
    ensures Steps(scan, s) == scan
    decreases |s|
  {
    if s != [] {
      DeadStays(scan, s[1..]);
    }
  }

  /** Two readers on opposite sides of a quote stay so: at a backslash the one outside dies. */
  lemma {:induction false} OppositeStays(a: Scan, b: Scan, s: string)
    requires Opposite(a, b)
    ensures Opposite(Steps(a, s), Steps(b, s)) || Steps(a, s).mode.Dead? || Steps(b, s).mode.Dead?
    decreases |s|
  {
    if s != [] {
      var c, d := Step(a, s[0]), Step(b, s[0]);
      if Opposite(c, d) {
        OppositeStays(c, d, s[1..]);
      } else if c.mode.Dead? {
        DeadStays(c, s[1..]);
      } else {
        DeadStays(d, s[1..]);
      }
    }
  }

  lemma {:induction false} DepthShifts(scan: Scan, s: string, shift: int)
    ensures Steps(Scan(scan.mode, scan.depth + shift), s) == Scan(Steps(scan, s).mode, Steps(scan, s).depth + shift)
    decreases |s|
  {
    if s != [] {
      DepthShifts(Step(scan, s[0]), s[1..], shift);
    }
  }

  /** The text of an object does not end with a colon followed by the text of an object. */
  lemma NoObjectSuffix(v: Json, head: string, w: Json)
    requires WellFormed(v) && WellFormed(w) && v.Object? && w.Object?
    ensures Stringify(v) != head + ":" + Stringify(w)
  {
    hide Stringify, WellFormed;
    var start, before := Scan(Outside, 0), head + ":";
    KeepsValue(v, 0);
    KeepsValue(w, 0);
    if Stringify(v) == before + Stringify(w) {
      var at := Steps(start, before);
      StepsAppend(start, before, Stringify(w));
      StepsAppend(start, head, ":");
      assert Stringify(v)[..|before|] == before;
      FirstChar(w);
      ObjectOpen(v, |before|);
      DeadStays(Scan(Dead, at.depth), Stringify(w));
      DepthShifts(start, Stringify(w), at.depth);
      if at.mode.Inside? {
        OppositeStays(start, at, Stringify(w));
      }
      assert false;
    }
  }

  /** Names and configurations with the same key are the same up to the order of object keys,
      whatever characters the names contain. */
  lemma RegistrationKeyIffSame(name: string, config: Json, other: string, config': Json)
    requires WellFormed(config) && WellFormed(config') && config.Object? && config'.Object?
    ensures RegistrationKey(name, config) == RegistrationKey(other, config')
      <==> name == other && Equivalent(config, config')
  {
    StableTextIffEquivalent(config, config');
    if RegistrationKey(name, config) == RegistrationKey(other, config') {
      SameNameLength(name, config, other, config');
      SameNameLength(other, config', name, config);
      var s, t := RegistrationKey(name, config), RegistrationKey(other, config');
      assert name == s[..|name|] && other == t[..|other|];
      assert Stringify(config) == s[|name| + 1..] && Stringify(config') == t[|other| + 1..];
    }
  }

  lemma SameNameLength(name: string, config: Json, other: string, config': Json)
    requires WellFormed(config) && WellFormed(config') && config.Object? && config'.Object?
    requires RegistrationKey(name, config) == RegistrationKey(other, config')
    ensures |other| <= |name|
  {
    if |name| < |other| {
      LongerName(name, Stringify(config), other, Stringify(config'));
      NoObjectSuffix(config, other[|name| + 1..], config');
    }
  }

  lemma LongerName(name: string, text: string, other: string, text': string)
    requires name + ":" + text == other + ":" + text' && |name| < |other|
    ensures text == other[|name| + 1..] + ":" + text'
  {
    var s, t := name + ":" + text, other + ":" + text';
    assert text == s[|name| + 1..];
    assert t[|name| + 1..] == other[|name| + 1..] + ":" + text';
  }
}
