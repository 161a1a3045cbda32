/** Wildcards, brace groups and the scan of a directory tree (crates/oc-config/src/glob.rs).

    `Wild`, `Braces` and `PathMatches` say what a pattern means; the methods compute it. */
module Glob {
  import opened Wrappers
  import opened Text

  // ---------- One segment against a wildcard pattern ----------

  /** A star stands for any text, every other character for itself. */
  predicate Wild(name: string, pattern: string)
    decreases |pattern|
  {
    if pattern == "" then name == ""
    else if pattern[0] == '*' then exists k :: 0 <= k <= |name| && Wild(name[k..], pattern[1..])
    else name != "" && name[0] == pattern[0] && Wild(name[1..], pattern[1..])
  }

  lemma {:induction false} WildLiteral(name: string, pattern: string)
    requires '*' !in pattern
    ensures Wild(name, pattern) <==> name == pattern
    decreases |pattern|
  {
    if pattern != "" && name != "" {
      WildLiteral(name[1..], pattern[1..]);
      assert name == [name[0]] + name[1..] && pattern == [pattern[0]] + pattern[1..];
    }
  }

  /** The last character of a pattern, when it is no star, is the last character of the name. */
  lemma {:induction false} WildSnocChar(name: string, pattern: string, c: char)
    requires c != '*'
    ensures Wild(name, pattern + [c]) <==>
      name != "" && name[|name| - 1] == c && Wild(name[..|name| - 1], pattern)
    decreases |pattern|
  {
    var n := |name| - 1;
    if pattern == "" {
      assert pattern + [c] == [c] && [c][1..] == "";
      assert |name| == 1 <==> name != "" && name[1..] == "";
    } else {
      assert (pattern + [c])[1..] == pattern[1..] + [c];
      if pattern[0] == '*' {
        forall k | 0 <= k <= |name|
          ensures Wild(name[k..], pattern[1..] + [c]) <==>
            k < |name| && name[n] == c && Wild(name[..n][k..], pattern[1..])
        {
          WildSnocChar(name[k..], pattern[1..], c);
          if k < |name| {
            assert name[k..][..|name[k..]| - 1] == name[..n][k..];
          }
        }
      } else if name != "" {
        WildSnocChar(name[1..], pattern[1..], c);
        if |name| > 1 {
          assert name[1..][..|name[1..]| - 1] == name[..n][1..];
        }
      }
    }
  }

  ghost predicate SomePrefixWild(name: string, pattern: string) {
    exists k :: 0 <= k <= |name| && Wild(name[..k], pattern)
  }

  /** A final star stands for whatever the rest of the pattern leaves over. */
  lemma {:induction false} WildSnocStar(name: string, pattern: string)
    ensures Wild(name, pattern + "*") <==> SomePrefixWild(name, pattern)
    decreases |pattern|
  {
    if pattern == "" {
      assert pattern + "*" == "*" && name[|name|..] == "" && name[..0] == "";
      assert Wild(name[|name|..], "*"[1..]) && Wild(name[..0], "");
    } else {
      assert (pattern + "*")[1..] == pattern[1..] + "*";
      if pattern[0] == '*' {
        StarThenStar(name, pattern);
      } else if name == "" {
        assert forall k :: 0 <= k <= |name| ==> name[..k] == "";
      } else {
        WildSnocStar(name[1..], pattern[1..]);
        if SomePrefixWild(name, pattern) {
          var k :| 0 <= k <= |name| && Wild(name[..k], pattern);
          assert name[..k][1..] == name[1..][..k - 1];
        }
        if name[0] == pattern[0] && SomePrefixWild(name[1..], pattern[1..]) {
          var k :| 0 <= k <= |name[1..]| && Wild(name[1..][..k], pattern[1..]);
          assert name[..k + 1][1..] == name[1..][..k];
          assert Wild(name[..k + 1], pattern);
        }
      }
    }
  }

  lemma {:induction false} StarThenStar(name: string, pattern: string)
    requires pattern != "" && pattern[0] == '*'
    ensures Wild(name, pattern + "*") <==> SomePrefixWild(name, pattern)
    decreases |pattern|, 0
  {
    assert (pattern + "*")[1..] == pattern[1..] + "*";
    if Wild(name, pattern + "*") {
      var i :| 0 <= i <= |name| && Wild(name[i..], pattern[1..] + "*");
      WildSnocStar(name[i..], pattern[1..]);
      var j :| 0 <= j <= |name[i..]| && Wild(name[i..][..j], pattern[1..]);
      assert name[..i + j][i..] == name[i..][..j];
      assert Wild(name[..i + j], pattern);
    }
    if SomePrefixWild(name, pattern) {
      var k :| 0 <= k <= |name| && Wild(name[..k], pattern);
      var i :| 0 <= i <= |name[..k]| && Wild(name[..k][i..], pattern[1..]);
      assert name[i..][..k - i] == name[..k][i..];
      WildSnocStar(name[i..], pattern[1..]);
    }
  }

  /** The recurrence for a star: it takes one more character, or none. */
  lemma StarStep(name: string, c: char, pattern: string)
    ensures Wild(name + [c], pattern + "*") <==> Wild(name, pattern + "*") || Wild(name + [c], pattern)
    ensures Wild("", pattern + "*") <==> Wild("", pattern)
  {
    WildSnocStar(name + [c], pattern);
    WildSnocStar(name, pattern);
    WildSnocStar("", pattern);
    assert ""[..0] == "";
    assert (name + [c])[..|name| + 1] == name + [c];
    assert forall k :: 0 <= k <= |name| ==> (name + [c])[..k] == name[..k];
  }

  method SegmentMatches(name: string, pattern: string) returns (matches: bool)
    ensures matches <==> Wild(name, pattern)
  {
    hide Wild;
    if '*' !in pattern {
      WildLiteral(name, pattern);
      return name == pattern;
    }
    FirstCells(name, pattern);
    var n, m := |name|, |pattern|;
    var dp := new bool[n + 1, m + 1]((i, j) => false);
    dp[0, 0] := true;
    for j := 1 to m + 1
      invariant forall k :: 0 <= k < j ==> dp[0, k] == Wild("", pattern[..k])
      invariant forall i, k :: 1 <= i <= n && 0 <= k <= m ==> !dp[i, k]
      invariant forall k :: j <= k <= m ==> !dp[0, k]
    {
      PrefixStep("", pattern, j);
      if pattern[j - 1] == '*' {
        dp[0, j] := dp[0, j - 1];
      }
    }
    for i := 1 to n + 1
      invariant forall r, k :: 0 <= r < i && 0 <= k <= m ==> dp[r, k] == Wild(name[..r], pattern[..k])
      invariant forall r, k :: i <= r <= n && 0 <= k <= m ==> !dp[r, k]
    {
      FillRow(dp, name, pattern, i);
    }
    assert name[..n] == name && pattern[..m] == pattern;
    return dp[n, m];
  }

  /** The loop over the cells of a row. */
  method FillRow(dp: array2<bool>, name: string, pattern: string, i: nat)
    requires 1 <= i <= |name| && dp.Length0 == |name| + 1 && dp.Length1 == |pattern| + 1
    requires forall r, k :: 0 <= r < i && 0 <= k <= |pattern| ==> dp[r, k] == Wild(name[..r], pattern[..k])
    requires !dp[i, 0]
    modifies dp
    ensures forall r, k :: 0 <= r <= i && 0 <= k <= |pattern| ==> dp[r, k] == Wild(name[..r], pattern[..k])
    ensures forall r, k :: i < r <= |name| && 0 <= k <= |pattern| ==> dp[r, k] == old(dp[r, k])
  {
    hide Wild;
    FirstCells(name, pattern);
    for j := 1 to |pattern| + 1
      invariant forall r, k :: 0 <= r < i && 0 <= k <= |pattern| ==> dp[r, k] == Wild(name[..r], pattern[..k])
      invariant forall k :: 0 <= k < j ==> dp[i, k] == Wild(name[..i], pattern[..k])
      invariant forall r, k :: i < r <= |name| && 0 <= k <= |pattern| ==> dp[r, k] == old(dp[r, k])
    {
      PrefixStep(name[..i], pattern, j);
      assert name[..i][..i - 1] == name[..i - 1];
      dp[i, j] :=
        if pattern[j - 1] == '*' then dp[i - 1, j] || dp[i, j - 1]
        else dp[i - 1, j - 1] && name[i - 1] == pattern[j - 1];
    }
  }

  /** The corner of the table, and the column of the empty pattern. */
  lemma FirstCells(name: string, pattern: string)
    ensures forall i :: 0 <= i <= |name| ==> (Wild(name[..i], pattern[..0]) <==> i == 0)
    ensures Wild("", pattern[..0])
  {
    assert pattern[..0] == "" && name[..0] == "";
  }

  /** One cell of the table from its neighbours. */
  lemma PrefixStep(name: string, pattern: string, j: nat)
    requires 1 <= j <= |pattern|
    ensures pattern[j - 1] == '*' ==>
      (Wild(name, pattern[..j]) <==>
        (name != "" && Wild(name[..|name| - 1], pattern[..j])) || Wild(name, pattern[..j - 1]))
    ensures pattern[j - 1] != '*' ==>
      (Wild(name, pattern[..j]) <==>
        name != "" && name[|name| - 1] == pattern[j - 1] && Wild(name[..|name| - 1], pattern[..j - 1]))
  {
    assert pattern[..j] == pattern[..j - 1] + [pattern[j - 1]];
    if pattern[j - 1] != '*' {
      WildSnocChar(name, pattern[..j - 1], pattern[j - 1]);
    } else if name == "" {
      StarStep("", 'a', pattern[..j - 1]);
    } else {
      assert name == name[..|name| - 1] + [name[|name| - 1]];
      StarStep(name[..|name| - 1], name[|name| - 1], pattern[..j - 1]);
    }
  }

  // ---------- Brace groups ----------

  /** `option` stands between commas, or the ends, of `inner`. */
  ghost predicate IsOption(inner: string, option: string) {
    exists i, j :: OptionAt(inner, option, i, j)
  }

  predicate OptionAt(inner: string, option: string, i: int, j: int) {
    && 0 <= i <= j <= |inner| && option == inner[i..j] && ',' !in option
    && (i == 0 || inner[i - 1] == ',') && (j == |inner| || inner[j] == ',')
  }

  /** The texts a segment with `{a,b}` groups stands for: an option for each group, the rest verbatim. */
  ghost predicate Braces(segment: string, text: string)
    decreases |segment|
  {
    match Find(segment, "{")
    case None => text == segment
    case Some(start) =>
      match FindFrom(segment, "}", start + 1)
      case None => text == segment
      case Some(end) =>
        exists option, rest ::
          IsOption(segment[start + 1..end], option) && Braces(segment[end + 1..], rest)
          && text == segment[..start] + option + rest
  }

  /** `prefix`, each of the options, and each of the rests, in order. */
  function Cross(prefix: string, options: seq<string>, rests: seq<string>): seq<string> {
    if options == [] then [] else Each(prefix + options[0], rests) + Cross(prefix, options[1..], rests)
  }

  function Each(start: string, rests: seq<string>): seq<string> {
    seq(|rests|, i requires 0 <= i < |rests| => start + rests[i])
  }

  lemma {:induction false} CrossSnoc(prefix: string, options: seq<string>, option: string, rests: seq<string>)
    ensures Cross(prefix, options + [option], rests) == Cross(prefix, options, rests) + Each(prefix + option, rests)
  {
    hide Each;
    var all := options + [option];
    if options == [] {
      assert all[1..] == [];
    } else {
      assert all[1..] == options[1..] + [option];
      CrossSnoc(prefix, options[1..], option, rests);
    }
  }

  function Expand(segment: string): seq<string>
    decreases |segment|
  {
    match Find(segment, "{")
    case None => [segment]
    case Some(start) =>
      match FindFrom(segment, "}", start + 1)
      case None => [segment]
      case Some(end) =>
        Cross(segment[..start], Split(segment[start + 1..end], ','), Expand(segment[end + 1..]))
  }

  /** `expand_braces`; `split` never yields an empty list, so the source's check for one is not reached. */
  method ExpandBraces(segment: string) returns (out: seq<string>)
    ensures out == Expand(segment)
    decreases |segment|, 0
  {
    hide Find, FindFrom, Split, Cross;
    var start := Find(segment, "{");
    if start.None? {
      return [segment];
    }
    var end := FindFrom(segment, "}", start.value + 1);
    if end.None? {
      return [segment];
    }
    var options := Split(segment[start.value + 1..end.value], ',');
    var prefix, suffix := segment[..start.value], segment[end.value + 1..];
    out := ExpandOptions(prefix, options, suffix);
  }

  /** The loop over a group's options. */
  method ExpandOptions(prefix: string, options: seq<string>, suffix: string) returns (out: seq<string>)
    ensures out == Cross(prefix, options, Expand(suffix))
    decreases |suffix|, 1
  {
    out := [];
    for o := 0 to |options|
      invariant out == Cross(prefix, options[..o], Expand(suffix))
    {
      hide Expand, Cross;
      var rests := ExpandBraces(suffix);
      ghost var before := out;
      for r := 0 to |rests|
        invariant out == before + Each(prefix + options[o], rests)[..r]
      {
        out := out + [prefix + options[o] + rests[r]];
      }
      assert options[..o + 1] == options[..o] + [options[o]];
      CrossSnoc(prefix, options[..o], options[o], rests);
    }
    assert options[..|options|] == options;
  }

  lemma {:induction false} CrossContains(prefix: string, options: seq<string>, rests: seq<string>, text: string)
    ensures text in Cross(prefix, options, rests) <==>
      exists option, rest :: option in options && rest in rests && text == prefix + option + rest
  {
    if options != [] {
      var first := Each(prefix + options[0], rests);
      CrossContains(prefix, options[1..], rests, text);
      assert options == [options[0]] + options[1..];
      if text in first {
        var i :| 0 <= i < |first| && first[i] == text;
        assert options[0] in options && rests[i] in rests;
      }
      if option, rest :| option in options && rest in rests && text == prefix + option + rest {
        if option == options[0] {
          var i :| 0 <= i < |rests| && rests[i] == rest;
          assert first[i] == text;
        }
      }
    }
  }

  ghost predicate FirstOption(inner: string, option: string) {
    exists j :: OptionAt(inner, option, 0, j)
  }

  ghost predicate LaterOption(inner: string, option: string) {
    exists i, j :: i > 0 && OptionAt(inner, option, i, j)
  }

  lemma OptionShifts(inner: string, option: string, i: int, j: int)
    requires inner != ""
    ensures i > 0 ==>
      (OptionAt(inner, option, i, j) <==> OptionAt(inner[1..], option, i - 1, j - 1) && (i == 1 ==> inner[0] == ','))
    ensures j > 0 ==>
      (OptionAt(inner, option, 0, j) <==>
        option != "" && option[0] == inner[0] != ',' && OptionAt(inner[1..], option[1..], 0, j - 1))
  {
    if 0 < i <= j <= |inner| {
      assert inner[i..j] == inner[1..][i - 1..j - 1];
    }
    if 0 < j <= |inner| {
      assert inner[0..j] == [inner[0]] + inner[1..][0..j - 1];
      assert option != "" ==> option == [option[0]] + option[1..];
    }
  }

  lemma LaterShifts(inner: string, option: string)
    requires inner != ""
    ensures LaterOption(inner, option) <==>
      LaterOption(inner[1..], option) || (inner[0] == ',' && FirstOption(inner[1..], option))
  {
    if LaterOption(inner, option) {
      var i, j :| i > 0 && OptionAt(inner, option, i, j);
      OptionShifts(inner, option, i, j);
    }
    if LaterOption(inner[1..], option) {
      var i, j :| i > 0 && OptionAt(inner[1..], option, i, j);
      OptionShifts(inner, option, i + 1, j + 1);
    }
    if inner[0] == ',' && FirstOption(inner[1..], option) {
      var j :| OptionAt(inner[1..], option, 0, j);
      OptionShifts(inner, option, 1, j + 1);
    }
  }

  lemma FirstShifts(inner: string, option: string)
    requires inner != ""
    ensures FirstOption(inner, option) <==>
      if inner[0] == ',' then option == ""
      else option != "" && option[0] == inner[0] && FirstOption(inner[1..], option[1..])
  {
    if FirstOption(inner, option) {
      var j :| OptionAt(inner, option, 0, j);
      OptionShifts(inner, option, 0, j);
    }
    if inner[0] == ',' {
      assert OptionAt(inner, "", 0, 0);
    } else if option != "" && option[0] == inner[0] && FirstOption(inner[1..], option[1..]) {
      var j :| OptionAt(inner[1..], option[1..], 0, j);
      OptionShifts(inner, option, 0, j + 1);
    }
  }

  /** The pieces of a text between commas are its options; the first piece is the one at its start. */
  lemma {:induction false} SplitOptions(inner: string, option: string)
    ensures option == Split(inner, ',')[0] <==> FirstOption(inner, option)
    ensures option in Split(inner, ',')[1..] <==> LaterOption(inner, option)
    decreases |inner|
  {
    if inner == "" {
      assert OptionAt(inner, "", 0, 0);
    } else {
      hide FirstOption, LaterOption;
      FirstShifts(inner, option);
      LaterShifts(inner, option);
      SplitOptions(inner[1..], option);
      var pieces := Split(inner[1..], ',');
      assert pieces == [pieces[0]] + pieces[1..];
      if inner[0] == ',' {
        assert Split(inner, ',')[1..] == pieces;
      } else {
        assert Split(inner, ',')[1..] == pieces[1..];
        assert Split(inner, ',')[0] == [inner[0]] + pieces[0];
        if option != "" {
          SplitOptions(inner[1..], option[1..]);
          assert option == [option[0]] + option[1..];
        }
      }
    }
  }

  lemma OptionsAreSplit(inner: string, option: string)
    ensures option in Split(inner, ',') <==> IsOption(inner, option)
  {
    SplitOptions(inner, option);
    assert Split(inner, ',') == [Split(inner, ',')[0]] + Split(inner, ',')[1..];
    if IsOption(inner, option) {
      var i, j :| OptionAt(inner, option, i, j);
      assert i == 0 || i > 0;
    }
  }

  /** The expansion of a segment lists exactly the texts its brace groups stand for. */
  lemma {:induction false} ExpandIsBraces(segment: string, text: string)
    ensures text in Expand(segment) <==> Braces(segment, text)
    decreases |segment|
  {
    hide Find, FindFrom, Split, Cross, IsOption;
    var start := Find(segment, "{");
    if start.Some? {
      var end := FindFrom(segment, "}", start.value + 1);
      if end.Some? {
        var inner, suffix := segment[start.value + 1..end.value], segment[end.value + 1..];
        CrossContains(segment[..start.value], Split(inner, ','), Expand(suffix), text);
        forall option
          ensures option in Split(inner, ',') <==> IsOption(inner, option)
        {
          OptionsAreSplit(inner, option);
        }
        forall rest
          ensures rest in Expand(suffix) <==> Braces(suffix, rest)
        {
          ExpandIsBraces(suffix, rest);
        }
      }
    }
  }
}
