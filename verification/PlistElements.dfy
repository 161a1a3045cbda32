/** What the elements of a property list stand for, from their texts (crates/oc-config/src/managed.rs). */
module PlistElements {
  import opened Wrappers
  import opened Text
  import opened Decimal
  import opened Plist
  import opened PlistTheorems

  /** The pieces with the gaps before, between and after them. */
  function Woven(gaps: seq<string>, pieces: seq<string>): string
    requires |gaps| == |pieces| + 1
  {
    if pieces == [] then gaps[0] else gaps[0] + (pieces[0] + Woven(gaps[1..], pieces[1..]))
  }

  lemma {:induction false} StripAppend(s: string, t: string)
    ensures StripWhitespace(s + t) == StripWhitespace(s) + StripWhitespace(t)
  {
    if s == [] {
      assert s + t == t;
    } else {
      assert (s + t)[1..] == s[1..] + t;
      StripAppend(s[1..], t);
    }
  }

  lemma {:induction false} StripGap(s: string)
    requires AllWhitespace(s)
    ensures StripWhitespace(s) == ""
  {
    if s != [] {
      StripGap(s[1..]);
    }
  }

  lemma {:induction false} StripWoven(gaps: seq<string>, pieces: seq<string>)
    requires |gaps| == |pieces| + 1 && forall i :: 0 <= i < |gaps| ==> AllWhitespace(gaps[i])
    requires forall i :: 0 <= i < |pieces| ==> NoWhitespace(pieces[i])
    ensures StripWhitespace(Woven(gaps, pieces)) == Concat(pieces)
  {
    hide StripWhitespace;
    StripGap(gaps[0]);
    if pieces != [] {
      StripWoven(gaps[1..], pieces[1..]);
      NothingToStrip(pieces[0]);
      StripAppend(pieces[0], Woven(gaps[1..], pieces[1..]));
      StripAppend(gaps[0], pieces[0] + Woven(gaps[1..], pieces[1..]));
    }
  }

  predicate NoWhitespace(s: string) {
    forall i :: 0 <= i < |s| ==> !IsWhitespace(s[i])
  }

  lemma {:induction false} StripTrimStart(s: string)
    ensures StripWhitespace(TrimStart(s)) == StripWhitespace(s)
  {
    if s != [] && IsWhitespace(s[0]) {
      StripTrimStart(s[1..]);
    }
  }

  lemma {:induction false} TrimEndIs(s: string) returns (k: nat)
    ensures k <= |s| && TrimEnd(s) == s[..k]
    ensures k > 0 ==> !IsWhitespace(s[k - 1])
    ensures forall i :: k <= i < |s| ==> IsWhitespace(s[i])
  {
    k := |s|;
    if s != [] && IsWhitespace(s[|s| - 1]) {
      k := TrimEndIs(s[..|s| - 1]);
      assert s[..|s| - 1][..k] == s[..k];
      assert forall i :: k <= i < |s| - 1 ==> s[i] == s[..|s| - 1][i];
    }
  }

  lemma StripTrimEnd(s: string)
    ensures StripWhitespace(TrimEnd(s)) == StripWhitespace(s)
  {
    hide StripWhitespace, TrimEnd;
    var k := TrimEndIs(s);
    assert s == s[..k] + s[k..];
    StripAppend(s[..k], s[k..]);
    StripGap(s[k..]);
  }

  // ---------- Tags ----------

  function Slashes(n: nat): string {
    if n == 0 then "" else Slashes(n - 1) + "/"
  }

  lemma {:induction false} TrimsAllSlashes(s: string, n: nat)
    requires s != "" && s[|s| - 1] != '/'
    ensures TrimSlashes(s + Slashes(n)) == s
  {
    if n == 0 {
      assert s + "" == s;
    } else {
      var all := s + Slashes(n);
      assert all[..|all| - 1] == s + Slashes(n - 1) && all[|all| - 1] == '/';
      TrimsAllSlashes(s, n - 1);
    }
  }

  lemma {:induction false} WordThen(word: string, rest: string)
    requires NoWhitespace(word) && (rest == "" || IsWhitespace(rest[0]))
    ensures Word(word + rest) == word
  {
    if word == "" {
      assert word + rest == rest;
    } else {
      assert (word + rest)[1..] == word[1..] + rest;
      WordThen(word[1..], rest);
    }
  }

  /** A tag's name is its first word, whatever white space, attributes and slashes stand in the brackets with
      it, and it closes itself exactly when a slash stands last. */
  lemma TagReads(
    input: string, pos: nat, space: string, left: string, name: string, attributes: string, slashes: nat, right: string)
    requires pos <= |input| && AllAsciiWhitespace(space) && AllWhitespace(left) && AllWhitespace(right)
    requires name != "" && NoWhitespace(name) && (attributes == "" || IsWhitespace(attributes[0]))
    requires var inner := name + attributes;
      inner[|inner| - 1] != '/' && Trimmed(inner + Slashes(slashes))
    requires var content := left + (name + attributes + Slashes(slashes)) + right;
      Find(content, ">").None? && OccursAt(space + Bracketed(content), input, pos)
    ensures var content := left + (name + attributes + Slashes(slashes)) + right;
      TagAt(input, pos) == Success(Tag(name, slashes > 0, pos + |space| + |content| + 2))
  {
    hide OccursAt, SkipWs, TrimSlashes, Trim, TrimStart, TrimEnd, Word, FindFrom, Find;
    var inner := name + attributes;
    var trimmed := inner + Slashes(slashes);
    var content := left + trimmed + right;
    TrimPadded(left, trimmed, right);
    TrimsAllSlashes(inner, slashes);
    FirstWord(name, attributes);
    LastIsSlash(inner, slashes);
    ReadsBrackets(input, pos, space, content);
  }

  /** Nothing but ASCII white space may stand before a tag. */
  lemma NoTag(input: string, pos: nat, space: string)
    requires pos + |space| <= |input| && AllAsciiWhitespace(space) && OccursAt(space, input, pos)
    requires pos + |space| < |input| ==> input[pos + |space|] !in " \t\n\U{0C}\r<"
    ensures TagAt(input, pos) == Failure(ExpectedTag)
  {
    SkipsTo(input, pos, space);
  }

  /** A bracket that is never closed opens no tag. */
  lemma UnterminatedTagFails(input: string, pos: nat, space: string)
    requires pos + |space| < |input| && AllAsciiWhitespace(space) && OccursAt(space, input, pos)
    requires input[pos + |space|] == '<' && forall i :: pos + |space| < i ==> !OccursAt(">", input, i)
    ensures TagAt(input, pos) == Failure(UnterminatedTag)
  {
    hide OccursAt, FindFrom;
    SkipsTo(input, pos, space);
    FindFromIsFirst(input, ">", pos + |space| + 1);
  }

  /** Brackets with nothing in them but white space and slashes have no name. */
  lemma NamelessTagFails(input: string, pos: nat, space: string, left: string, slashes: nat, right: string)
    requires pos <= |input| && AllAsciiWhitespace(space) && AllWhitespace(left) && AllWhitespace(right)
    requires var content := left + Slashes(slashes) + right;
      content != "" && Find(content, ">").None? && OccursAt(space + Bracketed(content), input, pos)
    ensures TagAt(input, pos) == Failure(EmptyTagName)
  {
    hide OccursAt, SkipWs, TrimStart, TrimEnd, FindFrom, Find;
    var content := left + Slashes(slashes) + right;
    SlashesOnly(slashes);
    TrimPadded(left, Slashes(slashes), right);
    OnlySlashesTrimmed(slashes);
    TrimTrimmed("");
    ReadsBrackets(input, pos, space, content);
  }

  lemma {:induction false} SlashesOnly(n: nat)
    ensures |Slashes(n)| == n && forall i :: 0 <= i < n ==> Slashes(n)[i] == '/'
  {
    if n > 0 {
      SlashesOnly(n - 1);
    }
  }

  lemma {:induction false} OnlySlashesTrimmed(n: nat)
    ensures TrimSlashes(Slashes(n)) == ""
  {
    if n > 0 {
      var all := Slashes(n);
      assert all[..|all| - 1] == Slashes(n - 1);
      OnlySlashesTrimmed(n - 1);
    }
  }

  lemma {:induction false} SkipsTo(input: string, pos: nat, space: string)
    requires pos + |space| <= |input| && AllAsciiWhitespace(space) && OccursAt(space, input, pos)
    requires pos + |space| < |input| ==> input[pos + |space|] !in " \t\n\U{0C}\r"
    ensures SkipWs(input, pos) == pos + |space|
    decreases |space|
  {
    if space != [] {
      assert input[pos] == input[pos..pos + |space|][0] == space[0];
      assert input[pos + 1..pos + |space|] == input[pos..pos + |space|][1..];
      SkipsTo(input, pos + 1, space[1..]);
    }
  }

  lemma LastIsSlash(inner: string, n: nat)
    requires inner != "" && inner[|inner| - 1] != '/'
    ensures var all := inner + Slashes(n); all[|all| - 1] == '/' <==> n > 0
  {
  }

  lemma FirstWord(name: string, attributes: string)
    requires name != "" && NoWhitespace(name) && (attributes == "" || IsWhitespace(attributes[0]))
    ensures Word(Trim(name + attributes)) == name
  {
    var s := name + attributes;
    assert !IsWhitespace(s[0]) && TrimStart(s) == s;
    var k := TrimEndIs(s);
    assert s[|name| - 1] == name[|name| - 1];
    assert s[..k] == name + attributes[..k - |name|];
    WordThen(name, attributes[..k - |name|]);
  }

  // ---------- Elements ----------

  ghost predicate ElementAt(input: string, pos: nat, before: string, name: string, text: string) {
    && pos <= |input| && AllAsciiWhitespace(before) && Find(text, CloseTag(name)).None?
    && OccursAt(before + (("<" + name + ">") + (text + ("</" + name + ">"))), input, pos)
  }

  /** Where the element ends. */
  function EndOf(pos: nat, before: string, name: string, text: string): nat {
    pos + |before| + |text| + 2 * |name| + 5
  }

  lemma ReadsScalar(input: string, pos: nat, before: string, name: string, text: string, reals: RealReader)
    requires IsScalar(name) && ElementAt(input, pos, before, name, text)
    ensures NodeAt(input, pos, reals) ==
      match Scalar(name, text, reals)
      case Failure(e) => Failure(e)
      case Success(node) => Success(Read(node, EndOf(pos, before, name, text)))
  {
    hide OccursAt, TagAt, ContentAt, Find, Scalar;
    var source := ScalarSource(before, name, text);
    assert Printed(source) == before + (("<" + name + ">") + (text + ("</" + name + ">")));
    var start, next := ReadsOpening(input, pos, source, reals);
    OccursInside(text + CloseTag(name), input, next);
    NodeUnfolds(input, pos, reals, Tag(name, false, next));
    ReadsContent(input, next, name, text);
  }

  /** A string is all of its text. */
  lemma StringReads(input: string, pos: nat, before: string, text: string, reals: RealReader)
    requires ElementAt(input, pos, before, "string", text)
    ensures NodeAt(input, pos, reals) == Success(Read(String(text), EndOf(pos, before, "string", text)))
  {
    ReadsScalar(input, pos, before, "string", text, reals);
  }

  /** Data is its text without any white space, however it is wrapped. */
  lemma DataReads(
    input: string, pos: nat, before: string, gaps: seq<string>, pieces: seq<string>, reals: RealReader)
    requires |gaps| == |pieces| + 1 && forall i :: 0 <= i < |gaps| ==> AllWhitespace(gaps[i])
    requires forall i :: 0 <= i < |pieces| ==> NoWhitespace(pieces[i])
    requires ElementAt(input, pos, before, "data", Woven(gaps, pieces))
    ensures NodeAt(input, pos, reals) ==
      Success(Read(Data(Concat(pieces)), EndOf(pos, before, "data", Woven(gaps, pieces))))
  {
    var text := Woven(gaps, pieces);
    ReadsScalar(input, pos, before, "data", text, reals);
    StripTrimStart(text);
    StripTrimEnd(TrimStart(text));
    StripWoven(gaps, pieces);
  }

  /** A date is its text without the white space around it. */
  lemma DateReads(
    input: string, pos: nat, before: string, left: string, date: string, right: string, reals: RealReader)
    requires AllWhitespace(left) && AllWhitespace(right) && Trimmed(date)
    requires ElementAt(input, pos, before, "date", left + date + right)
    ensures NodeAt(input, pos, reals) ==
      Success(Read(Date(date), EndOf(pos, before, "date", left + date + right)))
  {
    ReadsScalar(input, pos, before, "date", left + date + right, reals);
    TrimPadded(left, date, right);
  }

  /** An integer is read from exactly the numerals that fit, whatever the white space around them. */
  lemma IntegerReadsIff(
    input: string, pos: nat, before: string, left: string, numeral: string, right: string, reals: RealReader, n: int)
    requires AllWhitespace(left) && AllWhitespace(right) && Trimmed(numeral)
    requires ElementAt(input, pos, before, "integer", left + numeral + right)
    ensures
      NodeAt(input, pos, reals) == Success(Read(Integer(n), EndOf(pos, before, "integer", left + numeral + right))) <==>
      && I64_MIN <= n <= I64_MAX
      && ((n >= 0 && (Spells(numeral, "", n) || Spells(numeral, "+", n))) || (n <= 0 && Spells(numeral, "-", -n)))
  {
    hide ParseI64, NodeAt, Trim, ElementAt;
    ReadsScalar(input, pos, before, "integer", left + numeral + right, reals);
    TrimPadded(left, numeral, right);
    I64Iff(numeral, n);
  }

  /** A real is what the reader of reals makes of its text without the white space around it. */
  lemma RealReads(
    input: string, pos: nat, before: string, left: string, text: string, right: string, reals: RealReader)
    requires AllWhitespace(left) && AllWhitespace(right) && Trimmed(text)
    requires ElementAt(input, pos, before, "real", left + text + right)
    ensures NodeAt(input, pos, reals) ==
      match reals(text)
      case None => Failure(InvalidReal)
      case Some(x) => Success(Read(Real(x), EndOf(pos, before, "real", left + text + right)))
  {
    ReadsScalar(input, pos, before, "real", left + text + right, reals);
    TrimPadded(left, text, right);
  }

  /** What is no element is refused: other names, truth values that do not close themselves, and texts that
      are never closed. */
  lemma Rejects(input: string, pos: nat, tag: Tag, reals: RealReader)
    requires pos <= |input| && TagAt(input, pos) == Success(tag)
    ensures !IsScalar(tag.name) && tag.name !in ["dict", "array", "true", "false"] ==>
      NodeAt(input, pos, reals) == Failure(UnsupportedTag(tag.name))
    ensures tag.name in ["true", "false"] && !tag.selfClosing ==> NodeAt(input, pos, reals) == Failure(NotSelfClosing)
    ensures IsScalar(tag.name) && (forall i :: tag.next <= i ==> !OccursAt(CloseTag(tag.name), input, i)) ==>
      NodeAt(input, pos, reals) == Failure(MissingClose(tag.name))
  {
    hide OccursAt, TagAt, FindFrom;
    FindFromIsFirst(input, CloseTag(tag.name), tag.next);
  }

  /** A dictionary's entries begin with a key, and an array or a dictionary that holds what is refused is
      refused for the same reason. */
  lemma ContainersReject(input: string, pos: nat, reals: RealReader, items: seq<PlistNode>, entries: seq<KeyValue>)
    requires pos <= |input|
    ensures var start := SkipWs(input, pos);
      && (!OccursAt("</array>", input, start) && NodeAt(input, start, reals).Failure? ==>
        ArrayAt(input, pos, reals, items) == Failure(NodeAt(input, start, reals).error))
      && (!OccursAt("</dict>", input, start) && TagAt(input, start).Success? ==>
        var name := TagAt(input, start).value.name;
        name != "key" ==> DictAt(input, pos, reals, entries) == Failure(ExpectedKey(name)))
      && (!OccursAt("</dict>", input, start) && TagAt(input, start).Failure? ==>
        DictAt(input, pos, reals, entries) == Failure(TagAt(input, start).error))
  {
    hide OccursAt, TagAt, NodeAt, SkipWs;
  }
}
