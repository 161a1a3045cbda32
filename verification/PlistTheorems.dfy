/** Reading back a printed property list, with any white space between its tokens. */
module PlistTheorems {
  import opened Wrappers
  import opened Text
  import opened Decimal
  import opened Plist

  /** A printed property list: a tree with the white space before each token, and the padding inside
      the elements whose text the reader trims. */
  datatype Source =
    | ScalarSource(before: string, name: string, text: string)
    | BoolSource(before: string, flag: bool)
    | ArraySource(before: string, items: seq<Source>, close: string)
    | DictSource(before: string, entries: seq<EntrySource>, close: string)

  datatype EntrySource = EntrySource(before: string, left: string, key: string, right: string, value: Source)

  function OpenTag(name: string): string {
    "<" + name + ">"
  }

  function Element(name: string, text: string): string {
    OpenTag(name) + (text + CloseTag(name))
  }

  function KeyText(entry: EntrySource): string {
    entry.left + entry.key + entry.right
  }

  function Printed(source: Source): string
    decreases source
  {
    match source
    case ScalarSource(before, name, text) => before + Element(name, text)
    case BoolSource(before, flag) => before + if flag then "<true/>" else "<false/>"
    case ArraySource(before, items, close) => before + (OpenTag("array") + PrintedItems(source, items, close))
    case DictSource(before, entries, close) => before + (OpenTag("dict") + PrintedEntries(source, entries, close))
  }

  /** The items of an array, and its closing tag. */
  function PrintedItems(source: Source, items: seq<Source>, close: string): string
    requires forall i :: 0 <= i < |items| ==> items[i] < source
    decreases source, |items|
  {
    if items == [] then close + "</array>" else Printed(items[0]) + PrintedItems(source, items[1..], close)
  }

  function PrintedEntries(source: Source, entries: seq<EntrySource>, close: string): string
    requires forall i :: 0 <= i < |entries| ==> entries[i].value < source
    decreases source, |entries|
  {
    if entries == [] then close + "</dict>"
    else
      entries[0].before + (Element("key", KeyText(entries[0]))
      + (Printed(entries[0].value) + PrintedEntries(source, entries[1..], close)))
  }

  predicate AllAsciiWhitespace(s: string) {
    forall i :: 0 <= i < |s| ==> s[i] in " \t\n\U{0C}\r"
  }

  /** White space is white space, texts are free of their own closing tag, keys are trimmed up to their
      padding, and scalars mean something. */
  ghost predicate Printable(source: Source, reals: RealReader)
    decreases source
  {
    AllAsciiWhitespace(source.before) && match source
      case ScalarSource(_, name, text) =>
        IsScalar(name) && Find(text, CloseTag(name)).None? && Scalar(name, text, reals).Success?
      case BoolSource(_, _) => true
      case ArraySource(_, items, close) =>
        AllAsciiWhitespace(close) && forall i :: 0 <= i < |items| ==> Printable(items[i], reals)
      case DictSource(_, entries, close) =>
        && AllAsciiWhitespace(close)
        && forall i :: 0 <= i < |entries| ==> PrintableKey(entries[i]) && Printable(entries[i].value, reals)
  }

  predicate PrintableKey(entry: EntrySource) {
    && AllAsciiWhitespace(entry.before) && AllWhitespace(entry.left) && AllWhitespace(entry.right)
    && Trimmed(entry.key) && Find(KeyText(entry), CloseTag("key")).None?
  }

  /** The tree a printed list stands for. */
  ghost function Tree(source: Source, reals: RealReader): PlistNode
    requires Printable(source, reals)
    decreases source
  {
    match source
    case ScalarSource(_, name, text) => Scalar(name, text, reals).value
    case BoolSource(_, flag) => Bool(flag)
    case ArraySource(_, items, _) => Array(TreeItems(source, items, reals))
    case DictSource(_, entries, _) => Dict(TreeEntries(source, entries, reals))
  }

  ghost function TreeItems(source: Source, items: seq<Source>, reals: RealReader): seq<PlistNode>
    requires forall i :: 0 <= i < |items| ==> items[i] < source && Printable(items[i], reals)
    decreases source, |items|
  {
    if items == [] then [] else [Tree(items[0], reals)] + TreeItems(source, items[1..], reals)
  }

  ghost function TreeEntries(source: Source, entries: seq<EntrySource>, reals: RealReader): seq<KeyValue>
    requires forall i :: 0 <= i < |entries| ==> entries[i].value < source && Printable(entries[i].value, reals)
    decreases source, |entries|
  {
    if entries == [] then []
    else [KeyValue(entries[0].key, Tree(entries[0].value, reals))] + TreeEntries(source, entries[1..], reals)
  }

  // ---------- Tokens ----------

  lemma {:induction false} SkipsSpace(input: string, pos: nat, space: string, c: char)
    requires pos <= |input| && AllAsciiWhitespace(space) && !IsAsciiWhitespace(c)
    requires OccursAt(space, input, pos) && OccursAt([c], input, pos + |space|)
    ensures SkipWs(input, pos) == pos + |space|
    decreases |space|
  {
    if space == [] {
      assert input[pos] == input[pos..pos + 1][0] == c;
    } else {
      assert input[pos] == input[pos..pos + |space|][0] == space[0];
      assert input[pos + 1..pos + |space|] == input[pos..pos + |space|][1..];
      SkipsSpace(input, pos + 1, space[1..], c);
    }
  }

  predicate IsTagName(name: string) {
    name != "" && forall i :: 0 <= i < |name| ==> 'a' <= name[i] <= 'z'
  }

  lemma {:induction false} WordIsAll(s: string)
    requires forall i :: 0 <= i < |s| ==> !IsWhitespace(s[i])
    ensures Word(s) == s
  {
    if s != [] {
      WordIsAll(s[1..]);
      assert s == [s[0]] + s[1..];
    }
  }

  lemma TrimsSlash(name: string, slash: string)
    requires IsTagName(name) && (slash == "" || slash == "/")
    ensures TrimSlashes(name + slash) == name
  {
    assert TrimSlashes(name) == name;
    assert slash == "" ==> name + slash == name;
    assert slash == "/" ==> (name + slash)[..|name + slash| - 1] == name;
  }

  /** The name inside the brackets of a tag. */
  lemma NameInTag(name: string, slash: string)
    requires IsTagName(name) && (slash == "" || slash == "/")
    ensures Trim(name + slash) == name + slash && Find(name + slash, ">").None?
    ensures Word(Trim(TrimSlashes(name + slash))) == name
    ensures (name + slash)[|name + slash| - 1] == '/' <==> slash == "/"
  {
    NoBracket(name + slash);
    TrimTrimmed(name + slash);
    TrimsSlash(name, slash);
    TrimTrimmed(name);
    WordIsAll(name);
  }

  lemma FirstAt(text: string, input: string, pos: nat)
    requires text != [] && OccursAt(text, input, pos)
    ensures pos < |input| && input[pos] == text[0]
  {
    assert input[pos] == input[pos..pos + |text|][0];
  }

  function Bracketed(content: string): string {
    "<" + (content + ">")
  }

  lemma ReadsBrackets(input: string, pos: nat, space: string, content: string)
    requires pos <= |input| && AllAsciiWhitespace(space) && content != "" && Find(content, ">").None?
    requires OccursAt(space + Bracketed(content), input, pos)
    ensures var start := pos + |space|;
      && start + 2 + |content| <= |input|
      && SkipWs(input, pos) == start && SkipWs(input, start) == start
      && input[start] == '<' && input[start + 1] == content[0]
      && FindFrom(input, ">", start + 1) == Some(start + 1 + |content|)
      && input[start + 1..start + 1 + |content|] == content
  {
    hide SkipWs, FindFrom, Find;
    var start := pos + |space|;
    OccursConcat(space, Bracketed(content), input, pos);
    OccursConcat("<", content + ">", input, start);
    OccursConcat(content, ">", input, start + 1);
    SkipsSpace(input, pos, space, '<');
    assert OccursAt([], input, start);
    SkipsSpace(input, start, [], '<');
    FirstAt("<", input, start);
    FirstAt(content, input, start + 1);
    FindFromDelimiter(input, start + 1, content, ">");
  }

  /** An opening tag is read as its name; with a slash before the bracket it closes itself. */
  lemma ReadsTag(input: string, pos: nat, space: string, name: string, slash: string)
    requires pos <= |input| && AllAsciiWhitespace(space) && IsTagName(name) && (slash == "" || slash == "/")
    requires OccursAt(space + Bracketed(name + slash), input, pos)
    ensures var start := pos + |space|;
      && SkipWs(input, pos) == start
      && TagAt(input, pos) == Success(Tag(name, slash == "/", start + |name| + |slash| + 2))
      && start <= |input| && TagAt(input, start) == TagAt(input, pos)
      && start + 1 < |input| && input[start + 1] == name[0]
  {
    hide OccursAt, SkipWs, TrimSlashes, Trim, Word, FindFrom, Find;
    NameInTag(name, slash);
    ReadsBrackets(input, pos, space, name + slash);
  }

  lemma NotClosing(input: string, start: nat, close: string)
    requires start + 1 < |input| && input[start + 1] != '/'
    requires |close| >= 2 && close[1] == '/'
    ensures !OccursAt(close, input, start)
  {
    assert start + |close| <= |input| ==> input[start..start + |close|][1] == input[start + 1];
  }

  lemma NoBracket(content: string)
    requires forall i :: 0 <= i < |content| ==> content[i] != '>'
    ensures Find(content, ">").None?
  {
    forall i | 0 <= i
      ensures !OccursAt(">", content, i)
    {
      assert i + 1 <= |content| ==> content[i..i + 1][0] == content[i];
    }
    FindIsFirst(content, ">", None);
  }

  /** An element's text is what stands before its closing tag. */
  lemma ReadsContent(input: string, pos: nat, name: string, text: string)
    requires IsTagName(name) && Find(text, CloseTag(name)).None?
    requires OccursAt(text + CloseTag(name), input, pos)
    ensures pos <= |input|
    ensures ContentAt(input, pos, name) == Success(Content(text, pos + |text| + |CloseTag(name)|))
  {
    OccursConcat(text, CloseTag(name), input, pos);
    var close := CloseTag(name);
    assert close == ['<', '/'] + name + ['>'];
    FindFromDelimiter(input, pos, text, close);
  }

  // ---------- Trees ----------

  function NameOf(source: Source): string {
    match source
    case ScalarSource(_, name, _) => name
    case BoolSource(_, flag) => if flag then "true" else "false"
    case ArraySource(_, _, _) => "array"
    case DictSource(_, _, _) => "dict"
  }

  function SlashOf(source: Source): string {
    if source.BoolSource? then "/" else ""
  }

  /** What a printed tree has after its opening tag. */
  function AfterTag(source: Source): string {
    match source
    case ScalarSource(_, name, text) => text + CloseTag(name)
    case BoolSource(_, _) => ""
    case ArraySource(_, items, close) => PrintedItems(source, items, close)
    case DictSource(_, entries, close) => PrintedEntries(source, entries, close)
  }

  lemma PrintedParts(source: Source)
    ensures Printed(source) == source.before + Bracketed(NameOf(source) + SlashOf(source)) + AfterTag(source)
  {
    var name := NameOf(source);
    match source
    case BoolSource(_, flag) =>
      assert Bracketed(name + "/") == if flag then "<true/>" else "<false/>";
    case _ =>
      assert name + "" == name;
      assert Bracketed(name) == OpenTag(name);
      ConcatAssociative(source.before, Bracketed(name), AfterTag(source));
  }

  /** What reading an opening tag takes. */
  ghost predicate Opens(source: Source) {
    AllAsciiWhitespace(source.before) && IsTagName(NameOf(source))
  }

  lemma PrintableOpens(source: Source, reals: RealReader)
    requires Printable(source, reals)
    ensures Opens(source)
  {
    hide Scalar, Find;
  }

  lemma OpeningParts(source: Source)
    requires Opens(source)
    ensures SlashOf(source) == if source.BoolSource? then "/" else ""
    ensures NameOf(source)[0] != '/'
    ensures |Bracketed(NameOf(source) + SlashOf(source))| == |NameOf(source)| + |SlashOf(source)| + 2
  {
  }

  // Unfoldings of the reader, one branch each.

  lemma SameTagSameNode(input: string, p: nat, q: nat, reals: RealReader)
    requires p <= |input| && q <= |input| && TagAt(input, p) == TagAt(input, q)
    ensures NodeAt(input, p, reals) == NodeAt(input, q, reals)
  {
    hide TagAt;
  }

  lemma NodeUnfolds(input: string, pos: nat, reals: RealReader, tag: Tag)
    requires pos <= |input| && TagAt(input, pos) == Success(tag)
    ensures tag.name == "array" ==> NodeAt(input, pos, reals) == ArrayAt(input, tag.next, reals, [])
    ensures tag.name == "dict" ==> NodeAt(input, pos, reals) == DictAt(input, tag.next, reals, [])
    ensures (tag.name == "true" || tag.name == "false") && tag.selfClosing ==>
      NodeAt(input, pos, reals) == Success(Read(Bool(tag.name == "true"), tag.next))
  {
    hide TagAt, ArrayAt, DictAt, ContentAt;
  }

  lemma ScalarUnfolds(input: string, pos: nat, reals: RealReader, tag: Tag, content: Content)
    requires pos <= |input| && TagAt(input, pos) == Success(tag) && IsScalar(tag.name)
    requires ContentAt(input, tag.next, tag.name) == Success(content) && Scalar(tag.name, content.text, reals).Success?
    ensures NodeAt(input, pos, reals) == Success(Read(Scalar(tag.name, content.text, reals).value, content.next))
  {
    hide TagAt, ContentAt;
  }

  lemma ArrayUnfolds(
    input: string, pos: nat, start: nat, reals: RealReader, done: seq<PlistNode>, node: Read<PlistNode>)
    requires pos <= |input| && start == SkipWs(input, pos) && !OccursAt("</array>", input, start)
    requires NodeAt(input, start, reals) == Success(node)
    ensures ArrayAt(input, pos, reals, done) == ArrayAt(input, node.next, reals, done + [node.value])
  {
    hide TagAt, NodeAt;
  }

  lemma DictUnfolds(
    input: string, pos: nat, start: nat, reals: RealReader, done: seq<KeyValue>, tag: Tag, key: Content,
    node: Read<PlistNode>)
    requires pos <= |input| && start == SkipWs(input, pos) && !OccursAt("</dict>", input, start)
    requires TagAt(input, start) == Success(tag) && tag.name == "key"
    requires ContentAt(input, tag.next, "key") == Success(key)
    requires NodeAt(input, key.next, reals) == Success(node)
    ensures DictAt(input, pos, reals, done)
      == DictAt(input, node.next, reals, done + [KeyValue(Trim(key.text), node.value)])
  {
    hide TagAt, NodeAt, ContentAt;
  }

  /** The reader sees the opening tag of a printed tree, after the white space before it. */
  lemma ReadsOpening(input: string, pos: nat, source: Source, reals: RealReader) returns (start: nat, next: nat)
    requires pos <= |input| && Opens(source) && OccursAt(Printed(source), input, pos)
    ensures SkipWs(input, pos) == start <= |input|
    ensures NodeAt(input, start, reals) == NodeAt(input, pos, reals)
    ensures !OccursAt("</array>", input, start)
    ensures TagAt(input, pos) == Success(Tag(NameOf(source), source.BoolSource?, next))
    ensures OccursAt(AfterTag(source), input, next)
    ensures next + |AfterTag(source)| == pos + |Printed(source)|
  {
    hide TagAt, NodeAt, OccursAt, Printed, SkipWs, AfterTag, Bracketed, NameOf, SlashOf;
    start := pos + |source.before|;
    next := start + |NameOf(source)| + |SlashOf(source)| + 2;
    var opening := source.before + Bracketed(NameOf(source) + SlashOf(source));
    PrintedParts(source);
    OpeningParts(source);
    OccursConcat(opening, AfterTag(source), input, pos);
    ReadsTag(input, pos, source.before, NameOf(source), SlashOf(source));
    SameTagSameNode(input, start, pos, reals);
    NotClosing(input, start, "</array>");
  }

  lemma {:induction false} ReadsNode(input: string, pos: nat, source: Source, reals: RealReader)
    requires pos <= |input| && Printable(source, reals) && OccursAt(Printed(source), input, pos)
    ensures NodeAt(input, pos, reals) == Success(Read(Tree(source, reals), pos + |Printed(source)|))
    decreases source
  {
    hide TagAt, NodeAt, OccursAt, ArrayAt, DictAt, ContentAt, Printed, Scalar, Find, PrintedItems, PrintedEntries,
      TreeItems, TreeEntries, IsTagName;
    PrintableOpens(source, reals);
    var start, next := ReadsOpening(input, pos, source, reals);
    var tag := Tag(NameOf(source), source.BoolSource?, next);
    NodeUnfolds(input, pos, reals, tag);
    match source
    case ScalarSource(_, name, text) =>
      ReadsContent(input, next, name, text);
      ScalarUnfolds(input, pos, reals, tag, Content(text, next + |text| + |CloseTag(name)|));
    case BoolSource(_, _) =>
    case ArraySource(_, items, close) =>
      ReadsItems(input, next, source, items, close, reals, []);
      assert [] + TreeItems(source, items, reals) == TreeItems(source, items, reals);
    case DictSource(_, entries, close) =>
      ReadsEntries(input, next, source, entries, close, reals, []);
      assert [] + TreeEntries(source, entries, reals) == TreeEntries(source, entries, reals);
  }

  lemma ReadsClose(input: string, pos: nat, space: string, close: string)
    requires pos <= |input| && AllAsciiWhitespace(space) && close != "" && close[0] == '<'
    requires OccursAt(space + close, input, pos)
    ensures SkipWs(input, pos) == pos + |space| && OccursAt(close, input, pos + |space|)
  {
    OccursConcat(space, close, input, pos);
    FirstAt(close, input, pos + |space|);
    assert input[pos + |space|..pos + |space| + 1] == ['<'];
    SkipsSpace(input, pos, space, '<');
  }

  lemma {:induction false} ReadsItems(
    input: string, pos: nat, source: Source, items: seq<Source>, close: string, reals: RealReader, done: seq<PlistNode>)
    requires forall i :: 0 <= i < |items| ==> items[i] < source && Printable(items[i], reals)
    requires pos <= |input| && AllAsciiWhitespace(close)
    requires OccursAt(PrintedItems(source, items, close), input, pos)
    ensures ArrayAt(input, pos, reals, done) ==
      Success(Read(Array(done + TreeItems(source, items, reals)), pos + |PrintedItems(source, items, close)|))
    decreases source, |items|, 1
  {
    if items == [] {
      ReadsClose(input, pos, close, "</array>");
      assert done + [] == done;
    } else {
      ReadsFirstItem(input, pos, source, items, close, reals, done);
    }
  }

  lemma {:induction false} ReadsFirstItem(
    input: string, pos: nat, source: Source, items: seq<Source>, close: string, reals: RealReader, done: seq<PlistNode>)
    requires items != [] && forall i :: 0 <= i < |items| ==> items[i] < source && Printable(items[i], reals)
    requires pos <= |input| && AllAsciiWhitespace(close)
    requires OccursAt(PrintedItems(source, items, close), input, pos)
    ensures ArrayAt(input, pos, reals, done) ==
      Success(Read(Array(done + TreeItems(source, items, reals)), pos + |PrintedItems(source, items, close)|))
    decreases source, |items|, 0
  {
    hide TagAt, NodeAt, OccursAt, ArrayAt, DictAt, SkipWs;
    var first, rest := Printed(items[0]), PrintedItems(source, items[1..], close);
    OccursConcat(first, rest, input, pos);
    PrintableOpens(items[0], reals);
    var start, _ := ReadsOpening(input, pos, items[0], reals);
    ReadsNode(input, pos, items[0], reals);
    var node := Tree(items[0], reals);
    ArrayUnfolds(input, pos, start, reals, done, Read(node, pos + |first|));
    ReadsItems(input, pos + |first|, source, items[1..], close, reals, done + [node]);
    ConcatAssociative(done, [node], TreeItems(source, items[1..], reals));
  }

  /** The reader sees the opening tag of an entry's key, and what stands after it. */
  lemma ReadsKeyTag(input: string, pos: nat, entry: EntrySource)
    requires pos <= |input| && AllAsciiWhitespace(entry.before)
    requires OccursAt(entry.before + Element("key", KeyText(entry)), input, pos)
    ensures var start := pos + |entry.before|;
      && SkipWs(input, pos) == start && !OccursAt("</dict>", input, start)
      && TagAt(input, start) == Success(Tag("key", false, start + 5))
      && start + 5 <= |input| && OccursAt(KeyText(entry) + CloseTag("key"), input, start + 5)
  {
    hide TagAt, OccursAt, SkipWs, Trim;
    var rest := KeyText(entry) + CloseTag("key");
    var opening := entry.before + Bracketed("key" + "");
    assert "key" + "" == "key" && Bracketed("key") == OpenTag("key");
    ConcatAssociative(entry.before, OpenTag("key"), rest);
    OccursConcat(opening, rest, input, pos);
    ReadsTag(input, pos, entry.before, "key", "");
    NotClosing(input, pos + |entry.before|, "</dict>");
    OccursInside(rest, input, pos + |entry.before| + 5);
  }

  lemma OccursInside(s: string, input: string, pos: nat)
    requires OccursAt(s, input, pos)
    ensures pos <= |input|
  {
  }

  /** The key of an entry is read as it was before it was padded. */
  lemma ReadsKey(input: string, pos: nat, entry: EntrySource)
    requires pos <= |input| && PrintableKey(entry)
    requires OccursAt(entry.before + Element("key", KeyText(entry)), input, pos)
    ensures var start := pos + |entry.before|;
      && SkipWs(input, pos) == start && !OccursAt("</dict>", input, start)
      && TagAt(input, start) == Success(Tag("key", false, start + 5))
      && start + 5 <= |input|
      && ContentAt(input, start + 5, "key")
        == Success(Content(KeyText(entry), start + |Element("key", KeyText(entry))|))
  {
    hide TagAt, ContentAt, OccursAt, SkipWs, Trim;
    ReadsKeyTag(input, pos, entry);
    ReadsContent(input, pos + |entry.before| + 5, "key", KeyText(entry));
  }

  lemma {:induction false} ReadsEntries(
    input: string, pos: nat, source: Source, entries: seq<EntrySource>, close: string, reals: RealReader,
    done: seq<KeyValue>)
    requires forall i :: 0 <= i < |entries| ==>
      entries[i].value < source && PrintableKey(entries[i]) && Printable(entries[i].value, reals)
    requires pos <= |input| && AllAsciiWhitespace(close)
    requires OccursAt(PrintedEntries(source, entries, close), input, pos)
    ensures DictAt(input, pos, reals, done) ==
      Success(Read(Dict(done + TreeEntries(source, entries, reals)), pos + |PrintedEntries(source, entries, close)|))
    decreases source, |entries|, 1
  {
    if entries == [] {
      ReadsClose(input, pos, close, "</dict>");
      assert done + [] == done;
    } else {
      ReadsFirstEntry(input, pos, source, entries, close, reals, done);
    }
  }

  lemma {:induction false} ReadsFirstEntry(
    input: string, pos: nat, source: Source, entries: seq<EntrySource>, close: string, reals: RealReader,
    done: seq<KeyValue>)
    requires entries != [] && forall i :: 0 <= i < |entries| ==>
      entries[i].value < source && PrintableKey(entries[i]) && Printable(entries[i].value, reals)
    requires pos <= |input| && AllAsciiWhitespace(close)
    requires OccursAt(PrintedEntries(source, entries, close), input, pos)
    ensures DictAt(input, pos, reals, done) ==
      Success(Read(Dict(done + TreeEntries(source, entries, reals)), pos + |PrintedEntries(source, entries, close)|))
    decreases source, |entries|, 0
  {
    hide TagAt, NodeAt, OccursAt, ArrayAt, DictAt, ContentAt, SkipWs;
    var entry := entries[0];
    var key, value := entry.before + Element("key", KeyText(entry)), Printed(entry.value);
    var rest := PrintedEntries(source, entries[1..], close);
    ConcatAssociative(entry.before, Element("key", KeyText(entry)), value + rest);
    OccursConcat(key, value + rest, input, pos);
    OccursConcat(value, rest, input, pos + |key|);
    ReadsKey(input, pos, entry);
    TrimPadded(entry.left, entry.key, entry.right);
    ReadsNode(input, pos + |key|, entry.value, reals);
    var start, node := pos + |entry.before|, Tree(entry.value, reals);
    DictUnfolds(input, pos, start, reals, done, Tag("key", false, start + 5), Content(KeyText(entry), pos + |key|),
                Read(node, pos + |key| + |value|));
    var read := KeyValue(entry.key, node);
    ReadsEntries(input, pos + |key| + |value|, source, entries[1..], close, reals, done + [read]);
    ConcatAssociative(done, [read], TreeEntries(source, entries[1..], reals));
  }

  /** Reading a printed list followed by anything yields its tree and leaves the cursor at what follows. */
  lemma PlistRoundTrip(source: Source, suffix: string, reals: RealReader)
    requires Printable(source, reals)
    ensures NodeAt(Printed(source) + suffix, 0, reals)
      == Success(Read(Tree(source, reals), |Printed(source)|))
  {
    hide TagAt, NodeAt, Printed, Tree;
    assert (Printed(source) + suffix)[0..|Printed(source)|] == Printed(source);
    ReadsNode(Printed(source) + suffix, 0, source, reals);
  }

  // ---------- Printing a tree ----------

  /** A tree the reader can give back: integers fit, no text holds its own closing tag, and keys, data
      and dates are free of the white space the reader drops. */
  ghost predicate Readable(node: PlistNode) {
    match node
    case Dict(entries) =>
      forall i :: 0 <= i < |entries| ==>
        && Trimmed(entries[i].key) && Find(entries[i].key, CloseTag("key")).None? && Readable(entries[i].value)
    case Array(items) => forall i :: 0 <= i < |items| ==> Readable(items[i])
    case String(text) => Find(text, CloseTag("string")).None?
    case Integer(n) => I64_MIN <= n <= I64_MAX
    case Real(_) => false
    case Bool(_) => true
    case Data(text) => Find(text, CloseTag("data")).None? && forall i :: 0 <= i < |text| ==> !IsWhitespace(text[i])
    case Date(text) => Find(text, CloseTag("date")).None? && Trimmed(text)
  }

  /** The tree printed without any white space. A number that is not an integer has no printed form here. */
  function Plain(node: PlistNode): Source
    decreases node
  {
    match node
    case Dict(entries) => DictSource("", PlainEntries(node, entries), "")
    case Array(items) => ArraySource("", PlainItems(node, items), "")
    case String(text) => ScalarSource("", "string", text)
    case Integer(n) => ScalarSource("", "integer", PrintInt(n))
    case Real(_) => ScalarSource("", "real", "")
    case Bool(flag) => BoolSource("", flag)
    case Data(text) => ScalarSource("", "data", text)
    case Date(text) => ScalarSource("", "date", text)
  }

  function PlainItems(node: PlistNode, items: seq<PlistNode>): seq<Source>
    requires forall i :: 0 <= i < |items| ==> items[i] < node
    decreases node, |items|
  {
    if items == [] then [] else [Plain(items[0])] + PlainItems(node, items[1..])
  }

  function PlainEntries(node: PlistNode, entries: seq<KeyValue>): seq<EntrySource>
    requires forall i :: 0 <= i < |entries| ==> entries[i].value < node
    decreases node, |entries|
  {
    if entries == [] then []
    else [EntrySource("", "", entries[0].key, "", Plain(entries[0].value))] + PlainEntries(node, entries[1..])
  }

  lemma {:induction false} PlainTree(node: PlistNode, reals: RealReader)
    requires Readable(node)
    ensures Printable(Plain(node), reals) && Tree(Plain(node), reals) == node
    decreases node
  {
    match node
    case Dict(entries) =>
      PlainTreeEntries(node, entries, Plain(node), reals);
    case Array(items) =>
      PlainTreeItems(node, items, Plain(node), reals);
    case Integer(n) =>
      IntegerText(n);
    case Data(text) =>
      TrimTrimmed(text);
      NothingToStrip(text);
    case Date(text) =>
      TrimTrimmed(text);
    case _ =>
  }

  lemma IntegerText(n: int)
    requires I64_MIN <= n <= I64_MAX
    ensures Find(PrintInt(n), CloseTag("integer")).None? && ParseI64(Trim(PrintInt(n))) == Some(n)
  {
    hide Print, Value, Find, Trim, ParseI64;
    var s := PrintInt(n);
    assert forall i :: 0 <= i < |s| ==> s[i] == '-' || IsDigit(s[i]) by {
      if n < 0 {
        assert forall i :: 1 <= i < |s| ==> s[i] == Print(-n)[i - 1];
      }
    }
    TrimTrimmed(s);
    I64RoundTrip(n);
    forall i | 0 <= i
      ensures !OccursAt(CloseTag("integer"), s, i)
    {
      assert CloseTag("integer")[0] == '<';
      assert i + 10 <= |s| ==> s[i..i + 10][0] == s[i];
    }
    FindIsFirst(s, CloseTag("integer"), None);
  }

  lemma {:induction false} NothingToStrip(s: string)
    requires forall i :: 0 <= i < |s| ==> !IsWhitespace(s[i])
    ensures StripWhitespace(s) == s
  {
    if s != [] {
      NothingToStrip(s[1..]);
      assert s == [s[0]] + s[1..];
    }
  }

  lemma {:induction false} PlainTreeItems(node: PlistNode, items: seq<PlistNode>, source: Source, reals: RealReader)
    requires forall i :: 0 <= i < |items| ==> items[i] < node && Readable(items[i])
    requires forall i :: 0 <= i < |PlainItems(node, items)| ==> PlainItems(node, items)[i] < source
    ensures forall i :: 0 <= i < |PlainItems(node, items)| ==> Printable(PlainItems(node, items)[i], reals)
    ensures TreeItems(source, PlainItems(node, items), reals) == items
    decreases node, |items|
  {
    hide Readable, Plain, Tree, Printable;
    if items != [] {
      PlainTree(items[0], reals);
      var plain, later := PlainItems(node, items), PlainItems(node, items[1..]);
      assert forall i :: 0 <= i < |later| ==> later[i] == plain[i + 1];
      PlainTreeItems(node, items[1..], source, reals);
      assert plain[1..] == later;
      assert items == [items[0]] + items[1..];
    }
  }

  lemma {:induction false} PlainTreeEntries(
    node: PlistNode, entries: seq<KeyValue>, source: Source, reals: RealReader)
    requires forall i :: 0 <= i < |entries| ==>
      && entries[i].value < node
      && Trimmed(entries[i].key) && Find(entries[i].key, CloseTag("key")).None? && Readable(entries[i].value)
    requires forall i :: 0 <= i < |PlainEntries(node, entries)| ==> PlainEntries(node, entries)[i].value < source
    ensures forall i :: 0 <= i < |PlainEntries(node, entries)| ==>
      PrintableKey(PlainEntries(node, entries)[i]) && Printable(PlainEntries(node, entries)[i].value, reals)
    ensures TreeEntries(source, PlainEntries(node, entries), reals) == entries
    decreases node, |entries|
  {
    hide Readable, Plain, Tree, Printable, Find, Trimmed;
    if entries != [] {
      PlainTree(entries[0].value, reals);
      var plain, later := PlainEntries(node, entries), PlainEntries(node, entries[1..]);
      assert forall i :: 0 <= i < |later| ==> later[i] == plain[i + 1];
      PlainTreeEntries(node, entries[1..], source, reals);
      assert plain[1..] == later;
      assert "" + entries[0].key + "" == entries[0].key;
      assert entries == [entries[0]] + entries[1..];
    }
  }

  /** A readable tree survives printing and reading. */
  lemma PrintThenRead(node: PlistNode, suffix: string, reals: RealReader)
    requires Readable(node)
    ensures NodeAt(Printed(Plain(node)) + suffix, 0, reals) == Success(Read(node, |Printed(Plain(node))|))
  {
    hide NodeAt, Printed, Plain;
    PlainTree(node, reals);
    PlistRoundTrip(Plain(node), suffix, reals);
  }
}
