/** Which trees survive being printed and read (crates/oc-config/src/managed.rs). */
module PlistExact {
  import opened Wrappers
  import opened Text
  import opened Decimal
  import opened Plist
  import opened PlistTheorems

  predicate NoReals(node: PlistNode) {
    match node
    case Dict(entries) => forall i :: 0 <= i < |entries| ==> NoReals(entries[i].value)
    case Array(items) => forall i :: 0 <= i < |items| ==> NoReals(items[i])
    case Real(_) => false
    case _ => true
  }

  // ---------- What trimming and stripping keep ----------

  lemma {:induction false} StripShrinks(s: string)
    ensures |StripWhitespace(s)| <= |s|
    ensures |StripWhitespace(s)| == |s| ==> forall i :: 0 <= i < |s| ==> !IsWhitespace(s[i])
  {
    if s != [] {
      StripShrinks(s[1..]);
      assert forall i :: 1 <= i < |s| ==> s[i] == s[1..][i - 1];
    }
  }

  lemma {:induction false} TrimStartShrinks(s: string)
    ensures |TrimStart(s)| <= |s|
    ensures |TrimStart(s)| == |s| ==> TrimStart(s) == s && (s != [] ==> !IsWhitespace(s[0]))
  {
    if s != [] && IsWhitespace(s[0]) {
      TrimStartShrinks(s[1..]);
    }
  }

  lemma {:induction false} TrimEndShrinks(s: string)
    ensures |TrimEnd(s)| <= |s|
    ensures |TrimEnd(s)| == |s| ==> TrimEnd(s) == s && (s != [] ==> !IsWhitespace(s[|s| - 1]))
  {
    if s != [] && IsWhitespace(s[|s| - 1]) {
      TrimEndShrinks(s[..|s| - 1]);
    }
  }

  lemma TrimShrinks(s: string)
    ensures |Trim(s)| <= |s|
    ensures |Trim(s)| == |s| ==> Trim(s) == s && Trimmed(s)
  {
    TrimStartShrinks(s);
    TrimEndShrinks(TrimStart(s));
  }

  // ---------- Scalars ----------

  /** What is read of an element's text ends where its closing tag first occurs. */
  lemma ContentPrefix(input: string, pos: nat, name: string, text: string, content: Content)
    requires OccursAt(text + CloseTag(name), input, pos) && pos <= |input|
    requires ContentAt(input, pos, name) == Success(content)
    ensures content.text <= text
    ensures content.text == text ==> Find(text, CloseTag(name)).None?
  {
    var close := CloseTag(name);
    OccursConcat(text, close, input, pos);
    FindFromIsFirst(input, close, pos);
    var end := FindFrom(input, close, pos).value;
    assert !(pos + |text| < end);
    assert input[pos..pos + |text|][..end - pos] == input[pos..end];
    if content.text == text {
      NoneWithin(input, pos, close, text);
    }
  }

  lemma SliceOfSlice(s: string, a: nat, b: nat, i: nat, j: nat)
    requires a <= b <= |s| && i <= j <= b - a
    ensures s[a..b][i..j] == s[a + i..a + j]
  {
    var outer, inner := s[a..b], s[a + i..a + j];
    forall k | 0 <= k < j - i
      ensures outer[i..j][k] == inner[k]
    {
      assert outer[i + k] == s[a + i + k];
    }
    assert outer[i..j] == inner;
  }

  lemma NoneWithin(input: string, pos: nat, close: string, text: string)
    requires OccursAt(text, input, pos)
    requires forall i :: pos <= i < pos + |text| ==> !OccursAt(close, input, i)
    requires close != []
    ensures Find(text, close).None?
  {
    forall i | 0 <= i
      ensures !OccursAt(close, text, i)
    {
      if i + |close| <= |text| {
        SliceOfSlice(input, pos, pos + |text|, i, i + |close|);
        assert !OccursAt(close, input, pos + i);
      }
    }
    FindIsFirst(text, close, None);
  }

  lemma ScalarExact(input: string, pos: nat, node: PlistNode, reals: RealReader)
    requires pos <= |input| && Plain(node).ScalarSource? && NoReals(node)
    requires OccursAt(Printed(Plain(node)), input, pos)
    requires NodeAt(input, pos, reals).Success? && NodeAt(input, pos, reals).value.value == node
    ensures Readable(node)
  {
    hide OccursAt, TagAt, ContentAt, Printed, Find, Trim;
    var source := Plain(node);
    var start, next := ReadsOpening(input, pos, source, reals);
    OccursInside(source.text + CloseTag(source.name), input, next);
    NodeUnfolds(input, pos, reals, Tag(source.name, false, next));
    var content := ContentAt(input, next, source.name).value;
    ContentPrefix(input, next, source.name, source.text, content);
    TextExact(node, content.text, reals);
  }

  lemma TextExact(node: PlistNode, text: string, reals: RealReader)
    requires Plain(node).ScalarSource? && NoReals(node) && text <= Plain(node).text
    requires Scalar(Plain(node).name, text, reals) == Success(node)
    requires text == Plain(node).text ==> Find(text, CloseTag(Plain(node).name)).None?
    ensures Readable(node)
  {
    hide Find, Trim, StripWhitespace, ParseI64, PrintInt, Trimmed;
    match node
    case String(_) =>
      assert text == node.text;
    case Integer(n) =>
      ParsedFits(Trim(text));
    case Data(data) =>
      StripShrinks(Trim(text));
      TrimShrinks(text);
      assert |text| == |data|;
      assert text == data && Trim(text) == data;
    case Date(date) =>
      TrimShrinks(text);
      assert |text| == |date|;
      assert text == date;
  }

  lemma ParsedFits(s: string)
    ensures ParseI64(s).Some? ==> I64_MIN <= ParseI64(s).value <= I64_MAX
  {
  }

  // ---------- Containers ----------

  lemma {:induction false} ArrayGrows(input: string, pos: nat, reals: RealReader, done: seq<PlistNode>)
    requires pos <= |input|
    ensures var r := ArrayAt(input, pos, reals, done);
      r.Success? ==> r.value.value.Array? && done <= r.value.value.items
    decreases |input| - pos
  {
    var start := SkipWs(input, pos);
    if !OccursAt("</array>", input, start) {
      var r := NodeAt(input, start, reals);
      if r.Success? {
        ArrayGrows(input, r.value.next, reals, done + [r.value.value]);
      }
    }
  }

  lemma {:induction false} DictGrows(input: string, pos: nat, reals: RealReader, done: seq<KeyValue>)
    requires pos <= |input|
    ensures var r := DictAt(input, pos, reals, done);
      r.Success? ==> r.value.value.Dict? && done <= r.value.value.entries
    decreases |input| - pos
  {
    hide NodeAt, ContentAt, TagAt, SkipWs, OccursAt;
    var start := SkipWs(input, pos);
    if !OccursAt("</dict>", input, start) && DictAt(input, pos, reals, done).Success? {
      var key := ContentAt(input, TagAt(input, start).value.next, "key").value;
      var node := NodeAt(input, key.next, reals).value;
      DictGrows(input, node.next, reals, done + [KeyValue(Trim(key.text), node.value)]);
    }
  }

  /** A tree the reader gives back is readable. */
  lemma {:induction false} NodeExact(input: string, pos: nat, node: PlistNode, reals: RealReader)
    requires pos <= |input| && NoReals(node) && OccursAt(Printed(Plain(node)), input, pos)
    requires NodeAt(input, pos, reals).Success? && NodeAt(input, pos, reals).value.value == node
    ensures Readable(node)
    decreases node
  {
    hide NodeAt, Printed, OccursAt, TagAt, ArrayAt, DictAt;
    var source := Plain(node);
    match node
    case Array(items) =>
      var start, next := ReadsOpening(input, pos, source, reals);
      OccursInside(AfterTag(source), input, next);
      NodeUnfolds(input, pos, reals, Tag("array", false, next));
      assert [] + items == items;
      ItemsExact(input, next, node, items, source, reals, []);
    case Dict(entries) =>
      var start, next := ReadsOpening(input, pos, source, reals);
      OccursInside(AfterTag(source), input, next);
      NodeUnfolds(input, pos, reals, Tag("dict", false, next));
      assert [] + entries == entries;
      EntriesExact(input, next, node, entries, source, reals, []);
    case Bool(_) =>
    case _ =>
      ScalarExact(input, pos, node, reals);
  }

  lemma PlainOpens(node: PlistNode)
    ensures Opens(Plain(node))
  {
    hide PrintInt, PlainItems, PlainEntries;
  }

  lemma {:induction false} ItemsExact(
    input: string, pos: nat, node: PlistNode, items: seq<PlistNode>, source: Source, reals: RealReader,
    done: seq<PlistNode>)
    requires pos <= |input| && forall i :: 0 <= i < |items| ==> items[i] < node && NoReals(items[i])
    requires forall i :: 0 <= i < |PlainItems(node, items)| ==> PlainItems(node, items)[i] < source
    requires OccursAt(PrintedItems(source, PlainItems(node, items), ""), input, pos)
    requires ArrayAt(input, pos, reals, done).Success?
    requires ArrayAt(input, pos, reals, done).value.value == Array(done + items)
    ensures forall i :: 0 <= i < |items| ==> Readable(items[i])
    decreases node, |items|
  {
    hide NodeAt, OccursAt, TagAt, ArrayAt, SkipWs, Printed, Plain, Readable, NoReals, Tree, Printable;
    if items != [] {
      var plain, later := PlainItems(node, items), PlainItems(node, items[1..]);
      assert plain[0] == Plain(items[0]) && plain[1..] == later;
      assert forall i :: 0 <= i < |later| ==> later[i] == plain[i + 1];
      var first := Printed(plain[0]);
      OccursConcat(first, PrintedItems(source, later, ""), input, pos);
      PlainOpens(items[0]);
      var start, _ := ReadsOpening(input, pos, plain[0], reals);
      var read := ItemRead(input, pos, start, reals, done);
      ArrayGrows(input, read.next, reals, done + [read.value]);
      assert (done + items)[|done|] == items[0];
      assert (done + [read.value])[|done|] == read.value;
      NodeExact(input, pos, items[0], reals);
      PlainTree(items[0], reals);
      ReadsNode(input, pos, plain[0], reals);
      assert done + items == done + [items[0]] + items[1..];
      ItemsExact(input, pos + |first|, node, items[1..], source, reals, done + [items[0]]);
    }
  }

  /** The item an array goes on with, if it does not end. */
  lemma ItemRead(input: string, pos: nat, start: nat, reals: RealReader, done: seq<PlistNode>)
    returns (read: Read<PlistNode>)
    requires pos <= |input| && start == SkipWs(input, pos) && !OccursAt("</array>", input, start)
    requires ArrayAt(input, pos, reals, done).Success?
    ensures NodeAt(input, start, reals) == Success(read) && read.next <= |input|
    ensures ArrayAt(input, pos, reals, done) == ArrayAt(input, read.next, reals, done + [read.value])
  {
    hide NodeAt, SkipWs, OccursAt;
    read := NodeAt(input, start, reals).value;
  }

  lemma {:induction false} EntriesExact(
    input: string, pos: nat, node: PlistNode, entries: seq<KeyValue>, source: Source, reals: RealReader,
    done: seq<KeyValue>)
    requires pos <= |input|
    requires forall i :: 0 <= i < |entries| ==> entries[i].value < node && NoReals(entries[i].value)
    requires forall i :: 0 <= i < |PlainEntries(node, entries)| ==> PlainEntries(node, entries)[i].value < source
    requires OccursAt(PrintedEntries(source, PlainEntries(node, entries), ""), input, pos)
    requires DictAt(input, pos, reals, done).Success?
    requires DictAt(input, pos, reals, done).value.value == Dict(done + entries)
    ensures forall i :: 0 <= i < |entries| ==>
      Trimmed(entries[i].key) && Find(entries[i].key, CloseTag("key")).None? && Readable(entries[i].value)
    decreases node, |entries|, 1
  {
    hide NodeAt, OccursAt, TagAt, DictAt, SkipWs, Printed, Plain, Readable, NoReals, Find, Trim, Trimmed;
    if entries != [] {
      var plain, later := PlainEntries(node, entries), PlainEntries(node, entries[1..]);
      assert plain[1..] == later;
      assert forall i :: 0 <= i < |later| ==> later[i] == plain[i + 1];
      FirstEntryExact(input, pos, node, entries, source, reals, done, plain[0], PrintedEntries(source, later, ""));
      var next := pos + |Element("key", entries[0].key)| + |Printed(plain[0].value)|;
      assert done + entries == done + [entries[0]] + entries[1..];
      EntriesExact(input, next, node, entries[1..], source, reals, done + [entries[0]]);
    }
  }

  lemma {:induction false} FirstEntryExact(
    input: string, pos: nat, node: PlistNode, entries: seq<KeyValue>, source: Source, reals: RealReader,
    done: seq<KeyValue>, plain: EntrySource, rest: string)
    requires pos <= |input| && entries != [] && entries[0].value < node && NoReals(entries[0].value)
    requires plain == EntrySource("", "", entries[0].key, "", Plain(entries[0].value))
    requires OccursAt("" + (Element("key", KeyText(plain)) + (Printed(plain.value) + rest)), input, pos)
    requires DictAt(input, pos, reals, done).Success?
    requires DictAt(input, pos, reals, done).value.value == Dict(done + entries)
    ensures var next := pos + |Element("key", entries[0].key)| + |Printed(plain.value)|;
      && Trimmed(entries[0].key) && Find(entries[0].key, CloseTag("key")).None? && Readable(entries[0].value)
      && next <= |input| && OccursAt(rest, input, next)
      && DictAt(input, pos, reals, done) == DictAt(input, next, reals, done + [entries[0]])
    decreases node, |entries|, 0
  {
    hide NodeAt, OccursAt, TagAt, DictAt, SkipWs, Printed, Plain, Readable, NoReals, Find, Trim, Trimmed,
      Tree, Printable, ContentAt, KeyText, Element, CloseTag;
    var element, value := Element("key", KeyText(plain)), Printed(plain.value);
    PlainKey(plain);
    assert "" + (element + (value + rest)) == element + (value + rest);
    OccursConcat(element, value + rest, input, pos);
    OccursConcat(value, rest, input, pos + |element|);
    assert plain.before + element == element;
    ReadsKeyTag(input, pos, plain);
    var key, read := EntryRead(input, pos, reals, done);
    EntryIsFirst(input, read.next, reals, done, KeyValue(Trim(key.text), read.value), entries);
    ContentPrefix(input, pos + 5, "key", entries[0].key, key);
    TrimShrinks(key.text);
    ReadsContent(input, pos + 5, "key", entries[0].key);
    ValueExact(input, pos + |element|, node, entries[0].value, reals, rest);
  }

  lemma PlainKey(entry: EntrySource)
    requires entry.left == "" && entry.right == ""
    ensures KeyText(entry) == entry.key
    ensures |Element("key", entry.key)| == 5 + |entry.key| + |CloseTag("key")|
  {
    assert "" + entry.key + "" == entry.key;
  }

  /** What a dictionary reads next is the next of what it reads in all. */
  lemma EntryIsFirst(
    input: string, pos: nat, reals: RealReader, done: seq<KeyValue>, entry: KeyValue, entries: seq<KeyValue>)
    requires pos <= |input| && entries != [] && DictAt(input, pos, reals, done + [entry]).Success?
    requires DictAt(input, pos, reals, done + [entry]).value.value == Dict(done + entries)
    ensures entry == entries[0]
  {
    hide DictAt;
    DictGrows(input, pos, reals, done + [entry]);
    assert (done + entries)[|done|] == entries[0];
    assert (done + [entry])[|done|] == entry;
  }

  lemma {:induction false} ValueExact(
    input: string, pos: nat, node: PlistNode, value: PlistNode, reals: RealReader, rest: string)
    requires pos <= |input| && value < node && NoReals(value)
    requires OccursAt(Printed(Plain(value)), input, pos)
    requires OccursAt(rest, input, pos + |Printed(Plain(value))|)
    requires NodeAt(input, pos, reals).Success? && NodeAt(input, pos, reals).value.value == value
    ensures Readable(value) && pos + |Printed(Plain(value))| <= |input|
    ensures NodeAt(input, pos, reals) == Success(Read(value, pos + |Printed(Plain(value))|))
    decreases node, 0, 0
  {
    hide NodeAt, OccursAt, Printed, Plain, Readable, NoReals, Tree, Printable;
    NodeExact(input, pos, value, reals);
    PlainTree(value, reals);
    ReadsNode(input, pos, Plain(value), reals);
    OccursInside(rest, input, pos + |Printed(Plain(value))|);
  }

  /** The entry a dictionary goes on with, if it does not end. */
  lemma EntryRead(input: string, pos: nat, reals: RealReader, done: seq<KeyValue>)
    returns (key: Content, read: Read<PlistNode>)
    requires pos + 5 <= |input| && SkipWs(input, pos) == pos && !OccursAt("</dict>", input, pos)
    requires TagAt(input, pos) == Success(Tag("key", false, pos + 5)) && DictAt(input, pos, reals, done).Success?
    ensures ContentAt(input, pos + 5, "key") == Success(key) && key.next <= |input|
    ensures NodeAt(input, key.next, reals) == Success(read) && read.next <= |input|
    ensures DictAt(input, pos, reals, done) ==
      DictAt(input, read.next, reals, done + [KeyValue(Trim(key.text), read.value)])
  {
    hide NodeAt, SkipWs, OccursAt, TagAt, ContentAt;
    key := ContentAt(input, pos + 5, "key").value;
    read := NodeAt(input, key.next, reals).value;
  }

  /** A tree without reals survives being printed and read, whatever follows it, exactly when it is
      readable. */
  lemma SurvivesIff(node: PlistNode, reals: RealReader)
    requires NoReals(node)
    ensures (forall suffix :: Survives(node, suffix, reals)) <==> Readable(node)
  {
    if Readable(node) {
      forall suffix
        ensures Survives(node, suffix, reals)
      {
        PrintThenRead(node, suffix, reals);
      }
    } else {
      var text := Printed(Plain(node));
      assert text + "" == text && text[0..|text|] == text;
      if Survives(node, "", reals) {
        NodeExact(text, 0, node, reals);
      }
    }
  }

  predicate Survives(node: PlistNode, suffix: string, reals: RealReader) {
    NodeAt(Printed(Plain(node)) + suffix, 0, reals) == Success(Read(node, |Printed(Plain(node))|))
  }
}
