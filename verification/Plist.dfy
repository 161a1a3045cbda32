/** The XML property-list reader (crates/oc-config/src/managed.rs).

    `NodeAt`, `DictAt` and `ArrayAt` say what the reader makes of the input from a position; the
    methods of `PlistParser` move a cursor and compute the same. The reader of floating-point numbers
    is a parameter. */
module Plist {
  import opened Wrappers
  import opened Text
  import opened Decimal

  datatype PlistNode =
    | Dict(entries: seq<KeyValue>)
    | Array(items: seq<PlistNode>)
    | String(text: string)
    | Integer(value: int)
    | Real(number: real)
    | Bool(flag: bool)
    | Data(text: string)
    | Date(text: string)

  datatype KeyValue = KeyValue(key: string, value: PlistNode)

  datatype PlistError =
    | ExpectedTag
    | UnterminatedTag
    | EmptyTagName
    | MissingClose(name: string)
    | NotSelfClosing
    | InvalidInteger
    | InvalidReal
    | UnsupportedTag(name: string)
    | ExpectedKey(name: string)

  type RealReader = string -> Option<real>

  // ---------- Tokens ----------

  predicate IsAsciiWhitespace(c: char) {
    c == ' ' || c == '\t' || c == '\n' || c == '\U{0C}' || c == '\r'
  }

  function SkipWs(input: string, pos: nat): (r: nat)
    requires pos <= |input|
    ensures pos <= r <= |input|
    decreases |input| - pos
  {
    if pos < |input| && IsAsciiWhitespace(input[pos]) then SkipWs(input, pos + 1) else pos
  }

  function TrimSlashes(s: string): string {
    if s != [] && s[|s| - 1] == '/' then TrimSlashes(s[..|s| - 1]) else s
  }

  datatype Tag = Tag(name: string, selfClosing: bool, next: nat)

  function TagAt(input: string, pos: nat): (r: Result<Tag, PlistError>)
    requires pos <= |input|
    ensures r.Success? ==> pos < r.value.next <= |input|
  {
    var start := SkipWs(input, pos);
    if start == |input| || input[start] != '<' then Failure(ExpectedTag)
    else match FindFrom(input, ">", start + 1)
      case None => Failure(UnterminatedTag)
      case Some(end) =>
        var content := Trim(input[start + 1..end]);
        var name := Word(Trim(TrimSlashes(content)));
        if name == "" then Failure(EmptyTagName)
        else Success(Tag(name, content != "" && content[|content| - 1] == '/', end + 1))
  }

  function CloseTag(name: string): string {
    "</" + name + ">"
  }

  datatype Content = Content(text: string, next: nat)

  /** The text up to a closing tag. */
  function ContentAt(input: string, pos: nat, name: string): (r: Result<Content, PlistError>)
    requires pos <= |input|
    ensures r.Success? ==> pos <= r.value.next <= |input|
  {
    match FindFrom(input, CloseTag(name), pos)
    case None => Failure(MissingClose(name))
    case Some(end) => Success(Content(input[pos..end], end + |CloseTag(name)|))
  }

  /** `replace(char::is_whitespace, "")` */
  function StripWhitespace(s: string): string {
    if s == [] then []
    else (if IsWhitespace(s[0]) then [] else [s[0]]) + StripWhitespace(s[1..])
  }

  // ---------- What the reader makes of an input ----------

  datatype Read<T> = Read(value: T, next: nat)

  predicate IsScalar(name: string) {
    name == "string" || name == "integer" || name == "real" || name == "data" || name == "date"
  }

  /** A scalar element from its text. */
  function Scalar(name: string, text: string, reals: RealReader): Result<PlistNode, PlistError>
    requires IsScalar(name)
  {
    if name == "string" then Success(String(text))
    else if name == "integer" then
      match ParseI64(Trim(text)) case None => Failure(InvalidInteger) case Some(n) => Success(Integer(n))
    else if name == "real" then
      match reals(Trim(text)) case None => Failure(InvalidReal) case Some(x) => Success(Real(x))
    else if name == "data" then Success(Data(StripWhitespace(Trim(text))))
    else Success(Date(Trim(text)))
  }

  function NodeAt(input: string, pos: nat, reals: RealReader): (r: Result<Read<PlistNode>, PlistError>)
    requires pos <= |input|
    ensures r.Success? ==> pos < r.value.next <= |input|
    decreases |input| - pos, 0
  {
    match TagAt(input, pos)
    case Failure(e) => Failure(e)
    case Success(tag) =>
      if tag.name == "dict" then DictAt(input, tag.next, reals, [])
      else if tag.name == "array" then ArrayAt(input, tag.next, reals, [])
      else if tag.name == "true" || tag.name == "false" then
        if tag.selfClosing then Success(Read(Bool(tag.name == "true"), tag.next)) else Failure(NotSelfClosing)
      else if IsScalar(tag.name) then
        match ContentAt(input, tag.next, tag.name)
        case Failure(e) => Failure(e)
        case Success(content) =>
          match Scalar(tag.name, content.text, reals)
          case Failure(e) => Failure(e)
          case Success(node) => Success(Read(node, content.next))
      else Failure(UnsupportedTag(tag.name))
  }

  /** The rest of a dictionary whose first entries have been read. */
  function DictAt(input: string, pos: nat, reals: RealReader, entries: seq<KeyValue>)
    : (r: Result<Read<PlistNode>, PlistError>)
    requires pos <= |input|
    ensures r.Success? ==> pos <= r.value.next <= |input|
    decreases |input| - pos, 1
  {
    var start := SkipWs(input, pos);
    if OccursAt("</dict>", input, start) then Success(Read(Dict(entries), start + 7))
    else match TagAt(input, start)
      case Failure(e) => Failure(e)
      case Success(tag) =>
        if tag.name != "key" then Failure(ExpectedKey(tag.name))
        else match ContentAt(input, tag.next, "key")
          case Failure(e) => Failure(e)
          case Success(key) =>
            match NodeAt(input, key.next, reals)
            case Failure(e) => Failure(e)
            case Success(node) => DictAt(input, node.next, reals, entries + [KeyValue(Trim(key.text), node.value)])
  }

  function ArrayAt(input: string, pos: nat, reals: RealReader, items: seq<PlistNode>)
    : (r: Result<Read<PlistNode>, PlistError>)
    requires pos <= |input|
    ensures r.Success? ==> pos <= r.value.next <= |input|
    decreases |input| - pos, 1
  {
    var start := SkipWs(input, pos);
    if OccursAt("</array>", input, start) then Success(Read(Array(items), start + 8))
    else match NodeAt(input, start, reals)
      case Failure(e) => Failure(e)
      case Success(node) => ArrayAt(input, node.next, reals, items + [node.value])
  }

  // ---------- The reader ----------

  class PlistParser {
    const input: string
    var pos: nat

    ghost predicate Valid()
      reads this
    {
      pos <= |input|
    }

    constructor (text: string)
      ensures Valid() && input == text && pos == 0
    {
      input := text;
      pos := 0;
    }

    method SkipSpace()
      requires Valid()
      modifies this`pos
      ensures Valid() && pos == SkipWs(input, old(pos))
    {
      while pos < |input| && IsAsciiWhitespace(input[pos])
        invariant Valid() && SkipWs(input, pos) == SkipWs(input, old(pos))
      {
        pos := pos + 1;
      }
    }

    method ReadOpenTag() returns (r: Result<(string, bool), PlistError>)
      requires Valid()
      modifies this`pos
      ensures match TagAt(input, old(pos))
        case Failure(e) => r == Failure(e)
        case Success(tag) => r == Success((tag.name, tag.selfClosing)) && pos == tag.next
    {
      SkipSpace();
      if pos == |input| || input[pos] != '<' {
        return Failure(ExpectedTag);
      }
      pos := pos + 1;
      var end := FindFrom(input, ">", pos);
      if end.None? {
        return Failure(UnterminatedTag);
      }
      var content := Trim(input[pos..end.value]);
      pos := end.value + 1;
      var selfClosing := content != "" && content[|content| - 1] == '/';
      var name := Word(Trim(TrimSlashes(content)));
      return if name == "" then Failure(EmptyTagName) else Success((name, selfClosing));
    }

    method ReadUntilClose(name: string) returns (r: Result<string, PlistError>)
      requires Valid()
      modifies this`pos
      ensures match ContentAt(input, old(pos), name)
        case Failure(e) => r == Failure(e)
        case Success(content) => r == Success(content.text) && pos == content.next
    {
      var end := FindFrom(input, CloseTag(name), pos);
      if end.None? {
        return Failure(MissingClose(name));
      }
      r := Success(input[pos..end.value]);
      pos := end.value + |CloseTag(name)|;
    }

    method Parse(reals: RealReader) returns (r: Result<PlistNode, PlistError>)
      requires Valid()
      modifies this`pos
      ensures match NodeAt(input, old(pos), reals)
        case Failure(e) => r == Failure(e)
        case Success(node) => r == Success(node.value) && pos == node.next
      decreases |input| - pos, 0
    {
      var tag := ReadOpenTag();
      if tag.Failure? {
        return Failure(tag.error);
      }
      var (name, selfClosing) := tag.value;
      if name == "dict" {
        r := ParseDict(reals);
      } else if name == "array" {
        r := ParseArray(reals);
      } else if name == "true" || name == "false" {
        return if selfClosing then Success(Bool(name == "true")) else Failure(NotSelfClosing);
      } else if IsScalar(name) {
        var text := ReadUntilClose(name);
        if text.Failure? {
          return Failure(text.error);
        }
        r := Scalar(name, text.value, reals);
      } else {
        return Failure(UnsupportedTag(name));
      }
    }

    method ParseDict(reals: RealReader) returns (r: Result<PlistNode, PlistError>)
      requires Valid()
      modifies this`pos
      ensures match DictAt(input, old(pos), reals, [])
        case Failure(e) => r == Failure(e)
        case Success(node) => r == Success(node.value) && pos == node.next
      decreases |input| - pos, 1
    {
      var entries := [];
      while true
        invariant Valid() && old(pos) <= pos
        invariant DictAt(input, pos, reals, entries) == DictAt(input, old(pos), reals, [])
        decreases |input| - pos
      {
        SkipSpace();
        if OccursAt("</dict>", input, pos) {
          pos := pos + 7;
          return Success(Dict(entries));
        }
        var tag := ReadOpenTag();
        if tag.Failure? {
          return Failure(tag.error);
        }
        if tag.value.0 != "key" {
          return Failure(ExpectedKey(tag.value.0));
        }
        var key := ReadUntilClose("key");
        if key.Failure? {
          return Failure(key.error);
        }
        var value := Parse(reals);
        if value.Failure? {
          return Failure(value.error);
        }
        entries := entries + [KeyValue(Trim(key.value), value.value)];
      }
    }

    method ParseArray(reals: RealReader) returns (r: Result<PlistNode, PlistError>)
      requires Valid()
      modifies this`pos
      ensures match ArrayAt(input, old(pos), reals, [])
        case Failure(e) => r == Failure(e)
        case Success(node) => r == Success(node.value) && pos == node.next
      decreases |input| - pos, 1
    {
      var items := [];
      while true
        invariant Valid() && old(pos) <= pos
        invariant ArrayAt(input, pos, reals, items) == ArrayAt(input, old(pos), reals, [])
        decreases |input| - pos
      {
        SkipSpace();
        if OccursAt("</array>", input, pos) {
          pos := pos + 8;
          return Success(Array(items));
        }
        var item := Parse(reals);
        if item.Failure? {
          return Failure(item.error);
        }
        items := items + [item.value];
      }
    }
  }
}
