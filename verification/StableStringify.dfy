/** `stable_stringify` and the MCP registration key built from it (crates/oc-acp/src/service.rs). */
module StableStringify {
  import opened Text

  /** A JSON value. A number is its text; an object keeps its entries in insertion order. */
  datatype Json =
    | Null
    | Bool(value: bool)
    | Number(text: string)
    | Str(text: string)
    | Array(items: seq<Json>)
    | Object(entries: seq<Entry>)

  datatype Entry = Entry(key: string, value: Json)

  predicate IsNumberChar(c: char) {
    '0' <= c <= '9' || c == '-' || c == '+' || c == '.' || c == 'e' || c == 'E'
  }

  predicate IsNumberText(s: string) {
    && s != [] && ('0' <= s[0] <= '9' || s[0] == '-')
    && forall i :: 0 <= i < |s| ==> IsNumberChar(s[i])
  }

  ghost predicate DistinctKeys(entries: seq<Entry>) {
    forall i, j :: 0 <= i < j < |entries| ==> entries[i].key != entries[j].key
  }

  /** What `serde_json::Value` guarantees: numbers print as numbers, and keys of an object differ. */
  ghost predicate WellFormed(v: Json) {
    match v
    case Null => true
    case Bool(_) => true
    case Number(text) => IsNumberText(text)
    case Str(_) => true
    case Array(items) => forall i :: 0 <= i < |items| ==> WellFormed(items[i])
    case Object(entries) =>
      DistinctKeys(entries) && forall i :: 0 <= i < |entries| ==> WellFormed(entries[i].value)
  }

  // ---------- Printing ----------

  function HexDigit(n: int): char
    requires 0 <= n < 16
  {
    if n < 10 then '0' + n as char else 'a' + (n - 10) as char
  }

  /** One character inside a JSON string literal, as `serde_json` prints it. */
  function EscapeChar(c: char): string {
    if c == '\"' then "\\\""
    else if c == '\\' then "\\\\"
    else if c == '\U{08}' then "\\b"
    else if c == '\U{0C}' then "\\f"
    else if c == '\n' then "\\n"
    else if c == '\r' then "\\r"
    else if c == '\t' then "\\t"
    else if c < ' ' then "\\u00" + [HexDigit(c as int / 16), HexDigit(c as int % 16)]
    else [c]
  }

  function Escape(s: string): string {
    if s == [] then "" else EscapeChar(s[0]) + Escape(s[1..])
  }

  function Quote(s: string): string {
    "\"" + Escape(s) + "\""
  }

  /** `keys.sort()`, by insertion. */
  function Insert(e: Entry, entries: seq<Entry>): seq<Entry> {
    if entries == [] || StringLess(e.key, entries[0].key) then [e] + entries
    else [entries[0]] + Insert(e, entries[1..])
  }

  function SortByKey(entries: seq<Entry>): seq<Entry> {
    if entries == [] then [] else Insert(entries[0], SortByKey(entries[1..]))
  }

  function Stringify(v: Json): string
    decreases v
  {
    match v
    case Null => "null"
    case Bool(b) => if b then "true" else "false"
    case Number(text) => text
    case Str(text) => Quote(text)
    case Array(items) => "[" + Join(StringifyItems(v, items), ",") + "]"
    case Object(entries) =>
      SortKeeps(entries);
      assert forall i :: 0 <= i < |entries| ==> entries[i].value < v;
      "{" + Join(StringifyEntries(v, SortByKey(entries)), ",") + "}"
  }

  function StringifyItems(v: Json, items: seq<Json>): seq<string>
    requires forall i :: 0 <= i < |items| ==> items[i] < v
    decreases v, |items|
  {
    if items == [] then [] else [Stringify(items[0])] + StringifyItems(v, items[1..])
  }

  function StringifyEntries(v: Json, entries: seq<Entry>): seq<string>
    requires forall e :: e in entries ==> e.value < v
    decreases v, |entries|
  {
    if entries == [] then []
    else
      [Quote(entries[0].key) + ":" + Stringify(entries[0].value)] + StringifyEntries(v, entries[1..])
  }

  /** `mcp_registration_key` */
  function RegistrationKey(name: string, config: Json): string {
    name + ":" + Stringify(config)
  }

  // ---------- Sorting keeps the entries ----------

  lemma {:induction false} InsertKeeps(e: Entry, entries: seq<Entry>)
    ensures |Insert(e, entries)| == |entries| + 1
    ensures forall x :: x in Insert(e, entries) <==> x == e || x in entries
  {
    if entries != [] && !StringLess(e.key, entries[0].key) {
      InsertKeeps(e, entries[1..]);
      assert entries == [entries[0]] + entries[1..];
    }
  }

  lemma {:induction false} SortKeeps(entries: seq<Entry>)
    ensures |SortByKey(entries)| == |entries|
    ensures forall x :: x in SortByKey(entries) <==> x in entries
  {
    if entries != [] {
      SortKeeps(entries[1..]);
      InsertKeeps(entries[0], SortByKey(entries[1..]));
      assert entries == [entries[0]] + entries[1..];
    }
  }

  ghost predicate Ascending(entries: seq<Entry>) {
    forall i, j :: 0 <= i < j < |entries| ==> StringLess(entries[i].key, entries[j].key)
  }

  lemma {:induction false} InsertAscends(e: Entry, entries: seq<Entry>)
    requires Ascending(entries) && forall x :: x in entries ==> x.key != e.key
    ensures Ascending(Insert(e, entries))
  {
    if entries == [] {
    } else if StringLess(e.key, entries[0].key) {
      forall j | 0 < j < |entries|
        ensures StringLess(e.key, entries[j].key)
      {
        StringLessTransitive(e.key, entries[0].key, entries[j].key);
      }
    } else {
      StringLessTotal(e.key, entries[0].key);
      assert entries[0] in entries;
      InsertAscends(e, entries[1..]);
      InsertKeeps(e, entries[1..]);
      var r := Insert(e, entries[1..]);
      forall j | 0 <= j < |r|
        ensures StringLess(entries[0].key, r[j].key)
      {
        assert r[j] in r;
      }
    }
  }

  lemma {:induction false} SortAscends(entries: seq<Entry>)
    requires DistinctKeys(entries)
    ensures Ascending(SortByKey(entries))
  {
    if entries != [] {
      SortAscends(entries[1..]);
      SortKeeps(entries[1..]);
      InsertAscends(entries[0], SortByKey(entries[1..]));
    }
  }
}
