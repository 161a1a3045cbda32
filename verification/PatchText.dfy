/** Reading the text of a unified diff into hunks (crates/oc-acp/src/permission.rs), on a list of raw lines. */
module PatchText {
  import opened Wrappers
  import opened Text
  import opened Decimal
  import opened Patch

  /** `trim_end_matches("@@")` */
  function TrimMarkers(s: string): string {
    if |s| >= 2 && s[|s| - 2..] == "@@" then TrimMarkers(s[..|s| - 2]) else s
  }

  function TrimDashes(s: string): string {
    if s != [] && s[0] == '-' then TrimDashes(s[1..]) else s
  }

  /** ` -start,count +start,count @@ section`, without the leading `@@`; only the first start is read. */
  function ParseHunkHeader(header: string): Option<Hunk> {
    var word := Word(TrimStart(TrimMarkers(header)));
    if word == [] then None
    else match ParseUsize(Split(TrimDashes(word), ',')[0])
      case None => None
      case Some(start) => Some(Hunk(start, []))
  }

  /** The state of the reader between raw lines. */
  datatype Reader = Reader(hunks: seq<Hunk>, current: Option<Hunk>, markerNext: bool)

  function Close(reader: Reader): seq<Hunk> {
    if reader.current.Some? then reader.hunks + [reader.current.value] else reader.hunks
  }

  function Push(hunk: Hunk, op: Op, text: string): Hunk {
    hunk.(lines := hunk.lines + [PatchLine(op, text)])
  }

  /** `\ No newline at end of file` after an added or removed line. */
  function MarkLast(hunk: Hunk): Hunk {
    if hunk.lines == [] then hunk
    else
      var n := |hunk.lines| - 1;
      hunk.(lines := hunk.lines[n := hunk.lines[n].(text := hunk.lines[n].text + "\n")])
  }

  function ReadLine(reader: Reader, raw: string): Option<Reader> {
    if raw != [] && raw[0] == '\\' then
      Some(if reader.markerNext && reader.current.Some? then reader.(current := Some(MarkLast(reader.current.value)))
           else reader)
    else
      var marker := raw != [] && (raw[0] == '-' || raw[0] == '+');
      if "@@" <= raw then
        match ParseHunkHeader(raw[2..])
        case None => None
        case Some(hunk) => Some(Reader(Close(reader), Some(hunk), marker))
      else if reader.current.None? || raw == [] then Some(reader.(markerNext := marker))
      else
        var hunk := reader.current.value;
        var next := match raw[0]
          case '+' => Push(hunk, Add, raw[1..])
          case '-' => Push(hunk, Remove, raw[1..])
          case ' ' => Push(hunk, Context, raw[1..])
          case _ => hunk;
        Some(Reader(reader.hunks, Some(next), marker))
  }

  function ReadLines(reader: Reader, raws: seq<string>): Option<Reader>
    decreases |raws|
  {
    if raws == [] then Some(reader)
    else match ReadLine(reader, raws[0])
      case None => None
      case Some(next) => ReadLines(next, raws[1..])
  }

  const START := Reader([], None, false)

  function Parsed(raws: seq<string>): Option<seq<Hunk>> {
    match ReadLines(START, raws)
    case None => None
    case Some(reader) => Some(Close(reader))
  }

  method ParsePatch(raws: seq<string>) returns (r: Option<seq<Hunk>>)
    ensures r == Parsed(raws)
  {
    var hunks: seq<Hunk> := [];
    var current: Option<Hunk> := None;
    var markerNext := false;
    for i := 0 to |raws|
      invariant ReadLines(START, raws) == ReadLines(Reader(hunks, current, markerNext), raws[i..])
    {
      var raw := raws[i];
      assert raws[i..][1..] == raws[i + 1..];
      if raw != [] && raw[0] == '\\' {
        if markerNext && current.Some? {
          current := Some(MarkLast(current.value));
        }
        continue;
      }
      markerNext := raw != [] && (raw[0] == '-' || raw[0] == '+');
      if "@@" <= raw {
        if current.Some? {
          hunks := hunks + [current.value];
        }
        var header := ParseHunkHeader(raw[2..]);
        if header.None? {
          return None;
        }
        current := header;
        continue;
      }
      if current.None? || raw == [] {
        continue;
      }
      match raw[0] {
        case '+' => current := Some(Push(current.value, Add, raw[1..]));
        case '-' => current := Some(Push(current.value, Remove, raw[1..]));
        case ' ' => current := Some(Push(current.value, Context, raw[1..]));
        case _ =>
      }
    }
    if current.Some? {
      hunks := hunks + [current.value];
    }
    return Some(hunks);
  }

  // ---------- Printing hunks ----------

  function PrintLine(line: PatchLine): string {
    [match line.op case Context => ' ' case Remove => '-' case Add => '+'] + line.text
  }

  /** A line of a hunk, the markers of a missing newline right after it, and lines that say nothing. */
  datatype BodyLine = BodyLine(line: PatchLine, markers: seq<string>, skipped: seq<string>)

  predicate IsMarker(raw: string) {
    raw != "" && raw[0] == '\\'
  }

  predicate SaysNothing(raw: string) {
    raw == "" || (raw[0] !in "+- \\" && !("@@" <= raw))
  }

  /** Lines that say nothing; markers do not either, but after another such line. */
  predicate AreSkipped(raws: seq<string>) {
    && (forall i :: 0 <= i < |raws| ==> SaysNothing(raws[i]) || IsMarker(raws[i]))
    && (raws != [] ==> SaysNothing(raws[0]))
  }

  predicate ValidBody(body: seq<BodyLine>) {
    forall i :: 0 <= i < |body| ==>
      AreSkipped(body[i].skipped) && forall j :: 0 <= j < |body[i].markers| ==> IsMarker(body[i].markers[j])
  }

  function PrintBodyLine(b: BodyLine): seq<string> {
    [PrintLine(b.line)] + (b.markers + b.skipped)
  }

  function PrintBody(body: seq<BodyLine>): seq<string> {
    if body == [] then [] else PrintBodyLine(body[0]) + PrintBody(body[1..])
  }

  function Newlines(n: nat): string {
    if n == 0 then "" else Newlines(n - 1) + "\n"
  }

  /** Every marker adds a newline to the added or removed line before it, and none to a line kept. */
  function Meant(b: BodyLine): PatchLine {
    if b.line.op.Context? then b.line else PatchLine(b.line.op, b.line.text + Newlines(|b.markers|))
  }

  function MeantLines(body: seq<BodyLine>): seq<PatchLine> {
    if body == [] then [] else [Meant(body[0])] + MeantLines(body[1..])
  }

  /** The parts of a hunk header the reader sees through: white space and dashes before the number, how the
      number is spelled, the rest of the old range, what follows it, and lines before the first of the hunk. */
  datatype Layout = Layout(
    pad: string, dashes: nat, numeral: string, range: string, section: string, skipped: seq<string>)

  ghost predicate ValidLayout(start: nat, layout: Layout) {
    && AllWhitespace(layout.pad)
    && start <= U64_MAX && (Spells(layout.numeral, "", start) || Spells(layout.numeral, "+", start))
    && (layout.range == "" || layout.range[0] == ',')
    && (forall i :: 0 <= i < |layout.range| ==> !IsWhitespace(layout.range[i]))
    && AreSkipped(layout.skipped)
  }

  function Dashes(n: nat): string {
    if n == 0 then "" else "-" + Dashes(n - 1)
  }

  function HeaderWord(layout: Layout): string {
    Dashes(layout.dashes) + (layout.numeral + layout.range)
  }

  function PrintHeader(layout: Layout): string {
    "@@" + (layout.pad + HeaderWord(layout) + " " + layout.section)
  }

  datatype Written = Written(start: nat, layout: Layout, body: seq<BodyLine>)

  ghost predicate ValidHunk(w: Written) {
    ValidLayout(w.start, w.layout) && ValidBody(w.body)
  }

  function MeantHunk(w: Written): Hunk {
    Hunk(w.start, MeantLines(w.body))
  }

  function MeantHunks(ws: seq<Written>): seq<Hunk> {
    if ws == [] then [] else [MeantHunk(ws[0])] + MeantHunks(ws[1..])
  }

  function PrintHunk(w: Written): seq<string> {
    [PrintHeader(w.layout)] + (w.layout.skipped + PrintBody(w.body))
  }

  function PrintHunks(ws: seq<Written>): seq<string> {
    if ws == [] then [] else PrintHunk(ws[0]) + PrintHunks(ws[1..])
  }

  // ---------- Reading back what was printed ----------

  lemma {:induction false} TrimMarkersKeeps(head: string, tail: string)
    requires head != [] && head[|head| - 1] != '@'
    ensures head <= TrimMarkers(head + tail)
    decreases |tail|
  {
    var s := head + tail;
    if |s| >= 2 && s[|s| - 2..] == "@@" {
      assert s[|s| - 1] == '@' && s[|s| - 2] == '@';
      assert s[|head| - 1] == head[|head| - 1];
      assert s[..|s| - 2] == head + tail[..|tail| - 2];
      TrimMarkersKeeps(head, tail[..|tail| - 2]);
    }
  }

  lemma {:induction false} WordOf(word: string, tail: string)
    requires forall i :: 0 <= i < |word| ==> !IsWhitespace(word[i])
    requires tail != [] && IsWhitespace(tail[0])
    ensures Word(word + tail) == word
  {
    if word == [] {
      assert word + tail == tail;
    } else {
      assert (word + tail)[1..] == word[1..] + tail;
      WordOf(word[1..], tail);
    }
  }

  lemma {:induction false} TrimDashesKeeps(n: nat, s: string)
    requires s != "" && s[0] != '-'
    ensures TrimDashes(Dashes(n) + s) == s
  {
    if n == 0 {
      assert "" + s == s;
    } else {
      var all := Dashes(n) + s;
      assert all[0] == '-' && all[1..] == Dashes(n - 1) + s;
      TrimDashesKeeps(n - 1, s);
    }
  }

  lemma {:induction false} DashesOnly(n: nat)
    ensures forall i :: 0 <= i < |Dashes(n)| ==> Dashes(n)[i] == '-'
  {
    if n > 0 {
      DashesOnly(n - 1);
    }
  }

  /** A numeral is not empty, begins with a digit or a plus sign, and has digits after that. */
  lemma NumeralChars(numeral: string, start: nat)
    requires Spells(numeral, "", start) || Spells(numeral, "+", start)
    ensures numeral != "" && (IsDigit(numeral[0]) || numeral[0] == '+')
    ensures forall i :: 0 <= i < |numeral| ==> IsDigit(numeral[i]) || numeral[i] == '+'
  {
    hide Print, Value;
    if zeros :| numeral == "" + (Zeros(zeros) + Print(start)) {
      DigitsText(zeros, start);
    } else {
      var zeros :| numeral == "+" + (Zeros(zeros) + Print(start));
      DigitsText(zeros, start);
    }
  }

  lemma DigitsText(zeros: nat, n: nat)
    ensures var s := Zeros(zeros) + Print(n);
      s != "" && forall i :: 0 <= i < |s| ==> IsDigit(s[i])
  {
  }

  lemma WordChars(start: nat, layout: Layout)
    requires ValidLayout(start, layout)
    ensures var word := HeaderWord(layout);
      word != "" && forall i :: 0 <= i < |word| ==> !IsWhitespace(word[i])
    ensures layout.numeral != "" && layout.numeral[0] != '-' && ',' !in layout.numeral
  {
    hide Spells, Print;
    NumeralChars(layout.numeral, start);
    DashesOnly(layout.dashes);
  }

  lemma HeaderRoundTrip(start: nat, layout: Layout)
    requires ValidLayout(start, layout)
    ensures ParseHunkHeader(PrintHeader(layout)[2..]) == Some(Hunk(start, []))
  {
    hide Word, Split, TrimMarkers, TrimStart, TrimDashes, ParseUsize, HeaderWord, Spells, Dashes;
    var word, pad := HeaderWord(layout), layout.pad;
    var header := PrintHeader(layout)[2..];
    WordChars(start, layout);
    var head := pad + word + " ";
    assert header == head + layout.section && head[|head| - 1] == ' ';
    TrimMarkersKeeps(head, layout.section);
    var trimmed := TrimMarkers(header);
    var tail := trimmed[|pad| + |word|..];
    assert trimmed[..|head|] == head && tail[0] == head[|head| - 1];
    assert trimmed[..|pad| + |word|] == head[..|pad| + |word|] == pad + word;
    assert trimmed == pad + (word + tail);
    assert (word + tail)[0] == word[0];
    TrimStartPadded(pad, word + tail);
    WordOf(word, tail);
    HeaderNumber(start, layout);
  }

  function Markers(n: nat): string {
    if n == 0 then "" else Markers(n - 1) + "@@"
  }

  lemma {:induction false} TrimsAllMarkers(s: string, n: nat)
    requires s != "" && s[|s| - 1] != '@'
    ensures TrimMarkers(s + Markers(n)) == s
  {
    if n == 0 {
      assert s + "" == s;
    } else {
      var all := s + Markers(n);
      assert all == s + Markers(n - 1) + "@@" && all[..|all| - 2] == s + Markers(n - 1);
      TrimsAllMarkers(s, n - 1);
    }
  }

  lemma {:induction false} WordAlone(word: string)
    requires forall i :: 0 <= i < |word| ==> !IsWhitespace(word[i])
    ensures Word(word) == word
  {
    if word != [] {
      WordAlone(word[1..]);
      assert word == [word[0]] + word[1..];
    }
  }

  /** A header may also end right after its old range, or there in any number of markers. */
  lemma BareHeaderRoundTrip(start: nat, layout: Layout, n: nat)
    requires ValidLayout(start, layout)
    requires var word := HeaderWord(layout); word != "" ==> word[|word| - 1] != '@'
    ensures ParseHunkHeader(layout.pad + HeaderWord(layout) + Markers(n)) == Some(Hunk(start, []))
  {
    hide Split, TrimMarkers, TrimStart, TrimDashes, ParseUsize, HeaderWord, Spells, Dashes, Word;
    var word, pad := HeaderWord(layout), layout.pad;
    WordChars(start, layout);
    TrimsAllMarkers(pad + word, n);
    TrimStartPadded(pad, word);
    WordAlone(word);
    HeaderNumber(start, layout);
  }

  lemma HeaderNumber(start: nat, layout: Layout)
    requires ValidLayout(start, layout)
    ensures ParseUsize(Split(TrimDashes(HeaderWord(layout)), ',')[0]) == Some(start)
  {
    hide Split, TrimDashes, ParseUsize, Spells;
    var range := layout.numeral + layout.range;
    WordChars(start, layout);
    assert range[0] == layout.numeral[0];
    TrimDashesKeeps(layout.dashes, range);
    if layout.range == "" {
      assert range == layout.numeral;
      SplitFree(layout.numeral, ',');
    } else {
      assert range == layout.numeral + [','] + layout.range[1..];
      SplitFirst(layout.numeral, ',', layout.range[1..]);
    }
    UsizeIff(layout.numeral, start);
  }

  lemma {:induction false} ReadAppend(reader: Reader, xs: seq<string>, ys: seq<string>)
    ensures ReadLines(reader, xs + ys) ==
      match ReadLines(reader, xs) case None => None case Some(next) => ReadLines(next, ys)
    decreases |xs|
  {
    if xs == [] {
      assert xs + ys == ys;
    } else {
      assert (xs + ys)[1..] == xs[1..] + ys;
      var next := ReadLine(reader, xs[0]);
      if next.Some? {
        ReadAppend(next.value, xs[1..], ys);
      }
    }
  }

  lemma {:induction false} SkippedRead(reader: Reader, raws: seq<string>)
    requires reader.current.Some?
    requires forall i :: 0 <= i < |raws| ==> SaysNothing(raws[i]) || IsMarker(raws[i])
    requires reader.markerNext && raws != [] ==> SaysNothing(raws[0])
    ensures var r := ReadLines(reader, raws);
      r.Some? && r.value.hunks == reader.hunks && r.value.current == reader.current
    decreases |raws|
  {
    if raws != [] {
      assert SaysNothing(raws[0]) || IsMarker(raws[0]);
      SkippedRead(ReadLine(reader, raws[0]).value, raws[1..]);
    }
  }

  lemma {:induction false} MarkersRead(reader: Reader, hunk: Hunk, line: PatchLine, markers: seq<string>)
    requires reader.current == Some(Push(hunk, line.op, line.text)) && reader.markerNext == !line.op.Context?
    requires forall i :: 0 <= i < |markers| ==> IsMarker(markers[i])
    ensures var meant := Meant(BodyLine(line, markers, []));
      ReadLines(reader, markers) ==
        Some(Reader(reader.hunks, Some(Push(hunk, meant.op, meant.text)), reader.markerNext))
    decreases |markers|
  {
    if markers == [] {
      assert line.text + "" == line.text;
    } else {
      var n := |markers| - 1;
      MarkersRead(reader, hunk, line, markers[..n]);
      assert markers == markers[..n] + [markers[n]];
      ReadAppend(reader, markers[..n], [markers[n]]);
      var before := Meant(BodyLine(line, markers[..n], []));
      var pushed := Push(hunk, before.op, before.text);
      assert pushed.lines[|pushed.lines| - 1] == before;
      var between := Reader(reader.hunks, Some(pushed), reader.markerNext);
      ReadOne(between, markers[n]);
      if !line.op.Context? {
        assert MarkLast(pushed).lines == Push(hunk, before.op, before.text + "\n").lines;
        assert line.text + Newlines(n) + "\n" == line.text + (Newlines(n) + "\n");
      }
    }
  }

  lemma ReadOne(reader: Reader, raw: string)
    ensures ReadLines(reader, [raw]) == ReadLine(reader, raw)
  {
    assert [raw][1..] == [];
  }

  lemma BodyLineRead(reader: Reader, b: BodyLine)
    requires reader.current.Some? && ValidBody([b])
    ensures var r := ReadLines(reader, PrintBodyLine(b));
      && r.Some? && r.value.hunks == reader.hunks
      && r.value.current == Some(Push(reader.current.value, Meant(b).op, Meant(b).text))
  {
    hide ReadLines;
    assert b == [b][0];
    var raw := PrintLine(b.line);
    assert raw[1..] == b.line.text && raw[0] in " -+";
    assert !("@@" <= raw);
    var first := Reader(
      reader.hunks, Some(Push(reader.current.value, b.line.op, b.line.text)), !b.line.op.Context?);
    ReadOne(reader, raw);
    assert ReadLine(reader, raw) == Some(first);
    MarkersRead(first, reader.current.value, b.line, b.markers);
    var second := ReadLines(first, b.markers).value;
    SkippedRead(second, b.skipped);
    ReadAppend(first, b.markers, b.skipped);
    ReadAppend(reader, [raw], b.markers + b.skipped);
  }

  lemma {:induction false} BodyRead(reader: Reader, body: seq<BodyLine>)
    requires reader.current.Some? && ValidBody(body)
    ensures var r := ReadLines(reader, PrintBody(body));
      && r.Some? && r.value.hunks == reader.hunks
      && r.value.current == Some(Hunk(reader.current.value.start, reader.current.value.lines + MeantLines(body)))
    decreases |body|
  {
    var hunk := reader.current.value;
    if body == [] {
      assert hunk.lines + [] == hunk.lines;
    } else {
      hide ReadLines, ReadLine, PrintBody, Meant, PrintLine;
      var b := body[0];
      assert ValidBody([b]);
      BodyLineRead(reader, b);
      var between := ReadLines(reader, PrintBodyLine(b)).value;
      BodyRead(between, body[1..]);
      ReadAppend(reader, PrintBodyLine(b), PrintBody(body[1..]));
      PrintBodyFirst(body);
      ConcatAssociative(hunk.lines, [Meant(b)], MeantLines(body[1..]));
    }
  }

  lemma PrintBodyFirst(body: seq<BodyLine>)
    requires body != []
    ensures PrintBody(body) == PrintBodyLine(body[0]) + PrintBody(body[1..])
  {
  }

  lemma HunkRoundTrip(reader: Reader, w: Written)
    requires ValidHunk(w)
    ensures var r := ReadLines(reader, PrintHunk(w));
      r.Some? && Close(r.value) == Close(reader) + [MeantHunk(w)]
  {
    hide ReadLines, PrintBody, MeantLines;
    var header := PrintHeader(w.layout);
    HeaderRoundTrip(w.start, w.layout);
    assert header[0] == '@' && header[1] == '@';
    var begun := Reader(Close(reader), Some(Hunk(w.start, [])), false);
    ReadOne(reader, header);
    assert ReadLine(reader, header) == Some(begun);
    SkippedRead(begun, w.layout.skipped);
    var after := ReadLines(begun, w.layout.skipped).value;
    BodyRead(after, w.body);
    ReadAppend(begun, w.layout.skipped, PrintBody(w.body));
    ReadAppend(reader, [header], w.layout.skipped + PrintBody(w.body));
    assert [] + MeantLines(w.body) == MeantLines(w.body);
  }

  ghost predicate Reads(reader: Reader, raws: seq<string>, closed: seq<Hunk>) {
    ReadLines(reader, raws).Some? && Close(ReadLines(reader, raws).value) == closed
  }

  lemma ReadsOn(reader: Reader, xs: seq<string>, between: Reader, ys: seq<string>, closed: seq<Hunk>)
    requires ReadLines(reader, xs) == Some(between) && Reads(between, ys, closed)
    ensures Reads(reader, xs + ys, closed)
  {
    ReadAppend(reader, xs, ys);
  }

  lemma {:induction false} HunksRoundTrip(reader: Reader, ws: seq<Written>)
    requires forall i :: 0 <= i < |ws| ==> ValidHunk(ws[i])
    ensures Reads(reader, PrintHunks(ws), Close(reader) + MeantHunks(ws))
    decreases |ws|
  {
    if ws == [] {
      assert Close(reader) + [] == Close(reader);
    } else {
      hide ReadLines, PrintHunk, MeantHunk, ValidHunk, Close;
      HunkRoundTrip(reader, ws[0]);
      var between := ReadLines(reader, PrintHunk(ws[0])).value;
      HunksRoundTrip(between, ws[1..]);
      var closed := Close(between) + MeantHunks(ws[1..]);
      ConcatAssociative(Close(reader), [MeantHunk(ws[0])], MeantHunks(ws[1..]));
      ReadsOn(reader, PrintHunk(ws[0]), between, PrintHunks(ws[1..]), closed);
    }
  }

  lemma {:induction false} PreambleIgnored(reader: Reader, preamble: seq<string>)
    requires reader.current.None?
    requires forall i :: 0 <= i < |preamble| ==> !("@@" <= preamble[i])
    ensures var r := ReadLines(reader, preamble); r.Some? && Close(r.value) == Close(reader) && r.value.current.None?
    decreases |preamble|
  {
    if preamble != [] {
      assert !("@@" <= preamble[0]);
      var next := ReadLine(reader, preamble[0]);
      PreambleIgnored(next.value, preamble[1..]);
    }
  }

  /** Hunks are read back from any patch that writes them, whatever the file headers before them, the
      layout of their headers, the lines that say nothing, and the markers of missing newlines. */
  lemma PatchTextRoundTrip(preamble: seq<string>, ws: seq<Written>)
    requires forall i :: 0 <= i < |preamble| ==> !("@@" <= preamble[i])
    requires forall i :: 0 <= i < |ws| ==> ValidHunk(ws[i])
    ensures Parsed(preamble + PrintHunks(ws)) == Some(MeantHunks(ws))
  {
    PreambleIgnored(START, preamble);
    var reader := ReadLines(START, preamble).value;
    ReadAppend(START, preamble, PrintHunks(ws));
    HunksRoundTrip(reader, ws);
    assert Close(reader) + MeantHunks(ws) == MeantHunks(ws);
  }

  /** A header whose start is no number refuses the whole patch. */
  lemma BadHeaderRefuses(preamble: seq<string>, ws: seq<Written>, header: string, more: seq<string>)
    requires forall i :: 0 <= i < |preamble| ==> !("@@" <= preamble[i])
    requires forall i :: 0 <= i < |ws| ==> ValidHunk(ws[i])
    requires ParseHunkHeader(header) == None
    ensures Parsed(preamble + PrintHunks(ws) + ["@@" + header] + more) == None
  {
    hide ParseHunkHeader;
    PreambleIgnored(START, preamble);
    var reader := ReadLines(START, preamble).value;
    ReadAppend(START, preamble, PrintHunks(ws));
    HunksRoundTrip(reader, ws);
    var before := preamble + PrintHunks(ws);
    ReadAppend(START, before, ["@@" + header]);
    assert ("@@" + header)[2..] == header;
    ReadOne(ReadLines(START, before).value, "@@" + header);
    ReadAppend(START, before + ["@@" + header], more);
  }
}
