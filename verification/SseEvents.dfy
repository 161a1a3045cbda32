/** Events as a server writes them, and the payloads read back (crates/oc-client/src/sse.rs). */
module SseEvents {
  import opened Wrappers
  import opened Text
  import opened Sse
  import opened SseTheorems
  import opened SseCuts

  /** A line of an event: data after some white space, or another field or comment. */
  datatype Field = Data(pad: string, text: string) | Other(line: string)

  function LineOfField(f: Field): string {
    match f case Data(pad, text) => "data:" + (pad + text) case Other(line) => line
  }

  ghost predicate ValidField(f: Field) {
    && '\n' !in LineOfField(f) && LineOfField(f) != ""
    && match f
       case Data(pad, text) => AllWhitespace(pad) && (text == "" || !IsWhitespace(text[0]))
       case Other(line) => !("data:" <= line)
  }

  function Lines(fields: seq<Field>): seq<string> {
    if fields == [] then [] else [LineOfField(fields[0])] + Lines(fields[1..])
  }

  function Texts(fields: seq<Field>): seq<string> {
    if fields == [] then []
    else (if fields[0].Data? then [fields[0].text] else []) + Texts(fields[1..])
  }

  /** An event with each line ended, and the blank line that ends it. */
  function Written(events: seq<seq<Field>>): string {
    if events == [] then "" else Join(Lines(events[0]), "\n") + "\n\n" + Written(events[1..])
  }

  /** The data of the events that have any. */
  function DataOf(events: seq<seq<Field>>): seq<string> {
    if events == [] then []
    else
      var data := Join(Texts(events[0]), "\n");
      (if data != "" then [data] else []) + DataOf(events[1..])
  }

  ghost predicate ValidEvent(fields: seq<Field>) {
    fields != [] && forall i :: 0 <= i < |fields| ==> ValidField(fields[i])
  }

  lemma {:induction false} SplitJoined(lines: seq<string>)
    requires lines != [] && forall i :: 0 <= i < |lines| ==> '\n' !in lines[i]
    ensures Split(Join(lines, "\n"), '\n') == lines
  {
    if |lines| == 1 {
      SplitFree(lines[0], '\n');
    } else {
      SplitJoined(lines[1..]);
      SplitFirst(lines[0], '\n', Join(lines[1..], "\n"));
      assert lines == [lines[0]] + lines[1..];
    }
  }

  lemma {:induction false} LinesAre(fields: seq<Field>)
    ensures |Lines(fields)| == |fields|
    ensures forall i :: 0 <= i < |fields| ==> Lines(fields)[i] == LineOfField(fields[i])
  {
    if fields != [] {
      LinesAre(fields[1..]);
    }
  }

  lemma FieldData(f: Field)
    requires ValidField(f)
    ensures DataLines([LineOfField(f)]) == if f.Data? then [f.text] else []
  {
    var line := LineOfField(f);
    DataLine(line);
    if f.Data? {
      assert line[..5] == "data:" && line[5..] == f.pad + f.text;
      TrimStartPadded(f.pad, f.text);
    }
  }

  lemma {:induction false} DataLinesAre(fields: seq<Field>)
    requires forall i :: 0 <= i < |fields| ==> ValidField(fields[i])
    ensures DataLines(Lines(fields)) == Texts(fields)
  {
    hide ValidField, LineOfField;
    if fields != [] {
      DataLinesAre(fields[1..]);
      FieldData(fields[0]);
      DataLinesAppend([LineOfField(fields[0])], Lines(fields[1..]));
    }
  }

  /** The data of an event is its data lines, in order, joined by line ends. */
  lemma EventData(fields: seq<Field>)
    requires ValidEvent(fields)
    ensures ExtractData(Join(Lines(fields), "\n")) == Join(Texts(fields), "\n")
  {
    LinesAre(fields);
    SplitJoined(Lines(fields));
    DataLinesAre(fields);
  }

  /** Lines that are not empty have no blank line between them, and do not end in one begun. */
  lemma {:induction false} NoBlankInside(lines: seq<string>)
    requires lines != [] && forall i :: 0 <= i < |lines| ==> '\n' !in lines[i] && lines[i] != ""
    ensures var s := Join(lines, "\n");
      && s != "" && s[0] != '\n' && s[|s| - 1] != '\n'
      && forall i :: 0 <= i < |s| - 1 ==> !(s[i] == '\n' && s[i + 1] == '\n')
  {
    var first := lines[0];
    if |lines| > 1 {
      NoBlankInside(lines[1..]);
      var later := Join(lines[1..], "\n");
      var s := first + "\n" + later;
      forall i | 0 <= i < |s| - 1
        ensures !(s[i] == '\n' && s[i + 1] == '\n')
      {
        if i < |first| {
          assert s[i] == first[i];
        } else if i == |first| {
          assert s[i + 1] == later[0];
        } else {
          assert s[i] == later[i - |first| - 1] && s[i + 1] == later[i - |first|];
        }
      }
    }
  }

  lemma CutsEvent(block: string, rest: string)
    requires block != "" && block[|block| - 1] != '\n'
    requires forall i :: 0 <= i < |block| - 1 ==> !(block[i] == '\n' && block[i + 1] == '\n')
    ensures Cut(block + BLANK_LINE + rest) == Cutting([block] + Cut(rest).blocks, Cut(rest).rest)
  {
    var text := block + BLANK_LINE + rest;
    forall i | 0 <= i < |block|
      ensures !OccursAt(BLANK_LINE, text, i)
    {
      assert text[i..i + 2][0] == text[i] && text[i..i + 2][1] == text[i + 1];
      assert text[i] == block[i] && (i + 1 < |block| ==> text[i + 1] == block[i + 1]);
    }
    assert text[|block|..|block| + 2] == BLANK_LINE;
    FindIsFirst(text, BLANK_LINE, Some(|block|));
    assert text[..|block|] == block && text[|block| + 2..] == rest;
  }

  /** Whatever events a server writes, their data is read back: one payload for each event that has any. */
  lemma {:induction false} StreamRoundTrip(events: seq<seq<Field>>)
    requires forall i :: 0 <= i < |events| ==> ValidEvent(events[i])
    ensures TextPayloads(Written(events)) == DataOf(events)
    ensures Cut(Written(events)).rest == ""
  {
    if events == [] {
      FindIsFirst("", BLANK_LINE, None);
      NoDataInNothing();
    } else {
      StreamRoundTrip(events[1..]);
      OneEvent(events[0], Written(events[1..]));
    }
  }

  lemma OneEvent(fields: seq<Field>, rest: string)
    requires ValidEvent(fields)
    ensures var text, data := Join(Lines(fields), "\n") + BLANK_LINE + rest, Join(Texts(fields), "\n");
      TextPayloads(text) == Payload(data) + TextPayloads(rest) && Cut(text).rest == Cut(rest).rest
  {
    hide Cut, Lines, Texts, ExtractData, Join, Payloads, ValidEvent;
    var block, cut := Join(Lines(fields), "\n"), Cut(rest);
    EventLines(fields);
    NoBlankInside(Lines(fields));
    CutsEvent(block, rest);
    EventData(fields);
    ConcatAssociative([block], cut.blocks, [cut.rest]);
    PayloadsAppend([block], cut.blocks + [cut.rest]);
    OnePayload(block);
  }

  lemma OnePayload(block: string)
    ensures Payloads([block]) == Payload(ExtractData(block))
  {
    assert [block][1..] == [];
  }

  lemma EventLines(fields: seq<Field>)
    requires ValidEvent(fields)
    ensures Lines(fields) != []
    ensures forall i :: 0 <= i < |Lines(fields)| ==> '\n' !in Lines(fields)[i] && Lines(fields)[i] != ""
  {
    LinesAre(fields);
  }

  lemma NoDataInNothing()
    ensures TextPayloads("") == []
  {
    WholeBlock("");
    assert Split("", '\n') == [""];
    DataLine("");
  }
}
