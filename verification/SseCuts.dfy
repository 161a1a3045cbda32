/** Where a stream of server-sent events may be cut (crates/oc-client/src/sse.rs). */
module SseCuts {
  import opened Wrappers
  import opened Text
  import opened Sse
  import opened SseTheorems

  /** A last line that shows whether the line end before it was recognised. */
  const PROBE := "data:x"

  // ---------- Lines and data ----------

  /** The lines but the last, and the last, of a text that begins with `c`, from those of the rest. */
  function FrontOf(c: char, before: seq<string>): seq<string> {
    if c == '\n' then [[]] + before else if before == [] then [] else [[c] + before[0]] + before[1..]
  }

  function LineOf(c: char, before: seq<string>, line: string): string {
    if c != '\n' && before == [] then [c] + line else line
  }

  /** Text without a line end goes on with the last line. */
  lemma {:induction false} SplitLast(s: string, t: string) returns (before: seq<string>, line: string)
    requires '\n' !in t
    ensures Split(s, '\n') == before + [line] && Split(s + t, '\n') == before + [line + t]
  {
    if s == [] {
      SplitFree(t, '\n');
      assert s + t == t;
      before, line := [], "";
    } else {
      hide Split, FrontOf, LineOf;
      var whole := s + t;
      assert whole[0] == s[0] && whole[1..] == s[1..] + t;
      var b, l := SplitLast(s[1..], t);
      SplitOn(s, b, l);
      SplitOn(whole, b, l + t);
      LineGoesOn(s[0], b, l, t);
      before, line := FrontOf(s[0], b), LineOf(s[0], b, l);
    }
  }

  lemma LineGoesOn(c: char, before: seq<string>, line: string, t: string)
    ensures LineOf(c, before, line + t) == LineOf(c, before, line) + t
  {
    ConcatAssociative([c], line, t);
  }

  lemma SplitOn(s: string, before: seq<string>, line: string)
    requires s != [] && Split(s[1..], '\n') == before + [line]
    ensures Split(s, '\n') == FrontOf(s[0], before) + [LineOf(s[0], before, line)]
  {
    ConcatAssociative([[]], before, [line]);
    if before != [] {
      assert (before + [line])[1..] == before[1..] + [line];
      ConcatAssociative([[s[0]] + before[0]], before[1..], [line]);
    }
  }

  lemma {:induction false} SplitLine(s: string, t: string)
    requires '\n' !in t
    ensures Split(s + ("\n" + t), '\n') == Split(s, '\n') + [t]
  {
    if s == [] {
      assert s + ("\n" + t) == "\n" + t && ("\n" + t)[1..] == t;
      SplitFree(t, '\n');
    } else {
      assert (s + ("\n" + t))[1..] == s[1..] + ("\n" + t);
      SplitLine(s[1..], t);
    }
  }

  lemma {:induction false} DataLinesAppend(xs: seq<string>, ys: seq<string>)
    ensures DataLines(xs + ys) == DataLines(xs) + DataLines(ys)
  {
    if xs == [] {
      assert xs + ys == ys;
    } else {
      assert (xs + ys)[1..] == xs[1..] + ys;
      DataLinesAppend(xs[1..], ys);
    }
  }

  lemma {:induction false} JoinSnoc(parts: seq<string>, last: string, separator: string)
    ensures Join(parts + [last], separator) == if parts == [] then last else Join(parts, separator) + separator + last
  {
    var all := parts + [last];
    if parts == [] {
      assert all == [last];
    } else {
      assert all[1..] == parts[1..] + [last];
      JoinSnoc(parts[1..], last, separator);
    }
  }

  lemma {:induction false} TrimStartKeeps(s: string, t: string)
    requires t != [] && !IsWhitespace(t[0])
    ensures var r := TrimStart(s + t); |r| >= |t| && r[|r| - |t|..] == t
  {
    if s == [] {
      assert s + t == t;
    } else {
      assert (s + t)[1..] == s[1..] + t;
      TrimStartKeeps(s[1..], t);
    }
  }

  lemma DataLine(line: string)
    ensures DataLines([line]) == if "data:" <= line then [TrimStart(line[5..])] else []
  {
    assert [line][1..] == [];
  }

  /** The probe after an unrecognised line end is part of the line before it. */
  lemma HeldLine(line: string)
    ensures |DataLines([line])| <= 1
    ensures var held := DataLines([line + "\r" + PROBE]);
      if DataLines([line]) == [] then held == []
      else |held| == 1 && |held[0]| >= 2 && held[0][|held[0]| - 2] == ':'
  {
    var held := line + "\r" + PROBE;
    DataLine(line);
    DataLine(held);
    if "data:" <= line {
      assert held[5..] == (line[5..] + "\r") + PROBE;
      TrimStartKeeps(line[5..] + "\r", PROBE);
      var r := TrimStart(held[5..]);
      assert r[|r| - |PROBE|..][4] == ':';
    } else if |line| < 5 {
      assert held[|line|] == '\r' && "data:"[|line|] != '\r';
    } else {
      assert held[..5] == line[..5];
    }
  }

  // ---------- The probe tells ----------

  lemma {:induction false} CutRest(s: string)
    ensures Find(Cut(s).rest, BLANK_LINE).None?
    decreases |s|
  {
    if Find(s, BLANK_LINE).Some? {
      CutRest(s[Find(s, BLANK_LINE).value + 2..]);
    }
  }

  lemma TextAfter(s: string, t: string)
    ensures TextPayloads(s + t) == Payloads(Cut(s).blocks) + TextPayloads(Cut(s).rest + t)
  {
    hide Cut, Payloads;
    var first := Cut(s);
    var second := Cut(first.rest + t);
    CutAppend(s, t, first, second);
    assert Cut(s + t).blocks == first.blocks + second.blocks && Cut(s + t).rest == second.rest;
    ConcatAssociative(first.blocks, second.blocks, [second.rest]);
    PayloadsAppend(first.blocks, second.blocks + [second.rest]);
  }

  function Payload(data: string): seq<string> {
    if data != "" then [data] else []
  }

  lemma WholeBlock(text: string)
    requires Find(text, BLANK_LINE).None?
    ensures TextPayloads(text) == Payload(ExtractData(text))
  {
    assert Cut(text) == Cutting([], text);
    assert [] + [text] == [text] && [text][1..] == [];
    assert Payloads([text]) == Payload(ExtractData(text));
  }

  lemma NoBlankLineIn(rest: string, tail: string)
    requires Find(rest, BLANK_LINE).None? && tail != [] && '\n' !in tail[1..]
    requires rest != [] && rest[|rest| - 1] == '\n' ==> tail[0] != '\n'
    ensures Find(rest + tail, BLANK_LINE).None?
  {
    var all := rest + tail;
    FindIsFirst(rest, BLANK_LINE, None);
    forall i | 0 <= i
      ensures !OccursAt(BLANK_LINE, all, i)
    {
      if i + 2 <= |rest| {
        assert all[i..i + 2] == rest[i..i + 2];
        assert !OccursAt(BLANK_LINE, rest, i);
      } else if i + 2 <= |all| {
        assert all[i..i + 2][0] == all[i] && all[i..i + 2][1] == all[i + 1];
        assert all[i + 1] == tail[i + 1 - |rest|];
        assert i + 1 > |rest| ==> tail[i + 1 - |rest|] in tail[1..];
      }
    }
    FindIsFirst(all, BLANK_LINE, None);
  }

  lemma HeldPayloads(rest: string, before: seq<string>, line: string)
    requires Find(rest, BLANK_LINE).None? && Split(rest, '\n') == before + [line]
    ensures TextPayloads(rest + ("\r" + PROBE)) ==
      Payload(Join(DataLines(before) + DataLines([line + "\r" + PROBE]), "\n"))
  {
    hide Find, Split, DataLines, TextPayloads, Join;
    NoBlankLineIn(rest, "\r" + PROBE);
    WholeBlock(rest + ("\r" + PROBE));
    var b, l := SplitLast(rest, "\r" + PROBE);
    assert (before + [line])[..|before|] == before && (b + [l])[..|b|] == b;
    assert line + ("\r" + PROBE) == line + "\r" + PROBE;
    DataLinesAppend(before, [line + "\r" + PROBE]);
  }

  /** After a line that is not empty, the probe goes on with the block. */
  lemma SameBlockPayloads(rest: string, lines: seq<string>)
    requires Find(rest, BLANK_LINE).None? && Split(rest, '\n') == lines
    requires rest == [] || rest[|rest| - 1] != '\n'
    ensures TextPayloads(rest + ("\n" + PROBE)) == [Join(DataLines(lines) + ["x"], "\n")]
  {
    NoBlankLineIn(rest, "\n" + PROBE);
    WholeBlock(rest + ("\n" + PROBE));
    SplitLine(rest, PROBE);
    DataLinesAppend(lines, [PROBE]);
    ProbeLine();
    JoinSnoc(DataLines(lines), "x", "\n");
  }

  lemma ProbeLine()
    ensures DataLines([PROBE]) == ["x"]
  {
    DataLine(PROBE);
    assert PROBE[5..] == "x";
  }

  /** After an empty line, the probe is an event of its own. */
  lemma NextBlockPayloads(rest: string, front: string)
    requires Find(rest, BLANK_LINE).None? && rest == front + "\n"
    ensures TextPayloads(rest + ("\n" + PROBE)) == Payload(ExtractData(front)) + ["x"]
  {
    var all := rest + ("\n" + PROBE);
    FindIsFirst(rest, BLANK_LINE, None);
    forall i | 0 <= i < |front|
      ensures !OccursAt(BLANK_LINE, all, i)
    {
      assert all[i..i + 2] == rest[i..i + 2];
      assert !OccursAt(BLANK_LINE, rest, i);
    }
    assert all[|front|..|front| + 2] == BLANK_LINE;
    FindIsFirst(all, BLANK_LINE, Some(|front|));
    assert all[..|front|] == front && all[|front| + 2..] == PROBE;
    NoBlankLine(PROBE);
    assert Cut(PROBE) == Cutting([], PROBE);
    assert Cut(all) == Cutting([front], PROBE);
    PayloadsAppend([front], [PROBE]);
    ProbeLine();
    SplitFree(PROBE, '\n');
    assert [front][1..] == [] && [PROBE][1..] == [];
    assert ExtractData(PROBE) == "x";
  }

  lemma RestTells(rest: string)
    requires Find(rest, BLANK_LINE).None?
    ensures TextPayloads(rest + ("\r" + PROBE)) != TextPayloads(rest + ("\n" + PROBE))
  {
    hide TextPayloads, Split, Find, DataLines;
    var lines := Split(rest, '\n');
    var before, line := lines[..|lines| - 1], lines[|lines| - 1];
    assert lines == before + [line];
    HeldPayloads(rest, before, line);
    HeldLine(line);
    if rest != [] && rest[|rest| - 1] == '\n' {
      var front := rest[..|rest| - 1];
      assert rest == front + "\n" && "\n" + "" == "\n";
      SplitLine(front, "");
      assert before == Split(front, '\n') && line == "";
      NextBlockPayloads(rest, front);
      NoData();
      assert DataLines(before) + [] == DataLines(before);
    } else {
      SameBlockPayloads(rest, lines);
      DataLinesAppend(before, [line]);
      JoinsDiffer(DataLines(before), DataLines([line]), DataLines([line + "\r" + PROBE]));
    }
  }

  lemma NoData()
    ensures DataLines([""]) == []
  {
    DataLine("");
  }

  lemma JoinsDiffer(data: seq<string>, last: seq<string>, held: seq<string>)
    requires |last| <= 1
    requires if last == [] then held == [] else |held| == 1 && |held[0]| >= 2 && held[0][|held[0]| - 2] == ':'
    ensures Payload(Join(data + held, "\n")) != [Join(data + last + ["x"], "\n")]
  {
    hide Join;
    var shown := Join(data + last + ["x"], "\n");
    NoParts();
    JoinSnoc(data + last, "x", "\n");
    if last == [] {
      assert data + held == data && data + last == data;
      assert data != [] ==> |shown| > |Join(data, "\n")|;
    } else {
      assert held == [held[0]];
      JoinSnoc(data, held[0], "\n");
      var joined := Join(data + held, "\n");
      assert joined[|joined| - 2] == ':';
      assert shown[|shown| - 2] == '\n';
    }
  }

  lemma NoParts()
    ensures Join([], "\n") == ""
  {
  }

  lemma ProbeTells(text: string)
    ensures TextPayloads(text + ("\r" + PROBE)) != TextPayloads(text + ("\n" + PROBE))
  {
    hide TextPayloads, Cut, Payloads;
    CutRest(text);
    TextAfter(text, "\r" + PROBE);
    TextAfter(text, "\n" + PROBE);
    RestTells(Cut(text).rest);
    SameFront(Payloads(Cut(text).blocks),
              TextPayloads(Cut(text).rest + ("\r" + PROBE)), TextPayloads(Cut(text).rest + ("\n" + PROBE)));
  }

  lemma SameFront<T>(front: seq<T>, x: seq<T>, y: seq<T>)
    ensures front + x == front + y ==> x == y
  {
    assert (front + x)[|front|..] == x && (front + y)[|front|..] == y;
  }

  // ---------- Safe cuts ----------

  lemma {:induction false} CrLfToLfApart(a: string, b: string)
    requires b != [] ==> b[0] != '\n'
    ensures CrLfToLf(a + b) == CrLfToLf(a) + CrLfToLf(b)
    decreases |a|
  {
    hide CrLfToLf;
    if EndsInCr(a) {
      var front, tail := a[..|a| - 1], "\r" + b;
      assert a == front + "\r" && a + b == front + tail && tail[1..] == b && "\r"[1..] == [];
      CrLfToLfApart(front, "\r");
      CrLfToLfApart(front, tail);
      CrLfToLfOnce(tail, 1);
      CrLfToLfOnce("\r", 1);
      CrLfToLfNone();
    } else {
      CrLfToLfAppend(a, b);
    }
  }

  lemma CrLfToLfNone()
    ensures CrLfToLf([]) == []
  {
  }

  lemma NormalizeProbe(text: string)
    ensures Normalize(text + "\r" + PROBE) == Normalize(text) + ("\n" + PROBE)
    ensures Received([text + "\r", PROBE]) == Normalize(text) + ("\r" + PROBE)
  {
    hide CrLfToLf, CrToLf, Received;
    var tail := "\r" + PROBE;
    assert text + "\r" + PROBE == text + tail;
    CrLfToLfApart(text, tail);
    ProbeEnd();
    CrToLfAppend(CrLfToLf(text), CrLfToLf(tail));
    HeldCr(text, PROBE);
    assert Normalize(text) + "\r" + PROBE == Normalize(text) + tail;
  }

  lemma ProbeEnd()
    ensures Normalize("\r" + PROBE) == "\n" + PROBE && Normalize(PROBE) == PROBE
  {
    NormalizeFree(PROBE);
    assert ("\r" + PROBE)[1..] == PROBE;
    assert CrLfToLf("\r" + PROBE) == "\r" + PROBE;
  }

  lemma {:induction false} DeliverAll(payloads: seq<string>, isJson: string -> bool)
    requires forall p :: isJson(p)
    ensures Deliver(payloads, Outcome([], Finished), isJson) == Outcome(payloads, Finished)
  {
    if payloads != [] {
      DeliverAll(payloads[1..], isJson);
    }
  }

  ghost predicate CutsSafely(prefix: string, rest: string, isJson: string -> bool) {
    Run("", Reads([prefix, rest]), isJson)
      == Deliver(TextPayloads(Normalize(prefix + rest)), Outcome([], Finished), isJson)
  }

  ghost predicate SamePayloads(prefix: string, rest: string) {
    TextPayloads(Received([prefix, rest])) == TextPayloads(Normalize(prefix + rest))
  }

  /** Cutting after a prefix leaves the payloads alone, whatever follows, exactly when the prefix does not
      end in a carriage return. */
  lemma SafePayloadsIff(prefix: string)
    ensures (forall rest :: !EndsInCr(rest) ==> SamePayloads(prefix, rest)) <==> !EndsInCr(prefix)
  {
    hide TextPayloads, Normalize, Received;
    if EndsInCr(prefix) {
      SeenNotMeant(prefix);
      assert !EndsInCr(PROBE) && !SamePayloads(prefix, PROBE);
    } else {
      forall rest | !EndsInCr(rest)
        ensures SamePayloads(prefix, rest)
      {
        ConcatTwo(prefix, rest);
        ReceivesNormalizedIff([prefix, rest]);
      }
    }
  }

  /** A stream may be cut after a prefix, whatever follows, without a change in what the consumer observes
      exactly when the prefix does not end in a carriage return. */
  lemma SafeCutIff(prefix: string)
    requires WithinLimit("", [prefix, PROBE])
    ensures (forall rest, isJson ::
      !EndsInCr(rest) && WithinLimit("", [prefix, rest]) ==> CutsSafely(prefix, rest, isJson)) <==> !EndsInCr(prefix)
  {
    hide Run, TextPayloads, Normalize, Deliver, WithinLimit, Received;
    if EndsInCr(prefix) {
      UnsafeCut(prefix, _ => true);
      assert !EndsInCr(PROBE);
    } else {
      forall rest, isJson: string -> bool | !EndsInCr(rest) && WithinLimit("", [prefix, rest])
        ensures CutsSafely(prefix, rest, isJson)
      {
        ConcatTwo(prefix, rest);
        ChunkIndependence([prefix, rest], isJson);
      }
    }
  }

  lemma ConcatTwo(a: string, b: string)
    ensures Concat([a, b]) == a + b
  {
    assert [a, b][1..] == [b] && [b][1..] == [];
    assert Concat([b]) == b;
  }

  lemma SeenNotMeant(prefix: string)
    requires EndsInCr(prefix)
    ensures TextPayloads(Received([prefix, PROBE])) != TextPayloads(Normalize(prefix + PROBE))
  {
    hide Received, Normalize, TextPayloads;
    var text := prefix[..|prefix| - 1];
    assert prefix == text + "\r" && [prefix, PROBE] == [text + "\r", PROBE];
    assert prefix + PROBE == text + "\r" + PROBE;
    NormalizeProbe(text);
    ProbeTells(Normalize(text));
  }

  /** A consumer to whom every payload is good sees all that was received. */
  lemma SeesReceived(chunks: seq<string>, isJson: string -> bool)
    requires WithinLimit("", chunks) && forall p :: isJson(p)
    ensures Run("", Reads(chunks), isJson) == Outcome(TextPayloads(Received(chunks)), Finished)
  {
    hide Received, TextPayloads, Run;
    RunIsWhole("", chunks, isJson);
    assert "" + Received(chunks) == Received(chunks);
    WholePayloads(Received(chunks), isJson);
    DeliverAll(TextPayloads(Received(chunks)), isJson);
  }

  lemma UnsafeCut(prefix: string, isJson: string -> bool)
    requires EndsInCr(prefix) && WithinLimit("", [prefix, PROBE]) && forall p :: isJson(p)
    ensures !CutsSafely(prefix, PROBE, isJson)
  {
    SeenNotMeant(prefix);
    SeesReceived([prefix, PROBE], isJson);
    DeliverAll(TextPayloads(Normalize(prefix + PROBE)), isJson);
  }
}
