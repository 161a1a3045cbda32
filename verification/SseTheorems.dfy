/** Decoding does not depend on how the stream is cut into chunks, as long as no cut follows a
    carriage return; exactly then the decoder sees the normalised stream. */
module SseTheorems {
  import opened Wrappers
  import opened Text
  import opened Sse

  function Reads(chunks: seq<string>): seq<Read> {
    seq(|chunks|, i requires 0 <= i < |chunks| => Chunk(chunks[i]))
  }

  /** No push makes the buffer longer than the limit. */
  predicate WithinLimit(buffer: string, chunks: seq<string>)
    decreases |chunks|
  {
    chunks != [] ==>
      var grown := Cut(buffer).rest + PushText(chunks[0]);
      Utf8Length(grown) <= MAX_BUFFER_BYTES && WithinLimit(grown, chunks[1..])
  }

  ghost predicate NoCutAfterCr(chunks: seq<string>) {
    forall chunk :: chunk in chunks ==> !EndsInCr(chunk)
  }

  // ---------- Cutting incrementally ----------

  lemma CutStepAppend(s: string, t: string, k: nat, later: Cutting, all: Cutting)
    requires Find(s, BLANK_LINE) == Some(k)
    requires later == Cut(s[k + 2..]) && all == Cut(s[k + 2..] + t)
    ensures Cut(s) == Cutting([s[..k]] + later.blocks, later.rest)
    ensures Cut(s + t) == Cutting([s[..k]] + all.blocks, all.rest)
  {
    FindAppend(s, t, BLANK_LINE);
    assert (s + t)[..k] == s[..k] && (s + t)[k + 2..] == s[k + 2..] + t;
  }

  /** Cutting a longer text is cutting what was left over, with the rest appended. */
  lemma {:induction false} CutAppend(s: string, t: string, first: Cutting, second: Cutting)
    requires first == Cut(s) && second == Cut(first.rest + t)
    ensures Cut(s + t) == Cutting(first.blocks + second.blocks, second.rest)
    decreases |s|, 1
  {
    if Find(s, BLANK_LINE).None? {
      assert Cutting([] + second.blocks, second.rest) == second;
    } else {
      CutAppendStep(s, t, Find(s, BLANK_LINE).value, first, second);
    }
  }

  lemma {:induction false} CutAppendStep(s: string, t: string, k: nat, first: Cutting, second: Cutting)
    requires Find(s, BLANK_LINE) == Some(k)
    requires first == Cut(s) && second == Cut(first.rest + t)
    ensures Cut(s + t) == Cutting(first.blocks + second.blocks, second.rest)
    decreases |s|, 0
  {
    var u := s[k + 2..];
    CutStepAppend(s, t, k, Cut(u), Cut(u + t));
    CutAppend(u, t, Cut(u), second);
    ConcatAssociative([s[..k]], Cut(u).blocks, second.blocks);
  }

  lemma {:induction false} DeliverAppend(xs: seq<string>, ys: seq<string>, later: Outcome, isJson: string -> bool)
    ensures Deliver(xs + ys, later, isJson) == Deliver(xs, Deliver(ys, later, isJson), isJson)
  {
    if xs == [] {
      assert xs + ys == ys;
    } else {
      assert (xs + ys)[1..] == xs[1..] + ys;
      DeliverAppend(xs[1..], ys, later, isJson);
    }
  }

  lemma {:induction false} PayloadsAppend(xs: seq<string>, ys: seq<string>)
    ensures Payloads(xs + ys) == Payloads(xs) + Payloads(ys)
  {
    hide ExtractData;
    if xs == [] {
      assert xs + ys == ys;
    } else {
      var all := xs + ys;
      assert all[0] == xs[0] && all[1..] == xs[1..] + ys;
      PayloadsAppend(xs[1..], ys);
      ConcatAssociative(
        if ExtractData(xs[0]) != "" then [ExtractData(xs[0])] else [], Payloads(xs[1..]), Payloads(ys));
    }
  }

  /** Reading in chunks is the same as having received all their text at once. */
  lemma {:induction false} RunIsWhole(buffer: string, chunks: seq<string>, isJson: string -> bool)
    requires WithinLimit(buffer, chunks)
    ensures Run(buffer, Reads(chunks), isJson) == Run(buffer + Received(chunks), [], isJson)
    decreases |chunks|
  {
    hide Cut, Deliver, Payloads, PushText, Utf8Length, DeliverBlock;
    if chunks == [] {
      assert buffer + Received(chunks) == buffer;
    } else {
      var cut, more := Cut(buffer), Received(chunks);
      var grown := cut.rest + PushText(chunks[0]);
      assert Reads(chunks)[1..] == Reads(chunks[1..]);
      RunIsWhole(grown, chunks[1..], isJson);
      assert grown + Received(chunks[1..]) == cut.rest + more;
      var tail := Cut(cut.rest + more);
      CutAppend(buffer, more, cut, tail);
      PayloadsAppend(cut.blocks, tail.blocks);
      DeliverAppend(Payloads(cut.blocks), Payloads(tail.blocks), Wait(tail.rest, [], isJson), isJson);
    }
  }

  /** A whole text yields the payloads of its blocks, the unterminated last one included. */
  lemma WholePayloads(text: string, isJson: string -> bool)
    ensures Run(text, [], isJson) == Deliver(TextPayloads(text), Outcome([], Finished), isJson)
  {
    hide Cut, ExtractData;
    var cut := Cut(text);
    PayloadsAppend(cut.blocks, [cut.rest]);
    DeliverAppend(Payloads(cut.blocks), Payloads([cut.rest]), Outcome([], Finished), isJson);
  }

  // ---------- Line endings across cuts ----------

  lemma {:induction false} CrLfToLfAppend(a: string, b: string)
    requires !EndsInCr(a)
    ensures CrLfToLf(a + b) == CrLfToLf(a) + CrLfToLf(b)
    decreases |a|
  {
    if a == [] {
      assert a + b == b;
    } else {
      hide CrLfToLf;
      var n := if a[0] == '\r' && a[1] == '\n' then 2 else 1;
      var whole, head := a + b, if n == 2 then '\n' else a[0];
      assert whole[0] == a[0] && whole[n..] == a[n..] + b && (|a| >= 2 ==> whole[1] == a[1]);
      CrLfToLfOnce(a, n);
      CrLfToLfOnce(whole, n);
      CrLfToLfAppend(a[n..], b);
      ConcatAssociative([head], CrLfToLf(a[n..]), CrLfToLf(b));
    }
  }

  lemma CrLfToLfOnce(s: string, n: nat)
    requires s != [] && n == if |s| >= 2 && s[0] == '\r' && s[1] == '\n' then 2 else 1
    ensures CrLfToLf(s) == [if n == 2 then '\n' else s[0]] + CrLfToLf(s[n..])
  {
  }

  lemma {:induction false} CrToLfAppend(a: string, b: string)
    ensures CrToLf(a + b) == CrToLf(a) + CrToLf(b)
  {
    if a == [] {
      assert a + b == b;
    } else {
      assert (a + b)[1..] == a[1..] + b;
      CrToLfAppend(a[1..], b);
    }
  }

  lemma {:induction false} NormalizedHasNoCr(s: string)
    ensures '\r' !in CrToLf(s)
  {
    if s != [] {
      NormalizedHasNoCr(s[1..]);
    }
  }

  lemma {:induction false} ReceivedHasCr(chunks: seq<string>, chunk: string)
    requires chunk in chunks && EndsInCr(chunk)
    ensures '\r' in Received(chunks)
  {
    if chunks[0] == chunk {
      assert PushText(chunk)[|PushText(chunk)| - 1] == '\r';
    } else {
      assert chunk in chunks[1..];
      ReceivedHasCr(chunks[1..], chunk);
    }
  }

  lemma {:induction false} ReceivedIsNormalized(chunks: seq<string>)
    requires NoCutAfterCr(chunks)
    ensures Received(chunks) == Normalize(Concat(chunks))
  {
    if chunks != [] {
      ReceivedIsNormalized(chunks[1..]);
      CrLfToLfAppend(chunks[0], Concat(chunks[1..]));
      CrToLfAppend(CrLfToLf(chunks[0]), CrLfToLf(Concat(chunks[1..])));
    }
  }

  /** The decoder works on the normalised stream exactly when no chunk ends in a carriage return. */
  lemma ReceivesNormalizedIff(chunks: seq<string>)
    ensures Received(chunks) == Normalize(Concat(chunks)) <==> NoCutAfterCr(chunks)
  {
    if NoCutAfterCr(chunks) {
      ReceivedIsNormalized(chunks);
    } else {
      var chunk :| chunk in chunks && EndsInCr(chunk);
      ReceivedHasCr(chunks, chunk);
      NormalizedHasNoCr(CrLfToLf(Concat(chunks)));
    }
  }

  // ---------- Chunk independence ----------

  /** Whatever the cutting, the outcome is that of decoding the normalised stream at once. */
  lemma ChunkIndependence(chunks: seq<string>, isJson: string -> bool)
    requires NoCutAfterCr(chunks) && WithinLimit("", chunks)
    ensures Run("", Reads(chunks), isJson)
         == Deliver(TextPayloads(Normalize(Concat(chunks))), Outcome([], Finished), isJson)
  {
    RunIsWhole("", chunks, isJson);
    ReceivesNormalizedIff(chunks);
    assert "" + Received(chunks) == Received(chunks);
    WholePayloads(Received(chunks), isJson);
  }

  lemma SameStreamSameOutcome(xs: seq<string>, ys: seq<string>, isJson: string -> bool)
    requires Concat(xs) == Concat(ys)
    requires NoCutAfterCr(xs) && WithinLimit("", xs)
    requires NoCutAfterCr(ys) && WithinLimit("", ys)
    ensures Run("", Reads(xs), isJson) == Run("", Reads(ys), isJson)
  {
    ChunkIndependence(xs, isJson);
    ChunkIndependence(ys, isJson);
  }

  lemma {:induction false} NormalizeFree(s: string)
    requires '\r' !in s
    ensures CrLfToLf(s) == s && CrToLf(s) == s
  {
    if s != [] {
      NormalizeFree(s[1..]);
    }
  }

  /** A cut inside a line ending loses an event boundary: two one-line events whose blank line is
      cut after its carriage return arrive as at most one payload. */
  lemma SplitCrLfDiverges(one: string, two: string, isJson: string -> bool)
    requires '\r' !in one + two && '\n' !in one + two
    requires ExtractData(one) != "" && ExtractData(two) != ""
    ensures var chunks := [one + "\n" + "\r", "\n" + two];
      && TextPayloads(Normalize(Concat(chunks))) == [ExtractData(one), ExtractData(two)]
      && |TextPayloads(Received(chunks))| <= 1
      && (WithinLimit("", chunks) ==> |Run("", Reads(chunks), isJson).payloads| <= 1)
      && (isJson(ExtractData(one)) && isJson(ExtractData(two)) ==>
        Deliver(TextPayloads(Normalize(Concat(chunks))), Outcome([], Finished), isJson)
        == Outcome([ExtractData(one), ExtractData(two)], Finished))
  {
    hide Run, TextPayloads, Normalize, Received, ExtractData, WithinLimit;
    var chunks := [one + "\n" + "\r", "\n" + two];
    SplitReceived(one, two);
    TwoBlocks(one, two);
    OneBlock(one, two);
    var data := [ExtractData(one), ExtractData(two)];
    assert data[1..] == [data[1]] && data[1..][1..] == [];
    if isJson(data[0]) && isJson(data[1]) {
      assert Deliver(data[1..], Outcome([], Finished), isJson) == Outcome([data[1]], Finished);
      assert Deliver(data, Outcome([], Finished), isJson) == Outcome([data[0]] + [data[1]], Finished);
    }
    if WithinLimit("", chunks) {
      RunIsWhole("", chunks, isJson);
      assert "" + Received(chunks) == Received(chunks);
      WholePayloads(Received(chunks), isJson);
      DeliversAtMost(TextPayloads(Received(chunks)), isJson);
    }
  }

  lemma {:induction false} DeliversAtMost(payloads: seq<string>, isJson: string -> bool)
    ensures |Deliver(payloads, Outcome([], Finished), isJson).payloads| <= |payloads|
  {
    if payloads != [] {
      DeliversAtMost(payloads[1..], isJson);
    }
  }

  /** What arrives, and what the stream was, when two lines are cut inside the line end between them. */
  lemma SplitReceived(one: string, two: string)
    requires '\r' !in one + two
    ensures var chunks := [one + "\n" + "\r", "\n" + two];
      && Received(chunks) == one + "\n" + ("\r" + "\n" + two)
      && Normalize(Concat(chunks)) == one + BLANK_LINE + two
  {
    hide CrLfToLf, CrToLf, Received, Concat;
    var head, tail := one + "\n", "\n" + two;
    HeldCr(head, tail);
    NormalizeFree(head);
    NormalizeFree(tail);
    JoinedCr(head, tail);
    assert head + tail == one + BLANK_LINE + two;
    assert head + "\r" + tail == one + "\n" + ("\r" + "\n" + two);
  }

  lemma JoinedCr(head: string, tail: string)
    requires '\r' !in head + tail && tail != [] && tail[0] == '\n'
    ensures Normalize(head + ("\r" + tail)) == head + tail
  {
    var rest := "\r" + tail;
    assert rest[2..] == tail[1..] && tail == ['\n'] + tail[1..];
    NormalizeFree(tail[1..]);
    NormalizeFree(head);
    CrLfToLfAppend(head, rest);
    NormalizeFree(head + tail);
  }

  lemma HeldCr(head: string, tail: string)
    requires !EndsInCr(tail)
    ensures Received([head + "\r", tail]) == Normalize(head) + "\r" + Normalize(tail)
    ensures Concat([head + "\r", tail]) == head + ("\r" + tail)
  {
    hide Normalize;
    assert (head + "\r")[..|head|] == head;
    assert [head + "\r", tail][1..] == [tail];
    assert Received([tail]) == Normalize(tail) && Concat([tail]) == tail;
  }

  lemma TwoBlocks(one: string, two: string)
    requires '\n' !in one + two
    requires ExtractData(one) != "" && ExtractData(two) != ""
    ensures TextPayloads(one + BLANK_LINE + two) == [ExtractData(one), ExtractData(two)]
  {
    var whole := one + BLANK_LINE + two;
    forall i | 0 <= i < |one|
      ensures !OccursAt(BLANK_LINE, whole, i)
    {
      assert whole[i..i + 2][0] == one[i];
    }
    FindIsFirst(whole, BLANK_LINE, Some(|one|));
    assert whole[..|one|] == one && whole[|one| + 2..] == two;
    NoBlankLine(two);
    assert Cut(two) == Cutting([], two);
    assert Cut(whole) == Cutting([one], two);
    PayloadsAppend([one], [two]);
    assert Payloads([one]) == [ExtractData(one)] && Payloads([two]) == [ExtractData(two)];
  }

  lemma OneBlock(one: string, two: string)
    requires '\n' !in one + two
    ensures |TextPayloads(one + "\n" + ("\r" + "\n" + two))| <= 1
  {
    var kept := one + "\n" + ("\r" + "\n" + two);
    forall i | 0 <= i
      ensures !OccursAt(BLANK_LINE, kept, i)
    {
      if i + 2 <= |kept| {
        var j := if i == |one| then i + 1 else if i == |one| + 2 then i + 1 else i;
        assert kept[i..i + 2][j - i] == kept[j];
        assert j < |one| ==> kept[j] == one[j];
        assert j >= |one| + 3 ==> kept[j] == two[j - |one| - 3];
      }
    }
    FindIsFirst(kept, BLANK_LINE, None);
    assert Cut(kept) == Cutting([], kept);
    assert [] + [kept] == [kept] && |Payloads([kept])| <= 1;
  }

  lemma NoBlankLine(line: string)
    requires '\n' !in line
    ensures Find(line, BLANK_LINE).None?
  {
    forall i | 0 <= i
      ensures !OccursAt(BLANK_LINE, line, i)
    {
      assert i + 2 <= |line| ==> line[i..i + 2][0] == line[i];
    }
    FindIsFirst(line, BLANK_LINE, None);
  }
}
