/** How a stream of server-sent events ends, and with which payloads (crates/oc-client/src/sse.rs). */
module SseEnds {
  import opened Wrappers
  import opened Text
  import opened Sse
  import opened SseTheorems

  ghost predicate AllGood(payloads: seq<string>, isJson: string -> bool) {
    forall i :: 0 <= i < |payloads| ==> isJson(payloads[i])
  }

  /** What is handed out of some payloads, and how reading ends if it would otherwise end as `end`. */
  ghost predicate Hands(payloads: seq<string>, end: End, isJson: string -> bool, outcome: Outcome) {
    if AllGood(payloads, isJson) then outcome == Outcome(payloads, end)
    else
      exists i :: 0 <= i < |payloads| && AllGood(payloads[..i], isJson) && !isJson(payloads[i])
        && outcome == Outcome(payloads[..i], Failed(BadPayload))
  }

  lemma {:induction false} DeliverHands(payloads: seq<string>, end: End, isJson: string -> bool)
    ensures Hands(payloads, end, isJson, Deliver(payloads, Outcome([], end), isJson))
  {
    if payloads != [] {
      hide Hands;
      DeliverHands(payloads[1..], end, isJson);
      assert payloads == [payloads[0]] + payloads[1..];
      HandsOneMore(payloads[0], payloads[1..], end, isJson, Deliver(payloads[1..], Outcome([], end), isJson));
    }
  }

  lemma HandsOneMore(payload: string, later: seq<string>, end: End, isJson: string -> bool, r: Outcome)
    requires Hands(later, end, isJson, r)
    ensures Hands([payload] + later, end, isJson,
                  if isJson(payload) then Before(payload, r) else Outcome([], Failed(BadPayload)))
  {
    var all := [payload] + later;
    assert all[0] == payload && all[..0] == [];
    AllGoodCons(payload, later, isJson);
    if isJson(payload) && !AllGood(later, isJson) {
      var i :| 0 <= i < |later| && AllGood(later[..i], isJson) && !isJson(later[i])
        && r == Outcome(later[..i], Failed(BadPayload));
      assert all[..i + 1] == [payload] + later[..i] && all[i + 1] == later[i];
      AllGoodCons(payload, later[..i], isJson);
    }
  }

  lemma AllGoodCons(payload: string, later: seq<string>, isJson: string -> bool)
    ensures AllGood([payload] + later, isJson) <==> isJson(payload) && AllGood(later, isJson)
  {
    var all := [payload] + later;
    assert all[0] == payload;
    assert forall i :: 0 <= i < |later| ==> all[i + 1] == later[i];
    assert forall i :: 1 <= i < |all| ==> all[i] == later[i - 1];
  }

  // ---------- After some chunks ----------

  /** Reading chunks and then something else: their complete blocks, and then what follows. */
  lemma {:induction false} RunAfter(buffer: string, chunks: seq<string>, more: seq<Read>, isJson: string -> bool)
    requires WithinLimit(buffer, chunks)
    ensures Run(buffer, Reads(chunks) + more, isJson) == Run(buffer + Received(chunks), more, isJson)
    decreases |chunks|
  {
    hide Cut, Deliver, Payloads, PushText, Utf8Length, DeliverBlock;
    if chunks == [] {
      assert buffer + Received(chunks) == buffer && Reads(chunks) + more == more;
    } else {
      var cut, received := Cut(buffer), Received(chunks);
      var grown := cut.rest + PushText(chunks[0]);
      var pending := Reads(chunks) + more;
      assert pending[0] == Chunk(chunks[0]) && pending[1..] == Reads(chunks[1..]) + more;
      RunAfter(grown, chunks[1..], more, isJson);
      assert grown + Received(chunks[1..]) == cut.rest + received;
      var tail := Cut(cut.rest + received);
      CutAppend(buffer, received, cut, tail);
      PayloadsAppend(cut.blocks, tail.blocks);
      DeliverAppend(Payloads(cut.blocks), Payloads(tail.blocks), Wait(tail.rest, more, isJson), isJson);
    }
  }

  /** The payloads of the complete blocks of what was received. */
  function Complete(chunks: seq<string>): seq<string> {
    Payloads(Cut(Received(chunks)).blocks)
  }

  lemma RunAfterChunks(chunks: seq<string>, more: seq<Read>, isJson: string -> bool)
    requires WithinLimit("", chunks)
    ensures Run("", Reads(chunks) + more, isJson)
      == Deliver(Complete(chunks), Wait(Cut(Received(chunks)).rest, more, isJson), isJson)
  {
    hide Received, Cut, Payloads, Deliver, Wait;
    RunAfter("", chunks, more, isJson);
    assert "" + Received(chunks) == Received(chunks);
  }

  /** A connection that drops: the payloads of the complete blocks, not the unterminated rest, and then the
      failure. */
  lemma DropsAfter(chunks: seq<string>, more: seq<Read>, isJson: string -> bool)
    requires WithinLimit("", chunks)
    ensures Hands(Complete(chunks), Failed(Transport), isJson, Run("", Reads(chunks) + [Broken] + more, isJson))
  {
    hide Received, Cut, Payloads, Deliver, Run, Hands;
    ConcatAssociative(Reads(chunks), [Broken], more);
    RunAfterChunks(chunks, [Broken] + more, isJson);
    DeliverHands(Complete(chunks), Failed(Transport), isJson);
  }

  /** The unterminated rest with the chunk is over one megabyte of UTF-8. */
  ghost predicate Overflows(chunks: seq<string>, chunk: string) {
    Utf8Length(Cut(Received(chunks)).rest + PushText(chunk)) > 0x10_0000
  }

  function From(s: string, c: char): nat {
    if s == [] then 0 else (if s[0] >= c then 1 else 0) + From(s[1..], c)
  }

  /** A character takes a byte, and one more each from U+0080, U+0800 and U+10000 on. */
  lemma {:induction false} BytesAre(s: string)
    ensures Utf8Length(s) == |s| + From(s, '\U{80}') + From(s, '\U{800}') + From(s, '\U{10000}')
  {
    if s != [] {
      BytesAre(s[1..]);
    }
  }

  /** A chunk that makes the unterminated rest too long: the payloads of the blocks complete before it, and
      then the failure. */
  lemma OverflowsAfter(chunks: seq<string>, chunk: string, more: seq<Read>, isJson: string -> bool)
    requires WithinLimit("", chunks) && Overflows(chunks, chunk)
    ensures Hands(Complete(chunks), Failed(BufferOverflow), isJson,
                  Run("", Reads(chunks) + [Chunk(chunk)] + more, isJson))
  {
    hide Received, Cut, Payloads, Deliver, Utf8Length, PushText, Run, Hands;
    ConcatAssociative(Reads(chunks), [Chunk(chunk)], more);
    RunAfterChunks(chunks, [Chunk(chunk)] + more, isJson);
    DeliverHands(Complete(chunks), Failed(BufferOverflow), isJson);
  }

  /** A body that ends: the payloads of all blocks, the unterminated one included. */
  lemma ClosesAfter(chunks: seq<string>, isJson: string -> bool)
    requires WithinLimit("", chunks)
    ensures Hands(TextPayloads(Received(chunks)), Finished, isJson, Run("", Reads(chunks), isJson))
  {
    hide Received, TextPayloads, Deliver;
    RunIsWhole("", chunks, isJson);
    assert "" + Received(chunks) == Received(chunks);
    WholePayloads(Received(chunks), isJson);
    DeliverHands(TextPayloads(Received(chunks)), Finished, isJson);
  }

  // ---------- Every stream ----------

  datatype Ending = Closes | Drops | Overruns

  /** A stream is some chunks within the limit, and then its end, a failure, or a chunk too long. */
  ghost predicate IsStream(pending: seq<Read>, chunks: seq<string>, ending: Ending) {
    && WithinLimit("", chunks) && |chunks| <= |pending| && Reads(chunks) == pending[..|chunks|]
    && match ending
       case Closes => |chunks| == |pending|
       case Drops => |chunks| < |pending| && pending[|chunks|] == Broken
       case Overruns =>
         |chunks| < |pending| && pending[|chunks|].Chunk? && Overflows(chunks, pending[|chunks|].text)
  }

  lemma {:induction false} WithinSnoc(buffer: string, chunks: seq<string>, chunk: string)
    requires WithinLimit(buffer, chunks)
    ensures WithinLimit(buffer, chunks + [chunk]) <==>
      Utf8Length(Cut(buffer + Received(chunks)).rest + PushText(chunk)) <= MAX_BUFFER_BYTES
    decreases |chunks|
  {
    hide Cut, Utf8Length, PushText;
    var all := chunks + [chunk];
    if chunks == [] {
      assert all == [chunk] && all[1..] == [] && buffer + Received(chunks) == buffer;
    } else {
      var cut, received := Cut(buffer), Received(chunks);
      var grown := cut.rest + PushText(chunks[0]);
      assert all[0] == chunks[0] && all[1..] == chunks[1..] + [chunk];
      WithinSnoc(grown, chunks[1..], chunk);
      assert grown + Received(chunks[1..]) == cut.rest + received;
      CutAppend(buffer, received, cut, Cut(cut.rest + received));
    }
  }

  /** Every stream is of one of the three kinds. */
  lemma {:induction false} EveryStream(pending: seq<Read>) returns (chunks: seq<string>, ending: Ending)
    ensures IsStream(pending, chunks, ending)
    decreases |pending|
  {
    if pending == [] {
      chunks, ending := [], Closes;
    } else {
      hide IsStream;
      var n := |pending| - 1;
      chunks, ending := EveryStream(pending[..n]);
      if ending.Closes? {
        chunks, ending := OneMoreRead(pending, chunks);
      } else {
        EndedBefore(pending, chunks, ending);
      }
    }
  }

  lemma EndedBefore(pending: seq<Read>, chunks: seq<string>, ending: Ending)
    requires pending != [] && IsStream(pending[..|pending| - 1], chunks, ending) && !ending.Closes?
    ensures IsStream(pending, chunks, ending)
  {
    hide WithinLimit, Overflows;
    assert pending[..|pending| - 1][..|chunks|] == pending[..|chunks|];
  }

  lemma OneMoreRead(pending: seq<Read>, before: seq<string>) returns (chunks: seq<string>, ending: Ending)
    requires pending != [] && IsStream(pending[..|pending| - 1], before, Closes)
    ensures IsStream(pending, chunks, ending)
  {
    hide WithinLimit, Received, Cut, Utf8Length, PushText;
    var n := |pending| - 1;
    assert |before| == n && Reads(before) == pending[..n];
    match pending[n]
    case Broken =>
      chunks, ending := before, Drops;
    case Chunk(text) =>
      WithinSnoc("", before, text);
      assert "" + Received(before) == Received(before);
      if Overflows(before, text) {
        chunks, ending := before, Overruns;
      } else {
        chunks, ending := before + [text], Closes;
        assert Reads(chunks) == pending && pending[..|pending|] == pending;
      }
  }

  /** How a stream ends, and what was handed out before, in terms of what was received: a payload that is no
      JSON text ends it first, and otherwise its own ending does. */
  lemma StreamEnds(pending: seq<Read>, chunks: seq<string>, ending: Ending, isJson: string -> bool)
    requires IsStream(pending, chunks, ending)
    ensures Hands(
      if ending.Closes? then TextPayloads(Received(chunks)) else Complete(chunks),
      match ending
      case Closes => Finished
      case Drops => Failed(Transport)
      case Overruns => Failed(BufferOverflow),
      isJson, Run("", pending, isJson))
  {
    hide WithinLimit, Received, Cut, TextPayloads, Run, Overflows, Hands;
    var n := |chunks|;
    match ending
    case Closes =>
      assert pending == Reads(chunks);
      ClosesAfter(chunks, isJson);
    case Drops =>
      assert pending == Reads(chunks) + [Broken] + pending[n + 1..];
      DropsAfter(chunks, pending[n + 1..], isJson);
    case Overruns =>
      assert pending == Reads(chunks) + [pending[n]] + pending[n + 1..];
      OverflowsAfter(chunks, pending[n].text, pending[n + 1..], isJson);
  }

  /** Exactly when a stream ends in each of the four ways. */
  lemma EndIff(pending: seq<Read>, chunks: seq<string>, ending: Ending, isJson: string -> bool)
    requires IsStream(pending, chunks, ending)
    ensures var end := Run("", pending, isJson).end;
      var good := AllGood(if ending.Closes? then TextPayloads(Received(chunks)) else Complete(chunks), isJson);
      && (end == Finished <==> ending.Closes? && good)
      && (end == Failed(Transport) <==> ending.Drops? && good)
      && (end == Failed(BufferOverflow) <==> ending.Overruns? && good)
      && (end == Failed(BadPayload) <==> !good)
  {
    hide Run, TextPayloads, Received, Complete, IsStream;
    StreamEnds(pending, chunks, ending, isJson);
  }
}
