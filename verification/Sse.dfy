/** The incremental Server-Sent Events decoder (crates/oc-client/src/sse.rs).

    A stream is a queue of reads. `Run` says what a consumer of the decoder observes: the payloads
    handed out, in order, and how the stream ends. */
module Sse {
  import opened Wrappers
  import opened Text

  const MAX_BUFFER_BYTES := 1_048_576

  const BLANK_LINE := "\n\n"

  /** One `chunk()` of the response body; an exhausted queue stands for the end of the body. */
  datatype Read = Chunk(text: string) | Broken

  datatype ClientError = BufferOverflow | BadPayload | Transport

  datatype End = Finished | Failed(error: ClientError)

  datatype Outcome = Outcome(payloads: seq<string>, end: End)

  // ---------- Line endings ----------

  /** `replace("\r\n", "\n")` */
  function CrLfToLf(s: string): string {
    if s == [] then []
    else if |s| >= 2 && s[0] == '\r' && s[1] == '\n' then ['\n'] + CrLfToLf(s[2..])
    else [s[0]] + CrLfToLf(s[1..])
  }

  /** `replace('\r', "\n")` */
  function CrToLf(s: string): string {
    if s == [] then []
    else [if s[0] == '\r' then '\n' else s[0]] + CrToLf(s[1..])
  }

  function Normalize(s: string): string {
    CrToLf(CrLfToLf(s))
  }

  predicate EndsInCr(s: string) {
    s != [] && s[|s| - 1] == '\r'
  }

  /** What `push_chunk` appends to the buffer. */
  function PushText(chunk: string): string {
    if EndsInCr(chunk) then Normalize(chunk[..|chunk| - 1]) + "\r" else Normalize(chunk)
  }

  /** The text the decoder works on: what all the chunks contribute to the buffer. */
  function Received(chunks: seq<string>): string {
    if chunks == [] then "" else PushText(chunks[0]) + Received(chunks[1..])
  }

  // ---------- Blocks and payloads ----------

  datatype Cutting = Cutting(blocks: seq<string>, rest: string)

  /** All complete blocks at the front of `text`, and what is left. */
  function Cut(text: string): Cutting
    decreases |text|
  {
    match Find(text, BLANK_LINE)
    case None => Cutting([], text)
    case Some(k) =>
      var later := Cut(text[k + 2..]);
      Cutting([text[..k]] + later.blocks, later.rest)
  }

  /** The `data:` lines of a block, each without its prefix and leading white space. */
  function DataLines(lines: seq<string>): seq<string> {
    if lines == [] then []
    else (if "data:" <= lines[0] then [TrimStart(lines[0][5..])] else []) + DataLines(lines[1..])
  }

  function ExtractData(block: string): string {
    Join(DataLines(Split(block, '\n')), "\n")
  }

  /** The data of those blocks that have any. */
  function Payloads(blocks: seq<string>): seq<string> {
    if blocks == [] then []
    else
      var data := ExtractData(blocks[0]);
      (if data != "" then [data] else []) + Payloads(blocks[1..])
  }

  /** The payloads of a whole text, its final unterminated block included. */
  function TextPayloads(text: string): seq<string> {
    Payloads(Cut(text).blocks + [Cut(text).rest])
  }

  // ---------- What a consumer observes ----------

  function Before(payload: string, later: Outcome): Outcome {
    Outcome([payload] + later.payloads, later.end)
  }

  /** Hands out payloads up to the first that is no JSON text, then behaves as `later`. */
  function Deliver(payloads: seq<string>, later: Outcome, isJson: string -> bool): Outcome {
    if payloads == [] then later
    else if !isJson(payloads[0]) then Outcome([], Failed(BadPayload))
    else Before(payloads[0], Deliver(payloads[1..], later, isJson))
  }

  function DeliverBlock(block: string, later: Outcome, isJson: string -> bool): Outcome {
    var data := ExtractData(block);
    if data == "" then later
    else if isJson(data) then Before(data, later)
    else Outcome([], Failed(BadPayload))
  }

  function Utf8Length(s: string): nat {
    if s == [] then 0
    else
      var c := s[0] as int;
      (if c < 0x80 then 1 else if c < 0x800 then 2 else if c < 0x1_0000 then 3 else 4) + Utf8Length(s[1..])
  }

  /** The observation from a buffer and the reads still to come. */
  function Run(buffer: string, pending: seq<Read>, isJson: string -> bool): Outcome
    decreases |pending|, 1
  {
    var cut := Cut(buffer);
    Deliver(Payloads(cut.blocks), Wait(cut.rest, pending, isJson), isJson)
  }

  /** The observation once no complete block is buffered. */
  function Wait(rest: string, pending: seq<Read>, isJson: string -> bool): Outcome
    decreases |pending|, 0
  {
    if pending == [] then DeliverBlock(rest, Outcome([], Finished), isJson)
    else match pending[0]
      case Broken => Outcome([], Failed(Transport))
      case Chunk(text) =>
        var grown := rest + PushText(text);
        if Utf8Length(grown) > MAX_BUFFER_BYTES then Outcome([], Failed(BufferOverflow))
        else Run(grown, pending[1..], isJson)
  }

  // ---------- The decoder ----------

  class SseDecoder {
    var pending: seq<Read>
    var buffer: string
    var done: bool

    ghost predicate Valid()
      reads this
    {
      done ==> pending == []
    }

    ghost function Ahead(isJson: string -> bool): Outcome
      reads this
    {
      Run(buffer, pending, isJson)
    }

    constructor (response: seq<Read>)
      ensures Valid() && pending == response && buffer == "" && !done
    {
      pending, buffer, done := response, "", false;
    }

    method PushChunk(chunk: string)
      modifies this`buffer
      ensures buffer == old(buffer) + PushText(chunk)
    {
      var trailing := EndsInCr(chunk);
      var normalized := if trailing then chunk[..|chunk| - 1] else chunk;
      normalized := Normalize(normalized);
      if trailing {
        normalized := normalized + "\r";
      }
      buffer := buffer + normalized;
    }

    method TakeBlock() returns (block: Option<string>)
      modifies this`buffer
      ensures block.None? ==> Find(buffer, BLANK_LINE).None? && buffer == old(buffer)
      ensures block.Some? ==> Find(block.value + BLANK_LINE, BLANK_LINE) == Some(|block.value|)
      ensures block.Some? ==> old(buffer) == block.value + BLANK_LINE + buffer
      ensures block.Some? ==> Cut(old(buffer)) == Cutting([block.value] + Cut(buffer).blocks, Cut(buffer).rest)
    {
      match Find(buffer, BLANK_LINE)
      case None => block := None;
      case Some(boundary) =>
        block := Some(buffer[..boundary]);
        FirstBlock(buffer, boundary);
        buffer := buffer[boundary + 2..];
    }

    /** One event: the first payload still ahead, or how the stream ends once none is. */
    method NextValue(isJson: string -> bool) returns (r: Result<Option<string>, ClientError>)
      requires Valid()
      modifies this
      ensures Valid()
      ensures Handed(r, old(Ahead(isJson)), Ahead(isJson))
    {
      hide Run, Cut, ExtractData, PushText, Utf8Length, Find;
      while true
        invariant Valid()
        invariant Ahead(isJson) == old(Ahead(isJson))
        decreases |pending|, !done, |buffer|
      {
        label Top:
        var block := TakeBlock();
        if block.Some? {
          RunBlock(old@Top(buffer), block.value, buffer, pending, isJson);
          var data := ExtractData(block.value);
          if data != "" {
            return if isJson(data) then Success(Some(data)) else Failure(BadPayload);
          }
          continue;
        }
        RunNoBlock(buffer, pending, isJson);
        if done {
          EmptyBlock();
          if buffer != "" {
            var data := ExtractData(buffer);
            buffer := "";
            RunNoBlock(buffer, pending, isJson);
            if data != "" {
              return if isJson(data) then Success(Some(data)) else Failure(BadPayload);
            }
          }
          return Success(None);
        }
        if pending == [] {
          done := true;
        } else {
          var read := pending[0];
          pending := pending[1..];
          match read
          case Broken => return Failure(Transport);
          case Chunk(text) =>
            PushChunk(text);
            if Utf8Length(buffer) > MAX_BUFFER_BYTES {
              return Failure(BufferOverflow);
            }
        }
      }
    }
  }

  lemma EmptyBlock()
    ensures ExtractData("") == ""
  {
  }

  /** What one call of `next_value` says about the observation before and after it. */
  ghost predicate Handed(r: Result<Option<string>, ClientError>, before: Outcome, after: Outcome) {
    match r
    case Success(Some(payload)) => before == Before(payload, after)
    case Success(None) => before == Outcome([], Finished)
    case Failure(error) => before == Outcome([], Failed(error))
  }

  lemma RunBlock(buffer: string, block: string, later: string, pending: seq<Read>, isJson: string -> bool)
    requires Cut(buffer) == Cutting([block] + Cut(later).blocks, Cut(later).rest)
    ensures Run(buffer, pending, isJson) == DeliverBlock(block, Run(later, pending, isJson), isJson)
  {
    var data := ExtractData(block);
    var blocks := Cut(later).blocks;
    assert ([block] + blocks)[1..] == blocks;
    assert ([data] + Payloads(blocks))[1..] == Payloads(blocks);
    assert Payloads([block] + blocks) == if data != "" then [data] + Payloads(blocks) else Payloads(blocks);
  }

  lemma RunNoBlock(buffer: string, pending: seq<Read>, isJson: string -> bool)
    requires Find(buffer, BLANK_LINE).None?
    ensures Run(buffer, pending, isJson) == Wait(buffer, pending, isJson)
  {
    assert Cut(buffer) == Cutting([], buffer);
  }

  /** `take_block` splits the buffer at the first blank line. */
  lemma FirstBlock(text: string, k: nat)
    requires Find(text, BLANK_LINE) == Some(k)
    ensures text == text[..k] + BLANK_LINE + text[k + 2..]
    ensures Find(text[..k] + BLANK_LINE, BLANK_LINE) == Some(k)
  {
    var front := text[..k] + BLANK_LINE;
    FindIsFirst(text, BLANK_LINE, Some(k));
    assert front == text[..k + 2];
    forall i | 0 <= i < k
      ensures !OccursAt(BLANK_LINE, front, i)
    {
      assert !OccursAt(BLANK_LINE, text, i);
      assert front[i..i + 2] == text[i..i + 2];
    }
    FindIsFirst(front, BLANK_LINE, Some(k));
  }

  /** Reads the stream to its end, as `sse_stream` does. */
  method DecodeAll(response: seq<Read>, isJson: string -> bool) returns (outcome: Outcome)
    ensures outcome == Run("", response, isJson)
  {
    var decoder := new SseDecoder(response);
    var payloads := [];
    ghost var ahead := decoder.Ahead(isJson);
    while true
      invariant decoder.Valid() && fresh(decoder)
      invariant ahead == decoder.Ahead(isJson)
      invariant Run("", response, isJson) == Outcome(payloads + ahead.payloads, ahead.end)
      decreases |ahead.payloads|
    {
      var next := decoder.NextValue(isJson);
      assert Handed(next, ahead, decoder.Ahead(isJson));
      match next
      case Success(Some(payload)) =>
        ahead := decoder.Ahead(isJson);
        payloads := payloads + [payload];
      case Success(None) => return Outcome(payloads, Finished);
      case Failure(error) => return Outcome(payloads, Failed(error));
    }
  }
}
