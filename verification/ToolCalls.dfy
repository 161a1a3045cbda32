/** What a client is told about each tool call (crates/oc-acp/src/event.rs), part after part. */
module ToolCalls {
  import opened Wrappers

  /** The state of a tool part, with what its update shows: the output of a running shell, the content
      of a finished call, the message of a failed one. */
  datatype ToolState =
    | Pending
    | Running(output: Option<string>)
    | Completed(content: seq<string>)
    | Error(message: string)

  datatype ToolPart = ToolPart(callId: string, tool: string, state: ToolState)

  datatype Status = InProgress | Done | Failed

  /** A `session/update` notification; an update without content leaves what is shown alone. */
  datatype Notice =
    | ToolCall(id: string)
    | ToolCallUpdate(id: string, status: Status, content: Option<seq<string>>)

  datatype Sent = Sent(session: string, notice: Notice)

  /** The subscription's state, and everything sent so far. */
  datatype Tools = Tools(starts: set<string>, snapshots: map<string, string>, sent: seq<Sent>)

  const SHELL := "bash"

  function Output(part: ToolPart): Option<string> {
    if part.tool == SHELL && part.state.Running? then part.state.output else None
  }

  function Shown(output: Option<string>): Option<seq<string>> {
    match output case None => None case Some(text) => Some([text])
  }

  // ---------- Handling a part ----------

  function Send(t: Tools, session: string, notice: Notice): Tools {
    t.(sent := t.sent + [Sent(session, notice)])
  }

  function Started(t: Tools, session: string, id: string): Tools {
    if id in t.starts then t else Send(t.(starts := t.starts + {id}), session, ToolCall(id))
  }

  function Cleared(t: Tools, id: string): Tools {
    t.(starts := t.starts - {id}, snapshots := t.snapshots - {id})
  }

  function RanTool(t: Tools, session: string, part: ToolPart): Tools {
    var id, output := part.callId, Output(part);
    if output.None? then Send(t, session, ToolCallUpdate(id, InProgress, None))
    else if id in t.snapshots && t.snapshots[id] == output.value then
      Send(t, session, ToolCallUpdate(id, InProgress, None))
    else Send(t.(snapshots := t.snapshots[id := output.value]), session, ToolCallUpdate(id, InProgress, Shown(output)))
  }

  function Handled(t: Tools, session: string, part: ToolPart): Tools {
    var id, begun := part.callId, Started(t, session, part.callId);
    match part.state
    case Pending => begun.(snapshots := begun.snapshots - {id})
    case Running(_) => RanTool(begun, session, part)
    case Completed(content) => Send(Cleared(begun, id), session, ToolCallUpdate(id, Done, Some(content)))
    case Error(message) => Send(Cleared(begun, id), session, ToolCallUpdate(id, Failed, Some([message])))
  }

  class Subscription {
    var toolStarts: set<string>
    var shellSnapshots: map<string, string>
    var sent: seq<Sent>

    ghost function View(): Tools
      reads this
    {
      Tools(toolStarts, shellSnapshots, sent)
    }

    constructor ()
      ensures View() == Tools({}, map[], [])
    {
      toolStarts, shellSnapshots, sent := {}, map[], [];
    }

    method SendUpdate(session: string, notice: Notice)
      modifies this`sent
      ensures View() == Send(old(View()), session, notice)
    {
      sent := sent + [Sent(session, notice)];
    }

    method ToolStart(session: string, part: ToolPart)
      modifies this`toolStarts, this`sent
      ensures View() == Started(old(View()), session, part.callId)
    {
      if part.callId in toolStarts {
        return;
      }
      toolStarts := toolStarts + {part.callId};
      SendUpdate(session, ToolCall(part.callId));
    }

    method ClearTool(id: string)
      modifies this`toolStarts, this`shellSnapshots
      ensures View() == Cleared(old(View()), id)
    {
      toolStarts := toolStarts - {id};
      shellSnapshots := shellSnapshots - {id};
    }

    method RunningTool(session: string, part: ToolPart)
      modifies this`shellSnapshots, this`sent
      ensures View() == RanTool(old(View()), session, part)
    {
      var output := Output(part);
      if output.Some? {
        if part.callId in shellSnapshots && shellSnapshots[part.callId] == output.value {
          SendUpdate(session, ToolCallUpdate(part.callId, InProgress, None));
          return;
        }
        shellSnapshots := shellSnapshots[part.callId := output.value];
      }
      SendUpdate(session, ToolCallUpdate(part.callId, InProgress, Shown(output)));
    }

    method HandleToolPart(session: string, part: ToolPart)
      modifies this
      ensures View() == Handled(old(View()), session, part)
    {
      ToolStart(session, part);
      match part.state
      case Pending =>
        shellSnapshots := shellSnapshots - {part.callId};
      case Running(_) =>
        RunningTool(session, part);
      case Completed(content) =>
        ClearTool(part.callId);
        SendUpdate(session, ToolCallUpdate(part.callId, Done, Some(content)));
      case Error(message) =>
        ClearTool(part.callId);
        SendUpdate(session, ToolCallUpdate(part.callId, Failed, Some([message])));
    }
  }

  // ---------- Whole runs ----------

  datatype Arrival = Arrival(session: string, part: ToolPart)

  /** The state after parts handled one after another. */
  function After(arrivals: seq<Arrival>): Tools {
    if arrivals == [] then Tools({}, map[], [])
    else
      var last := arrivals[|arrivals| - 1];
      Handled(After(arrivals[..|arrivals| - 1]), last.session, last.part)
  }

  /** What the notifications say about one call: it starts, goes on, or ends. */
  datatype Mark = Begins | GoesOn | Ends

  function MarkOf(notice: Notice): Mark {
    match notice
    case ToolCall(_) => Begins
    case ToolCallUpdate(_, status, _) => if status.InProgress? then GoesOn else Ends
  }

  function Trace(sent: seq<Sent>, id: string): seq<Mark> {
    if sent == [] then []
    else
      var n := |sent| - 1;
      Trace(sent[..n], id) + if sent[n].notice.id == id then [MarkOf(sent[n].notice)] else []
  }

  /** A start, any number of updates, and one end. */
  predicate IsBlock(marks: seq<Mark>) {
    && |marks| >= 2 && marks[0] == Begins && marks[|marks| - 1] == Ends
    && forall i :: 0 < i < |marks| - 1 ==> marks[i] == GoesOn
  }

  predicate IsOpenBlock(marks: seq<Mark>) {
    marks != [] && marks[0] == Begins && forall i :: 0 < i < |marks| ==> marks[i] == GoesOn
  }

  function Flatten(blocks: seq<seq<Mark>>): seq<Mark> {
    if blocks == [] then [] else Flatten(blocks[..|blocks| - 1]) + blocks[|blocks| - 1]
  }

  /** Finished blocks, and then nothing or one open block. */
  ghost predicate Bracketed(trace: seq<Mark>, isOpen: bool) {
    exists blocks, tail :: Divides(trace, blocks, tail, isOpen)
  }

  ghost predicate Divides(trace: seq<Mark>, blocks: seq<seq<Mark>>, tail: seq<Mark>, isOpen: bool) {
    && trace == Flatten(blocks) + tail && (forall k :: 0 <= k < |blocks| ==> IsBlock(blocks[k]))
    && (if isOpen then IsOpenBlock(tail) else tail == [])
  }

  /** A mark that fits continues a bracketed trace. */
  lemma Continues(trace: seq<Mark>, isOpen: bool, mark: Mark)
    requires Bracketed(trace, isOpen) && (mark.Begins? <==> !isOpen)
    ensures Bracketed(trace + [mark], !mark.Ends?)
  {
    var blocks, tail :| Divides(trace, blocks, tail, isOpen);
    if mark.Ends? {
      var more := blocks + [tail + [mark]];
      assert more[..|blocks|] == blocks;
      assert trace + [mark] == Flatten(more) + [];
      assert Divides(trace + [mark], more, [], false);
    } else {
      assert trace + [mark] == Flatten(blocks) + (tail + [mark]);
      assert Divides(trace + [mark], blocks, tail + [mark], true);
    }
  }

  lemma TraceSnoc(sent: seq<Sent>, session: string, notice: Notice, id: string)
    ensures Trace(sent + [Sent(session, notice)], id)
      == Trace(sent, id) + if notice.id == id then [MarkOf(notice)] else []
  {
    assert (sent + [Sent(session, notice)])[..|sent|] == sent;
  }

  lemma StartedBrackets(t: Tools, session: string, id: string, k: string)
    requires Bracketed(Trace(t.sent, k), k in t.starts)
    ensures var u := Started(t, session, id); Bracketed(Trace(u.sent, k), k in u.starts)
  {
    if id !in t.starts {
      TraceSnoc(t.sent, session, ToolCall(id), k);
      if k == id {
        Continues(Trace(t.sent, k), false, Begins);
      } else {
        assert Trace(t.sent, k) + [] == Trace(t.sent, k);
      }
    }
  }

  /** Handling a part keeps the trace of every call bracketed, open exactly while the call is in `starts`. */
  lemma HandledBrackets(t: Tools, session: string, part: ToolPart, k: string)
    requires Bracketed(Trace(t.sent, k), k in t.starts)
    ensures var u := Handled(t, session, part); Bracketed(Trace(u.sent, k), k in u.starts)
  {
    hide Bracketed, Trace;
    var begun, u := Started(t, session, part.callId), Handled(t, session, part);
    StartedBrackets(t, session, part.callId, k);
    if !part.state.Pending? {
      var notice := u.sent[|begun.sent|].notice;
      assert u.sent == begun.sent + [Sent(session, notice)];
      TraceSnoc(begun.sent, session, notice, k);
      if k == part.callId {
        Continues(Trace(begun.sent, k), true, MarkOf(notice));
      } else {
        assert Trace(begun.sent, k) + [] == Trace(begun.sent, k);
      }
    }
  }

  /** After any parts, what was sent about each call is finished blocks and at most one open block, and
      the call is in `starts` exactly while its block is open. */
  lemma {:induction false} TracesBracketed(arrivals: seq<Arrival>, id: string)
    ensures Bracketed(Trace(After(arrivals).sent, id), id in After(arrivals).starts)
  {
    if arrivals == [] {
      assert Divides([], [], [], false);
    } else {
      var last := arrivals[|arrivals| - 1];
      TracesBracketed(arrivals[..|arrivals| - 1], id);
      HandledBrackets(After(arrivals[..|arrivals| - 1]), last.session, last.part, id);
    }
  }

  // ---------- What is told, from the parts alone ----------

  predicate IsOpen(state: ToolState) {
    state.Pending? || state.Running?
  }

  /** A call is open when its latest part is pending or running. */
  function Open(arrivals: seq<Arrival>, id: string): bool {
    if arrivals == [] then false
    else
      var n := |arrivals| - 1;
      if arrivals[n].part.callId == id then IsOpen(arrivals[n].part.state) else Open(arrivals[..n], id)
  }

  /** The status the last notification about a call told; none after a mere start. */
  function Told(sent: seq<Sent>, id: string): Option<Status> {
    if sent == [] then None
    else
      var n := |sent| - 1;
      match sent[n].notice
      case ToolCall(call) => if call == id then None else Told(sent[..n], id)
      case ToolCallUpdate(call, status, _) => if call == id then Some(status) else Told(sent[..n], id)
  }

  /** The status of the call's latest part; a pending one tells nothing of an open call. */
  function LatestStatus(arrivals: seq<Arrival>, id: string): Option<Status> {
    if arrivals == [] then None
    else
      var n := |arrivals| - 1;
      var earlier, part := arrivals[..n], arrivals[n].part;
      if part.callId != id then LatestStatus(earlier, id)
      else match part.state
        case Pending => if Open(earlier, id) then LatestStatus(earlier, id) else None
        case Running(_) => Some(InProgress)
        case Completed(_) => Some(Done)
        case Error(_) => Some(Failed)
  }

  lemma ToldSend(t: Tools, session: string, notice: Notice, id: string)
    ensures Told(Send(t, session, notice).sent, id) ==
      if notice.id != id then Told(t.sent, id)
      else if notice.ToolCall? then None
      else Some(notice.status)
  {
    var sent := t.sent + [Sent(session, notice)];
    assert sent[..|t.sent|] == t.sent;
  }

  /** After any parts the status last told of each call is that of its latest part, and the call is in
      `starts` exactly while that part is pending or running. */
  lemma {:induction false} StatusTold(arrivals: seq<Arrival>, id: string)
    ensures Told(After(arrivals).sent, id) == LatestStatus(arrivals, id)
    ensures id in After(arrivals).starts <==> Open(arrivals, id)
  {
    if arrivals != [] {
      var earlier, last := arrivals[..|arrivals| - 1], arrivals[|arrivals| - 1];
      StatusTold(earlier, id);
      HandledTells(After(earlier), last.session, last.part, id);
    }
  }

  lemma HandledTells(t: Tools, session: string, part: ToolPart, id: string)
    ensures var v := Handled(t, session, part);
      && (id in v.starts <==> if part.callId == id then IsOpen(part.state) else id in t.starts)
      && Told(v.sent, id) ==
        if part.callId != id then Told(t.sent, id)
        else if part.state.Completed? then Some(Done)
        else if part.state.Error? then Some(Failed)
        else if part.state.Running? then Some(InProgress)
        else if id in t.starts then Told(t.sent, id)
        else None
  {
    hide Told;
    var call := part.callId;
    ToldSend(t.(starts := t.starts + {call}), session, ToolCall(call), id);
    var begun := Started(t, session, call);
    match part.state
    case Pending =>
    case Running(_) =>
      var v := RanTool(begun, session, part);
      ToldSend(begun.(snapshots := v.snapshots), session, v.sent[|begun.sent|].notice, id);
    case Completed(content) =>
      ToldSend(Cleared(begun, call), session, ToolCallUpdate(call, Done, Some(content)), id);
    case Error(message) =>
      ToldSend(Cleared(begun, call), session, ToolCallUpdate(call, Failed, Some([message])), id);
  }
}
