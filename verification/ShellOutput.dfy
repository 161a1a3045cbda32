/** Repeated shell output is not sent again (crates/oc-acp/src/event.rs), and the client still shows it. */
module ShellOutput {
  import opened Wrappers
  import opened ToolCalls

  /** What a client that has received `sent` shows for a call of a session. A new call shows nothing,
      and an update replaces what is shown if it has content. */
  function Display(sent: seq<Sent>, session: string, id: string): seq<string> {
    if sent == [] then []
    else
      var n := |sent| - 1;
      var earlier, last := Display(sent[..n], session, id), sent[n];
      if last.session != session || last.notice.id != id then earlier
      else match last.notice
        case ToolCall(_) => []
        case ToolCallUpdate(_, _, content) => if content.Some? then content.value else earlier
  }

  /** The same handling, but with every output sent every time. */
  function Resent(t: Tools, session: string, part: ToolPart): Tools {
    if part.state.Running? then
      Send(Started(t, session, part.callId), session, ToolCallUpdate(part.callId, InProgress, Shown(Output(part))))
    else Handled(t, session, part)
  }

  function AfterResending(arrivals: seq<Arrival>): Tools {
    if arrivals == [] then Tools({}, map[], [])
    else
      var last := arrivals[|arrivals| - 1];
      Resent(AfterResending(arrivals[..|arrivals| - 1]), last.session, last.part)
  }

  /** Each call belongs to one session. */
  ghost predicate OwnedCalls(arrivals: seq<Arrival>) {
    forall i, j :: 0 <= i < |arrivals| && 0 <= j < |arrivals| && arrivals[i].part.callId == arrivals[j].part.callId ==>
      arrivals[i].session == arrivals[j].session
  }

  /** A stored snapshot is what the last content delivered for the call shows, in the call's session. */
  ghost predicate SnapshotsShown(t: Tools, arrivals: seq<Arrival>) {
    forall id :: id in t.snapshots ==> id in t.starts && SnapshotShown(t, arrivals, id)
  }

  ghost predicate SnapshotShown(t: Tools, arrivals: seq<Arrival>, id: string)
    requires id in t.snapshots
  {
    exists i :: 0 <= i < |arrivals| && arrivals[i].part.callId == id
      && Display(t.sent, arrivals[i].session, id) == [t.snapshots[id]]
  }

  ghost predicate SameDisplay(t: Tools, u: Tools) {
    t.starts == u.starts && forall session, id :: Display(t.sent, session, id) == Display(u.sent, session, id)
  }

  lemma DisplaySend(t: Tools, session: string, notice: Notice)
    ensures forall s, id :: s != session || id != notice.id ==>
      Display(Send(t, session, notice).sent, s, id) == Display(t.sent, s, id)
    ensures Display(Send(t, session, notice).sent, session, notice.id) ==
      if notice.ToolCall? then []
      else if notice.content.Some? then notice.content.value
      else Display(t.sent, session, notice.id)
  {
    var sent := t.sent + [Sent(session, notice)];
    assert sent[..|t.sent|] == t.sent;
  }

  lemma SameDisplaySend(t: Tools, u: Tools, session: string, notice: Notice)
    requires SameDisplay(t, u)
    ensures SameDisplay(Send(t, session, notice), Send(u, session, notice))
  {
    DisplaySend(t, session, notice);
    DisplaySend(u, session, notice);
  }

  /** The step: the two handlings keep showing the same, and snapshots stay shown. */
  lemma HandledShows(t: Tools, u: Tools, earlier: seq<Arrival>, last: Arrival)
    requires SameDisplay(t, u) && SnapshotsShown(t, earlier) && OwnedCalls(earlier + [last])
    ensures SameDisplay(Handled(t, last.session, last.part), Resent(u, last.session, last.part))
    ensures SnapshotsShown(Handled(t, last.session, last.part), earlier + [last])
  {
    var id, session := last.part.callId, last.session;
    var begun, again := Started(t, session, id), Started(u, session, id);
    StartedShows(t, u, earlier, last);
    match last.part.state
    case Pending =>
    case Running(_) =>
      RanShows(begun, again, earlier, last);
    case Completed(content) =>
      ClearedShows(begun, again, earlier, last, ToolCallUpdate(id, Done, Some(content)));
    case Error(message) =>
      ClearedShows(begun, again, earlier, last, ToolCallUpdate(id, Failed, Some([message])));
  }

  lemma StartedShows(t: Tools, u: Tools, earlier: seq<Arrival>, last: Arrival)
    requires SameDisplay(t, u) && SnapshotsShown(t, earlier)
    ensures var id, session := last.part.callId, last.session;
      SameDisplay(Started(t, session, id), Started(u, session, id))
      && SnapshotsShown(Started(t, session, id), earlier + [last])
  {
    var id, session := last.part.callId, last.session;
    var begun := Started(t, session, id);
    if id !in t.starts {
      SameDisplaySend(t.(starts := t.starts + {id}), u.(starts := u.starts + {id}), session, ToolCall(id));
      DisplaySend(t.(starts := t.starts + {id}), session, ToolCall(id));
    }
    forall k | k in begun.snapshots
      ensures SnapshotShown(begun, earlier + [last], k)
    {
      var i :| 0 <= i < |earlier| && earlier[i].part.callId == k
        && Display(t.sent, earlier[i].session, k) == [t.snapshots[k]];
      assert (earlier + [last])[i] == earlier[i];
      assert Display(begun.sent, earlier[i].session, k) == Display(t.sent, earlier[i].session, k);
    }
  }

  lemma RanShows(t: Tools, u: Tools, earlier: seq<Arrival>, last: Arrival)
    requires SameDisplay(t, u) && SnapshotsShown(t, earlier + [last]) && OwnedCalls(earlier + [last])
    requires last.part.callId in t.starts && last.part.state.Running?
    ensures var v := RanTool(t, last.session, last.part);
      && SameDisplay(v, Send(u, last.session, ToolCallUpdate(last.part.callId, InProgress, Shown(Output(last.part)))))
      && SnapshotsShown(v, earlier + [last])
  {
    var id, session, output, arrivals := last.part.callId, last.session, Output(last.part), earlier + [last];
    var v := RanTool(t, session, last.part);
    var notice := v.sent[|t.sent|].notice;
    assert v.sent == Send(t, session, notice).sent;
    assert arrivals[|earlier|] == last;
    DisplaySend(t, session, notice);
    DisplaySend(u, session, ToolCallUpdate(id, InProgress, Shown(output)));
    if id in t.snapshots {
      SnapshotInSession(t, arrivals, last);
    }
    assert id in v.snapshots ==> Display(v.sent, session, id) == [v.snapshots[id]];
    OtherSnapshots(t, v, arrivals, last);
  }

  lemma SnapshotInSession(t: Tools, arrivals: seq<Arrival>, last: Arrival)
    requires OwnedCalls(arrivals) && last in arrivals && last.part.callId in t.snapshots
    requires SnapshotShown(t, arrivals, last.part.callId)
    ensures Display(t.sent, last.session, last.part.callId) == [t.snapshots[last.part.callId]]
  {
  }

  lemma OtherSnapshots(t: Tools, v: Tools, arrivals: seq<Arrival>, last: Arrival)
    requires SnapshotsShown(t, arrivals) && last in arrivals && last.part.callId in v.starts && t.starts == v.starts
    requires forall k :: k in v.snapshots && k != last.part.callId ==>
      k in t.snapshots && v.snapshots[k] == t.snapshots[k]
    requires forall s, k :: k != last.part.callId ==> Display(v.sent, s, k) == Display(t.sent, s, k)
    requires last.part.callId in v.snapshots ==>
      Display(v.sent, last.session, last.part.callId) == [v.snapshots[last.part.callId]]
    ensures SnapshotsShown(v, arrivals)
  {
    forall k | k in v.snapshots
      ensures SnapshotShown(v, arrivals, k)
    {
      if k == last.part.callId {
        var i :| 0 <= i < |arrivals| && arrivals[i] == last;
      } else {
        assert SnapshotShown(t, arrivals, k);
        var i :| 0 <= i < |arrivals| && arrivals[i].part.callId == k
          && Display(t.sent, arrivals[i].session, k) == [t.snapshots[k]];
        assert Display(v.sent, arrivals[i].session, k) == [v.snapshots[k]];
      }
    }
  }

  lemma ClearedShows(t: Tools, u: Tools, earlier: seq<Arrival>, last: Arrival, notice: Notice)
    requires SameDisplay(t, u) && SnapshotsShown(t, earlier + [last]) && notice.id == last.part.callId
    ensures SameDisplay(Send(Cleared(t, notice.id), last.session, notice),
                        Send(Cleared(u, notice.id), last.session, notice))
    ensures SnapshotsShown(Send(Cleared(t, notice.id), last.session, notice), earlier + [last])
  {
    var arrivals, v := earlier + [last], Send(Cleared(t, notice.id), last.session, notice);
    SameDisplaySend(Cleared(t, notice.id), Cleared(u, notice.id), last.session, notice);
    DisplaySend(Cleared(t, notice.id), last.session, notice);
    forall k | k in v.snapshots
      ensures SnapshotShown(v, arrivals, k)
    {
      var i :| 0 <= i < |arrivals| && arrivals[i].part.callId == k
        && Display(t.sent, arrivals[i].session, k) == [t.snapshots[k]];
      assert Display(v.sent, arrivals[i].session, k) == [v.snapshots[k]];
    }
  }

  /** While every call belongs to one session, a client shows after any parts what it would show had
      every output been sent every time. */
  lemma {:induction false} DedupKeepsDisplay(arrivals: seq<Arrival>, session: string, id: string)
    requires OwnedCalls(arrivals)
    ensures Display(After(arrivals).sent, session, id) == Display(AfterResending(arrivals).sent, session, id)
  {
    DedupInvariant(arrivals);
  }

  lemma {:induction false} DedupInvariant(arrivals: seq<Arrival>)
    requires OwnedCalls(arrivals)
    ensures SameDisplay(After(arrivals), AfterResending(arrivals)) && SnapshotsShown(After(arrivals), arrivals)
  {
    if arrivals != [] {
      var earlier, last := arrivals[..|arrivals| - 1], arrivals[|arrivals| - 1];
      DedupInvariant(earlier);
      assert arrivals == earlier + [last];
      HandledShows(After(earlier), AfterResending(earlier), earlier, last);
    }
  }

  // ---------- What is shown, from the parts alone ----------

  /** The content a part leaves, after what its call showed before if it was open. */
  function Content(part: ToolPart, open: bool, before: seq<string>): seq<string> {
    match part.state
    case Completed(content) => content
    case Error(message) => [message]
    case Pending => if open then before else []
    case Running(output) =>
      if part.tool == "bash" && output.Some? then [output.value] else if open then before else []
  }

  /** The call's latest content, since it was last opened. */
  function Latest(arrivals: seq<Arrival>, id: string): seq<string> {
    if arrivals == [] then []
    else
      var n := |arrivals| - 1;
      var earlier, part := arrivals[..n], arrivals[n].part;
      if part.callId == id then Content(part, Open(earlier, id), Latest(earlier, id)) else Latest(earlier, id)
  }

  lemma {:induction false} ResendingShowsLatest(arrivals: seq<Arrival>, session: string, id: string)
    requires forall i :: 0 <= i < |arrivals| && arrivals[i].part.callId == id ==> arrivals[i].session == session
    ensures var u := AfterResending(arrivals);
      (id in u.starts <==> Open(arrivals, id)) && Display(u.sent, session, id) == Latest(arrivals, id)
  {
    if arrivals != [] {
      var n := |arrivals| - 1;
      var u, last := AfterResending(arrivals[..n]), arrivals[n];
      ResendingShowsLatest(arrivals[..n], session, id);
      ResentShows(u, last, session, id);
    }
  }

  lemma ResentShows(u: Tools, last: Arrival, session: string, id: string)
    requires last.part.callId == id ==> last.session == session
    ensures var v := Resent(u, last.session, last.part);
      && (id in v.starts <==> if last.part.callId == id then IsOpen(last.part.state) else id in u.starts)
      && Display(v.sent, session, id) ==
        if last.part.callId == id then Content(last.part, id in u.starts, Display(u.sent, session, id))
        else Display(u.sent, session, id)
  {
    hide Display;
    var call, part := last.part.callId, last.part;
    DisplaySend(u.(starts := u.starts + {call}), last.session, ToolCall(call));
    var begun := Started(u, last.session, call);
    assert Display(begun.sent, session, id) ==
      if call == id && id !in u.starts then [] else Display(u.sent, session, id);
    ResentAfterStart(begun, last, session, id);
  }

  lemma ResentAfterStart(begun: Tools, last: Arrival, session: string, id: string)
    requires last.part.callId in begun.starts && (last.part.callId == id ==> last.session == session)
    ensures var v := Resent(begun, last.session, last.part);
      Display(v.sent, session, id) ==
        if last.part.callId == id then Content(last.part, true, Display(begun.sent, session, id))
        else Display(begun.sent, session, id)
  {
    hide Display;
    var call, part := last.part.callId, last.part;
    match part.state
    case Pending =>
    case Running(_) =>
      DisplaySend(begun, last.session, ToolCallUpdate(call, InProgress, Shown(Output(part))));
    case Completed(content) =>
      DisplaySend(Cleared(begun, call), last.session, ToolCallUpdate(call, Done, Some(content)));
    case Error(message) =>
      DisplaySend(Cleared(begun, call), last.session, ToolCallUpdate(call, Failed, Some([message])));
  }

  /** While every call belongs to one session, a client shows each call's latest content since it was last
      opened, and the call is in `starts` exactly while it is open. */
  lemma LatestIsShown(arrivals: seq<Arrival>, i: nat)
    requires OwnedCalls(arrivals) && i < |arrivals|
    ensures var id := arrivals[i].part.callId;
      && (id in After(arrivals).starts <==> Open(arrivals, id))
      && Display(After(arrivals).sent, arrivals[i].session, id) == Latest(arrivals, id)
  {
    DedupInvariant(arrivals);
    ResendingShowsLatest(arrivals, arrivals[i].session, arrivals[i].part.callId);
  }

  lemma NothingShown(session: string, id: string)
    ensures Display([], session, id) == []
  {
  }

  /** Were two sessions to share a call id, the second would miss an output the first was sent. */
  lemma SharedCallMissesOutput(first: string, second: string, id: string, text: string)
    requires first != second
    ensures var part := ToolPart(id, SHELL, Running(Some(text)));
      var arrivals := [Arrival(first, part), Arrival(second, part)];
      && Display(After(arrivals).sent, second, id) == []
      && Display(AfterResending(arrivals).sent, second, id) == [text]
  {
    hide Display;
    var part := ToolPart(id, SHELL, Running(Some(text)));
    var one, both := [Arrival(first, part)], [Arrival(first, part), Arrival(second, part)];
    assert both[..1] == one && one[..0] == [];
    var start := Tools({}, map[], []);
    assert After([]) == start && AfterResending([]) == start;
    NothingShown(second, id);
    var begun := Started(start, first, id);
    DisplaySend(start.(starts := {id}), first, ToolCall(id));
    assert After(one) == RanTool(begun, first, part);
    DisplaySend(begun.(snapshots := map[id := text]), first, ToolCallUpdate(id, InProgress, Some([text])));
    DisplaySend(begun, first, ToolCallUpdate(id, InProgress, Some([text])));
    DisplaySend(After(one), second, ToolCallUpdate(id, InProgress, None));
    DisplaySend(AfterResending(one), second, ToolCallUpdate(id, InProgress, Some([text])));
  }

  ghost predicate Within(arrivals: seq<Arrival>, pairs: iset<(string, string)>) {
    forall i :: 0 <= i < |arrivals| ==> (arrivals[i].session, arrivals[i].part.callId) in pairs
  }

  ghost predicate OneSessionEach(pairs: iset<(string, string)>) {
    forall s, t, id :: (s, id) in pairs && (t, id) in pairs ==> s == t
  }

  ghost predicate ShowsAlike(arrivals: seq<Arrival>) {
    forall session, id ::
      Display(After(arrivals).sent, session, id) == Display(AfterResending(arrivals).sent, session, id)
  }

  /** For the sessions and calls that may occur: leaving repeated output out is never noticed exactly when
      no call belongs to two sessions. */
  lemma DedupUnnoticedIff(pairs: iset<(string, string)>)
    ensures (forall arrivals :: Within(arrivals, pairs) ==> ShowsAlike(arrivals)) <==> OneSessionEach(pairs)
  {
    if OneSessionEach(pairs) {
      forall arrivals | Within(arrivals, pairs)
        ensures ShowsAlike(arrivals)
      {
        DedupInvariant(arrivals);
      }
    } else {
      var s, t, id :| (s, id) in pairs && (t, id) in pairs && s != t;
      var part := ToolPart(id, SHELL, Running(Some("")));
      var arrivals := [Arrival(s, part), Arrival(t, part)];
      SharedCallMissesOutput(s, t, id, "");
      assert Within(arrivals, pairs) && !ShowsAlike(arrivals);
    }
  }
}
