/** Releasing prompts when their session reports idle (crates/oc-acp/src/event.rs).

    `run_until_idle` calls and idle events interleave at each lock acquisition, each send, and around
    the request; a timeout may happen at any time. Calls are not cancelled. */
module IdleWaiters {

  /** Waiter ids by session. */
  type Waiters = map<string, set<nat>>

  predicate Waits(w: Waiters, session: string, id: nat) {
    session in w && id in w[session]
  }

  ghost predicate NoEmpty(w: Waiters) {
    forall session :: session in w ==> w[session] != {}
  }

  // ---------- The steps under the lock ----------

  function AfterRegister(w: Waiters, session: string, id: nat): Waiters {
    w[session := (if session in w then w[session] else {}) + {id}]
  }

  function AfterTake(w: Waiters, session: string): Waiters {
    w - {session}
  }

  function AfterRemove(w: Waiters, session: string, id: nat): Waiters {
    if session !in w then w
    else if w[session] - {id} == {} then w - {session}
    else w[session := w[session] - {id}]
  }

  class IdleMap {
    var idleWaiters: Waiters
    var idleSequence: nat

    constructor ()
      ensures idleWaiters == map[] && idleSequence == 1
    {
      idleWaiters, idleSequence := map[], 1;
    }

    method NextId() returns (id: nat)
      modifies this`idleSequence
      ensures id == old(idleSequence) && idleSequence == id + 1
    {
      id := idleSequence;
      idleSequence := idleSequence + 1;
    }

    method Register(session: string, id: nat)
      modifies this`idleWaiters
      ensures idleWaiters == AfterRegister(old(idleWaiters), session, id)
    {
      if session !in idleWaiters {
        idleWaiters := idleWaiters[session := {}];
      }
      idleWaiters := idleWaiters[session := idleWaiters[session] + {id}];
    }

    /** The locked part of `mark_idle`: the session's waiters leave the map, to be signalled. */
    method Take(session: string) returns (taken: set<nat>)
      modifies this`idleWaiters
      ensures idleWaiters == AfterTake(old(idleWaiters), session)
      ensures forall id :: id in taken <==> Waits(old(idleWaiters), session, id)
    {
      taken := if session in idleWaiters then idleWaiters[session] else {};
      idleWaiters := idleWaiters - {session};
    }

    method RemoveIdleWaiter(session: string, id: nat)
      modifies this`idleWaiters
      ensures idleWaiters == AfterRemove(old(idleWaiters), session, id)
    {
      if session in idleWaiters {
        var rest := idleWaiters[session] - {id};
        idleWaiters := idleWaiters[session := rest];
        if rest == {} {
          idleWaiters := idleWaiters - {session};
        }
      }
    }
  }

  // ---------- Interleavings ----------

  datatype Outcome = Released | TimedOut | RequestFailed

  /** A `run_until_idle` call: its id taken, its waiter registered, its request answered, its wait over
      and about to remove the waiter, done. */
  datatype Stage =
    | Entered
    | Numbered(id: nat)
    | Requesting(id: nat)
    | Waiting(id: nat)
    | Removing(id: nat, outcome: Outcome)
    | Finished(id: nat, outcome: Outcome)

  datatype Prompt = Prompt(session: string, stage: Stage)

  /** A `mark_idle` call: the waiters it has taken and not yet signalled, once it has the lock. */
  datatype Idle = Idle(session: string, taking: bool, left: set<nat>)

  datatype Event =
    | Registered(id: nat, session: string)
    | Took(session: string, ids: set<nat>)
    | Signalled(id: nat)
    | Removed(id: nat)

  datatype State = State(waiters: Waiters, nextId: nat, prompts: seq<Prompt>, idles: seq<Idle>, log: seq<Event>)

  /** What happens next: a call begins, a prompt takes a step, its request is answered, its wait times
      out, an idle takes the lock, or an idle signals one waiter. */
  datatype Action =
    | BeginPrompt(session: string)
    | BeginIdle(session: string)
    | StepPrompt(prompt: nat)
    | Answer(prompt: nat, ok: bool)
    | TimeOut(prompt: nat)
    | StepIdle(idle: nat)
    | Signal(idle: nat, id: nat)

  const INITIAL := State(map[], 1, [], [], [])

  function Move(s: State, p: nat, stage: Stage): State
    requires p < |s.prompts|
  {
    s.(prompts := s.prompts[p := s.prompts[p].(stage := stage)])
  }

  function Next(s: State, action: Action): State {
    match action
    case BeginPrompt(session) => s.(prompts := s.prompts + [Prompt(session, Entered)])
    case BeginIdle(session) => s.(idles := s.idles + [Idle(session, true, {})])
    case StepPrompt(p) => if p < |s.prompts| then Stepped(s, p) else s
    case Answer(p, ok) =>
      if p < |s.prompts| && s.prompts[p].stage.Requesting? then
        var id := s.prompts[p].stage.id;
        Move(s, p, if ok then Waiting(id) else Removing(id, RequestFailed))
      else s
    case TimeOut(p) =>
      if p < |s.prompts| && s.prompts[p].stage.Waiting? then
        Move(s, p, Removing(s.prompts[p].stage.id, TimedOut))
      else s
    case StepIdle(i) => if i < |s.idles| && s.idles[i].taking then TookWaiters(s, i) else s
    case Signal(i, id) =>
      if i < |s.idles| && id in s.idles[i].left then
        s.(idles := s.idles[i := s.idles[i].(left := s.idles[i].left - {id})], log := s.log + [Signalled(id)])
      else s
  }

  function Stepped(s: State, p: nat): State
    requires p < |s.prompts|
  {
    var session := s.prompts[p].session;
    match s.prompts[p].stage
    case Entered => Move(s, p, Numbered(s.nextId)).(nextId := s.nextId + 1)
    case Numbered(id) =>
      Move(s, p, Requesting(id)).(
        waiters := AfterRegister(s.waiters, session, id), log := s.log + [Registered(id, session)])
    case Requesting(_) => s
    case Waiting(id) => if Signalled(id) in s.log then Move(s, p, Removing(id, Released)) else s
    case Removing(id, outcome) =>
      Move(s, p, Finished(id, outcome)).(waiters := AfterRemove(s.waiters, session, id), log := s.log + [Removed(id)])
    case Finished(_, _) => s
  }

  /** An idle takes all waiters of its session at once. */
  function TookWaiters(s: State, i: nat): State
    requires i < |s.idles|
  {
    var session := s.idles[i].session;
    var taken := if session in s.waiters then s.waiters[session] else {};
    s.(waiters := AfterTake(s.waiters, session),
       idles := s.idles[i := Idle(session, false, taken)],
       log := s.log + [Took(session, taken)])
  }

  function Run(actions: seq<Action>): State {
    if actions == [] then INITIAL else Next(Run(actions[..|actions| - 1]), actions[|actions| - 1])
  }

  // ---------- What every run keeps ----------

  ghost predicate IsTaken(log: seq<Event>, id: nat) {
    exists j :: 0 <= j < |log| && log[j].Took? && id in log[j].ids
  }

  predicate HasId(stage: Stage) {
    !stage.Entered?
  }

  /** Prompts have ids of their own, below the next one. */
  ghost predicate OwnIds(s: State) {
    && (forall p :: 0 <= p < |s.prompts| && HasId(s.prompts[p].stage) ==> s.prompts[p].stage.id < s.nextId)
    && (forall p, q :: 0 <= p < q < |s.prompts| && HasId(s.prompts[p].stage) && HasId(s.prompts[q].stage) ==>
      s.prompts[p].stage.id != s.prompts[q].stage.id)
  }

  /** The record of a prompt agrees with its stage. */
  ghost predicate PromptAgrees(s: State, prompt: Prompt) {
    HasId(prompt.stage) ==>
      var id := prompt.stage.id;
      && (Registered(id, prompt.session) in s.log <==> !prompt.stage.Numbered?)
      && (Removed(id) in s.log <==> prompt.stage.Finished?)
      && (prompt.stage.Removing? && prompt.stage.outcome.Released? ==> Signalled(id) in s.log)
      && (prompt.stage.Finished? && prompt.stage.outcome.Released? ==> Signalled(id) in s.log)
  }

  ghost predicate PromptsAgree(s: State) {
    forall p :: 0 <= p < |s.prompts| ==> PromptAgrees(s, s.prompts[p])
  }

  predicate IsPrompt(prompt: Prompt, session: string, id: nat) {
    HasId(prompt.stage) && prompt.stage.id == id && prompt.session == session
  }

  /** Some prompt of the session has the id. */
  ghost predicate Knows(s: State, session: string, id: nat) {
    exists p :: 0 <= p < |s.prompts| && IsPrompt(s.prompts[p], session, id)
  }

  /** Whoever is registered is the waiter of a prompt of that session. */
  ghost predicate EventsOwned(s: State) {
    forall id, session :: Registered(id, session) in s.log ==> Knows(s, session, id)
  }

  /** The map holds exactly the registered waiters that no idle has taken and that are not removed. */
  ghost predicate MapExact(s: State) {
    forall session, id :: Waits(s.waiters, session, id) <==>
      Registered(id, session) in s.log && !IsTaken(s.log, id) && Removed(id) !in s.log
  }

  /** The waiters an idle has yet to signal are taken and not signalled, and no other idle has them. */
  ghost predicate LeftAgree(s: State) {
    && (forall i, id :: 0 <= i < |s.idles| && id in s.idles[i].left ==> IsTaken(s.log, id) && Signalled(id) !in s.log)
    && (forall i, j, id :: 0 <= i < j < |s.idles| && id in s.idles[i].left ==> id !in s.idles[j].left)
  }

  /** Each event in its order: waiters are taken by an idle of the session they registered for, after
      registering and only once; they are signalled after being taken, and only once; and they are removed
      after registering. */
  ghost predicate EventInOrder(log: seq<Event>, j: nat)
    requires j < |log|
  {
    match log[j]
    case Took(session, ids) => forall id :: id in ids ==> Registered(id, session) in log[..j] && !IsTaken(log[..j], id)
    case Signalled(id) => IsTaken(log[..j], id) && Signalled(id) !in log[..j]
    case Removed(id) => exists session :: Registered(id, session) in log[..j]
    case Registered(_, _) => true
  }

  ghost predicate InOrder(s: State) {
    forall j :: 0 <= j < |s.log| ==> EventInOrder(s.log, j)
  }

  ghost predicate Inv(s: State) {
    && OwnIds(s) && PromptsAgree(s) && EventsOwned(s) && NoEmpty(s.waiters) && MapExact(s) && LeftAgree(s) && InOrder(s)
  }

  lemma TakenSnoc(log: seq<Event>, event: Event, id: nat)
    ensures IsTaken(log + [event], id) <==> IsTaken(log, id) || (event.Took? && id in event.ids)
  {
    var more := log + [event];
    assert more[|log|] == event;
    if IsTaken(log, id) {
      var j :| 0 <= j < |log| && log[j].Took? && id in log[j].ids;
      assert more[j] == log[j];
    }
  }

  /** Prompts are added, and keep their session and their id. */
  ghost predicate PromptsStay(s: State, t: State) {
    && |s.prompts| <= |t.prompts|
    && forall p :: 0 <= p < |s.prompts| && HasId(s.prompts[p].stage) ==>
      IsPrompt(t.prompts[p], s.prompts[p].session, s.prompts[p].stage.id)
  }

  lemma KnowsStays(s: State, t: State, session: string, id: nat)
    requires PromptsStay(s, t) && Knows(s, session, id)
    ensures Knows(t, session, id)
  {
    var p :| 0 <= p < |s.prompts| && IsPrompt(s.prompts[p], session, id);
    assert IsPrompt(t.prompts[p], session, id);
  }

  /** An id is registered for the session of its prompt and no other. */
  lemma OneSession(s: State, p: nat, session: string)
    requires OwnIds(s) && EventsOwned(s) && p < |s.prompts| && HasId(s.prompts[p].stage)
    requires Registered(s.prompts[p].stage.id, session) in s.log
    ensures session == s.prompts[p].session
  {
    assert Knows(s, session, s.prompts[p].stage.id);
    var q :| 0 <= q < |s.prompts| && IsPrompt(s.prompts[q], session, s.prompts[p].stage.id);
    assert p == q;
  }

  /** A taken waiter had registered for the session it was taken from. */
  lemma TakenWereRegistered(s: State, id: nat)
    requires InOrder(s)
    ensures IsTaken(s.log, id) ==> exists session :: Registered(id, session) in s.log
  {
    if IsTaken(s.log, id) {
      var j :| 0 <= j < |s.log| && s.log[j].Took? && id in s.log[j].ids;
      assert EventInOrder(s.log, j);
      assert Registered(id, s.log[j].session) in s.log[..j];
    }
  }

  /** A signalled waiter had been taken. */
  lemma SignalledWereTaken(s: State, id: nat)
    requires InOrder(s) && Signalled(id) in s.log
    ensures IsTaken(s.log, id)
  {
    var j :| 0 <= j < |s.log| && s.log[j] == Signalled(id);
    assert EventInOrder(s.log, j);
    var i :| 0 <= i < |s.log[..j]| && s.log[..j][i].Took? && id in s.log[..j][i].ids;
    assert s.log[i] == s.log[..j][i];
  }

  /** A removed waiter had registered. */
  lemma RemovedWereRegistered(s: State, id: nat)
    requires InOrder(s) && Removed(id) in s.log
    ensures exists session :: Registered(id, session) in s.log
  {
    var j :| 0 <= j < |s.log| && s.log[j] == Removed(id);
    assert EventInOrder(s.log, j);
    var session :| Registered(id, session) in s.log[..j];
    assert Registered(id, session) in s.log;
  }

  /** Nothing is on record yet about the next id. */
  lemma FreshIds(s: State)
    requires OwnIds(s) && EventsOwned(s) && InOrder(s)
    ensures forall session :: Registered(s.nextId, session) !in s.log
    ensures Removed(s.nextId) !in s.log
  {
    assert forall session :: !Knows(s, session, s.nextId);
    if Removed(s.nextId) in s.log {
      RemovedWereRegistered(s, s.nextId);
    }
  }

  lemma NextIds(s: State, action: Action)
    requires OwnIds(s)
    ensures OwnIds(Next(s, action)) && PromptsStay(s, Next(s, action))
  {
    hide Next, OwnIds, PromptsStay;
    var t := Next(s, action);
    if action.BeginPrompt? {
      BeginIds(s, action.session);
    } else {
      var p := if action.StepPrompt? || action.Answer? || action.TimeOut? then action.prompt else 0;
      OneMoves(s, action, p);
      if t.prompts == s.prompts {
        SameIds(s, t);
      } else {
        MoveIds(s, t, p);
      }
    }
  }

  lemma BeginIds(s: State, session: string)
    requires OwnIds(s)
    ensures OwnIds(Next(s, BeginPrompt(session))) && PromptsStay(s, Next(s, BeginPrompt(session)))
  {
    assert Next(s, BeginPrompt(session)).prompts == s.prompts + [Prompt(session, Entered)];
  }

  lemma SameIds(s: State, t: State)
    requires OwnIds(s) && t.prompts == s.prompts && s.nextId <= t.nextId
    ensures OwnIds(t) && PromptsStay(s, t)
  {
  }

  /** Unless a prompt begins, only the prompt named in the action moves. */
  lemma OneMoves(s: State, action: Action, p: nat)
    requires !action.BeginPrompt?
    requires p == if action.StepPrompt? || action.Answer? || action.TimeOut? then action.prompt else 0
    ensures var t := Next(s, action);
      || (t.prompts == s.prompts && t.nextId == s.nextId)
      || (p < |s.prompts| == |t.prompts| && s.nextId <= t.nextId && HasId(t.prompts[p].stage)
        && t.prompts == s.prompts[p := s.prompts[p].(stage := t.prompts[p].stage)]
        && if s.prompts[p].stage.Entered? then t.prompts[p].stage.id == s.nextId < t.nextId
           else t.prompts[p].stage.id == s.prompts[p].stage.id)
  {
  }

  lemma MoveIds(s: State, t: State, p: nat)
    requires OwnIds(s) && p < |s.prompts| == |t.prompts| && s.nextId <= t.nextId
    requires t.prompts == s.prompts[p := s.prompts[p].(stage := t.prompts[p].stage)]
    requires HasId(t.prompts[p].stage)
    requires if s.prompts[p].stage.Entered? then t.prompts[p].stage.id == s.nextId < t.nextId
             else t.prompts[p].stage.id == s.prompts[p].stage.id
    ensures OwnIds(t) && PromptsStay(s, t)
  {
  }

  /** One event, appended in order. */
  lemma RecordKeeps(s: State, t: State, event: Event)
    requires EventsOwned(s) && InOrder(s) && PromptsStay(s, t) && t.log == s.log + [event]
    requires event.Registered? ==> Knows(t, event.session, event.id)
    requires EventInOrder(t.log, |s.log|)
    ensures EventsOwned(t) && InOrder(t)
    ensures forall k :: IsTaken(t.log, k) <==> IsTaken(s.log, k) || (event.Took? && k in event.ids)
    ensures forall e :: e in t.log <==> e in s.log || e == event
  {
    forall k
      ensures IsTaken(t.log, k) <==> IsTaken(s.log, k) || (event.Took? && k in event.ids)
    {
      TakenSnoc(s.log, event, k);
    }
    forall j | 0 <= j < |t.log|
      ensures EventInOrder(t.log, j)
    {
      if j < |s.log| {
        assert t.log[..j] == s.log[..j] && t.log[j] == s.log[j];
        assert EventInOrder(s.log, j);
      }
    }
    forall k, session | Registered(k, session) in t.log
      ensures Knows(t, session, k)
    {
      if Registered(k, session) in s.log {
        KnowsStays(s, t, session, k);
      }
    }
  }

  // One lemma for each step that touches the map or the record.

  lemma RegisterKeeps(s: State, p: nat)
    requires Inv(s) && p < |s.prompts| && s.prompts[p].stage.Numbered?
    ensures Inv(Stepped(s, p))
  {
    hide EventsOwned, InOrder;
    var t, id, session := Stepped(s, p), s.prompts[p].stage.id, s.prompts[p].session;
    NextIds(s, StepPrompt(p));
    assert IsPrompt(t.prompts[p], session, id);
    assert PromptAgrees(s, s.prompts[p]);
    assert t.log[|s.log|] == Registered(id, session);
    RecordKeeps(s, t, Registered(id, session));
    NotYetTaken(s, p);
    RegisterExact(s, t, p);
  }

  lemma NotYetTaken(s: State, p: nat)
    requires OwnIds(s) && PromptsAgree(s) && EventsOwned(s) && InOrder(s)
    requires p < |s.prompts| && s.prompts[p].stage.Numbered?
    ensures !IsTaken(s.log, s.prompts[p].stage.id)
  {
    var id := s.prompts[p].stage.id;
    assert PromptAgrees(s, s.prompts[p]);
    TakenWereRegistered(s, id);
    if other :| Registered(id, other) in s.log {
      OneSession(s, p, other);
    }
  }

  lemma RegisterExact(s: State, t: State, p: nat)
    requires MapExact(s) && NoEmpty(s.waiters) && PromptsAgree(s)
    requires p < |s.prompts| && s.prompts[p].stage.Numbered? && t == Stepped(s, p)
    requires forall k :: IsTaken(t.log, k) <==> IsTaken(s.log, k)
    requires !IsTaken(s.log, s.prompts[p].stage.id)
    ensures MapExact(t) && NoEmpty(t.waiters)
  {
    var id, session := s.prompts[p].stage.id, s.prompts[p].session;
    assert PromptAgrees(s, s.prompts[p]);
    forall other, k
      ensures Waits(t.waiters, other, k) <==>
        Registered(k, other) in t.log && !IsTaken(t.log, k) && Removed(k) !in t.log
    {
      assert Waits(t.waiters, other, k) <==> Waits(s.waiters, other, k) || (other == session && k == id);
      assert Removed(k) in t.log <==> Removed(k) in s.log;
    }
  }

  lemma TakeKeeps(s: State, i: nat)
    requires Inv(s) && i < |s.idles| && s.idles[i].taking
    ensures Inv(TookWaiters(s, i))
  {
    hide EventsOwned, InOrder;
    var t, session := TookWaiters(s, i), s.idles[i].session;
    var ids := t.idles[i].left;
    NextIds(s, StepIdle(i));
    assert forall id :: id in ids <==> Waits(s.waiters, session, id);
    assert t.log[|s.log|] == Took(session, ids) && t.log[..|s.log|] == s.log;
    RecordKeeps(s, t, Took(session, ids));
    forall id | id in ids
      ensures Signalled(id) !in s.log
    {
      if Signalled(id) in s.log {
        SignalledWereTaken(s, id);
      }
    }
    assert PromptsAgree(t) by {
      forall p | 0 <= p < |t.prompts|
        ensures PromptAgrees(t, t.prompts[p])
      {
        assert PromptAgrees(s, s.prompts[p]);
      }
    }
    TakeExact(s, t, i);
  }

  lemma TakeExact(s: State, t: State, i: nat)
    requires MapExact(s) && NoEmpty(s.waiters) && EventsOwned(s) && OwnIds(s) && i < |s.idles| && t == TookWaiters(s, i)
    requires forall k :: IsTaken(t.log, k) <==> IsTaken(s.log, k) || Waits(s.waiters, s.idles[i].session, k)
    ensures MapExact(t) && NoEmpty(t.waiters)
  {
    var session := s.idles[i].session;
    forall other, k
      ensures Waits(t.waiters, other, k) <==>
        Registered(k, other) in t.log && !IsTaken(t.log, k) && Removed(k) !in t.log
    {
      assert Waits(t.waiters, other, k) <==> Waits(s.waiters, other, k) && other != session;
      assert Registered(k, other) in t.log <==> Registered(k, other) in s.log;
      assert Removed(k) in t.log <==> Removed(k) in s.log;
      if Registered(k, other) in s.log && Registered(k, session) in s.log {
        SameSession(s, k, other, session);
      }
    }
  }

  lemma SameSession(s: State, id: nat, a: string, b: string)
    requires OwnIds(s) && EventsOwned(s) && Registered(id, a) in s.log && Registered(id, b) in s.log
    ensures a == b
  {
    assert Knows(s, a, id) && Knows(s, b, id);
    var p :| 0 <= p < |s.prompts| && IsPrompt(s.prompts[p], a, id);
    OneSession(s, p, b);
  }

  lemma SignalKeeps(s: State, i: nat, id: nat)
    requires Inv(s) && i < |s.idles| && id in s.idles[i].left
    ensures Inv(Next(s, Signal(i, id)))
  {
    hide EventsOwned, InOrder;
    var t := Next(s, Signal(i, id));
    NextIds(s, Signal(i, id));
    assert t.log[|s.log|] == Signalled(id) && t.log[..|s.log|] == s.log;
    RecordKeeps(s, t, Signalled(id));
    assert PromptsAgree(t) by {
      forall p | 0 <= p < |t.prompts|
        ensures PromptAgrees(t, t.prompts[p])
      {
        assert PromptAgrees(s, s.prompts[p]);
      }
    }
    assert MapExact(t);
  }

  lemma RemoveKeeps(s: State, p: nat)
    requires Inv(s) && p < |s.prompts| && s.prompts[p].stage.Removing?
    ensures Inv(Stepped(s, p))
  {
    hide EventsOwned, InOrder;
    var t, id, session := Stepped(s, p), s.prompts[p].stage.id, s.prompts[p].session;
    NextIds(s, StepPrompt(p));
    assert PromptAgrees(s, s.prompts[p]);
    assert t.log[|s.log|] == Removed(id) && t.log[..|s.log|] == s.log;
    RecordKeeps(s, t, Removed(id));
    assert PromptsAgree(t) by {
      forall q | 0 <= q < |t.prompts|
        ensures PromptAgrees(t, t.prompts[q])
      {
        assert PromptAgrees(s, s.prompts[q]);
      }
    }
    RemoveExact(s, t, p);
  }

  lemma RemoveWaits(w: Waiters, session: string, id: nat, other: string, k: nat)
    ensures Waits(AfterRemove(w, session, id), other, k) <==>
      Waits(w, other, k) && !(other == session && k == id)
  {
    if session in w {
      assert k in w[session] - {id} <==> k in w[session] && k != id;
    }
  }

  lemma RemoveExact(s: State, t: State, p: nat)
    requires MapExact(s) && NoEmpty(s.waiters) && EventsOwned(s) && OwnIds(s)
    requires p < |s.prompts| && s.prompts[p].stage.Removing? && t == Stepped(s, p)
    requires forall k :: IsTaken(t.log, k) <==> IsTaken(s.log, k)
    ensures MapExact(t) && NoEmpty(t.waiters)
  {
    var id, session := s.prompts[p].stage.id, s.prompts[p].session;
    forall other, k
      ensures Waits(t.waiters, other, k) <==>
        Registered(k, other) in t.log && !IsTaken(t.log, k) && Removed(k) !in t.log
    {
      RemoveWaits(s.waiters, session, id, other, k);
      assert Registered(k, other) in t.log <==> Registered(k, other) in s.log;
      assert Removed(k) in t.log <==> Removed(k) in s.log || k == id;
      if k == id && Registered(k, other) in s.log {
        OneSession(s, p, other);
      }
    }
  }

  /** The steps that leave the map and the record alone. */
  lemma SilentKeeps(s: State, action: Action)
    requires Inv(s) && Next(s, action).log == s.log && Next(s, action).waiters == s.waiters
    ensures Inv(Next(s, action))
  {
    hide InOrder, PromptsAgree;
    var t := Next(s, action);
    NextIds(s, action);
    SilentAgrees(s, action);
    forall k, session | Registered(k, session) in t.log
      ensures Knows(t, session, k)
    {
      KnowsStays(s, t, session, k);
    }
    SameOrder(s, t);
  }

  lemma SilentAgrees(s: State, action: Action)
    requires Inv(s) && Next(s, action).log == s.log
    ensures PromptsAgree(Next(s, action))
  {
    hide OwnIds, EventsOwned, InOrder, MapExact, LeftAgree, NoEmpty;
    var t := Next(s, action);
    FreshIds(s);
    forall q | 0 <= q < |t.prompts|
      ensures PromptAgrees(t, t.prompts[q])
    {
      if q < |s.prompts| {
        assert PromptAgrees(s, s.prompts[q]);
      }
    }
  }

  lemma SameOrder(s: State, t: State)
    requires InOrder(s) && t.log == s.log
    ensures InOrder(t)
  {
  }

  lemma {:induction false} RunInv(actions: seq<Action>)
    ensures Inv(Run(actions))
  {
    if actions != [] {
      var before, action := Run(actions[..|actions| - 1]), actions[|actions| - 1];
      RunInv(actions[..|actions| - 1]);
      NextKeeps(before, action);
    }
  }

  lemma NextKeeps(s: State, action: Action)
    requires Inv(s)
    ensures Inv(Next(s, action))
  {
    hide Inv;
    if action.StepPrompt? && action.prompt < |s.prompts| && s.prompts[action.prompt].stage.Numbered? {
      RegisterKeeps(s, action.prompt);
    } else if action.StepPrompt? && action.prompt < |s.prompts| && s.prompts[action.prompt].stage.Removing? {
      RemoveKeeps(s, action.prompt);
    } else if action.StepIdle? && action.idle < |s.idles| && s.idles[action.idle].taking {
      TakeKeeps(s, action.idle);
    } else if action.Signal? && action.idle < |s.idles| && action.id in s.idles[action.idle].left {
      SignalKeeps(s, action.idle, action.id);
    } else {
      SilentKeeps(s, action);
    }
  }

  // ---------- What it means ----------

  /** In every run the map holds exactly the waiters registered and neither taken by an idle nor removed,
      and no session is kept with no waiters. */
  lemma MapHoldsTheWaiting(actions: seq<Action>, session: string, id: nat)
    ensures var s := Run(actions);
      && NoEmpty(s.waiters)
      && (Waits(s.waiters, session, id) <==>
        Registered(id, session) in s.log && !IsTaken(s.log, id) && Removed(id) !in s.log)
  {
    RunInv(actions);
  }

  /** A waiter is signalled at most once, and only after an idle of its session that came after it
      registered. */
  lemma SignalledOnceByOwnIdle(actions: seq<Action>, j: nat, id: nat) returns (i: nat)
    requires j < |Run(actions).log| && Run(actions).log[j] == Signalled(id)
    ensures var log := Run(actions).log;
      && i < j && log[i].Took? && id in log[i].ids
      && Registered(id, log[i].session) in log[..i]
      && forall k :: 0 <= k < |log| && k != j ==> log[k] != Signalled(id)
  {
    RunInv(actions);
    var log := Run(actions).log;
    assert EventInOrder(log, j);
    i :| 0 <= i < |log[..j]| && log[..j][i].Took? && id in log[..j][i].ids;
    assert EventInOrder(log, i);
    forall k | 0 <= k < |log| && k != j
      ensures log[k] != Signalled(id)
    {
      assert EventInOrder(log, k);
      if j < k {
        assert log[..k][j] == Signalled(id);
      } else {
        assert log[..j][k] == log[k];
      }
    }
  }

  /** A prompt counts as released only if its waiter was signalled. */
  lemma ReleasedWereSignalled(actions: seq<Action>, p: nat)
    requires p < |Run(actions).prompts|
    requires Run(actions).prompts[p].stage.Finished? && Run(actions).prompts[p].stage.outcome.Released?
    ensures Signalled(Run(actions).prompts[p].stage.id) in Run(actions).log
  {
    RunInv(actions);
    assert PromptAgrees(Run(actions), Run(actions).prompts[p]);
  }

  /** Once all calls have finished the map is empty, whatever idles are still signalling. */
  lemma EmptyWhenFinished(actions: seq<Action>)
    requires forall p :: 0 <= p < |Run(actions).prompts| ==> Run(actions).prompts[p].stage.Finished?
    ensures Run(actions).waiters == map[]
  {
    RunInv(actions);
    var s := Run(actions);
    if s.waiters != map[] {
      var session, id := SomeoneWaits(s.waiters);
      FinishedAreRemoved(s, session, id);
    }
  }

  lemma SomeoneWaits(w: Waiters) returns (session: string, id: nat)
    requires NoEmpty(w) && w != map[]
    ensures Waits(w, session, id)
  {
    assert w.Keys != {};
    session :| session in w;
    id :| id in w[session];
  }

  lemma FinishedAreRemoved(s: State, session: string, id: nat)
    requires PromptsAgree(s) && EventsOwned(s) && Registered(id, session) in s.log
    requires forall p :: 0 <= p < |s.prompts| ==> s.prompts[p].stage.Finished?
    ensures Removed(id) in s.log
  {
    assert Knows(s, session, id);
    var p :| 0 <= p < |s.prompts| && IsPrompt(s.prompts[p], session, id);
    assert PromptAgrees(s, s.prompts[p]);
  }
}
