/** How prompts get away: why each ends as it does, and that it can (crates/oc-acp/src/event.rs). */
module IdleProgress {
  import opened IdleWaiters

  // ---------- Why a prompt ends as it does ----------

  /** The prompt's wait is over, with this outcome. */
  predicate IsOut(s: State, p: nat, outcome: Outcome) {
    p < |s.prompts| && (s.prompts[p].stage.Removing? || s.prompts[p].stage.Finished?)
    && s.prompts[p].stage.outcome == outcome
  }

  /** What ends a prompt's wait: its request fails, its time is up, or its signal is received. */
  predicate Causes(s: State, action: Action, p: nat, outcome: Outcome) {
    && p < |s.prompts|
    && match outcome
       case RequestFailed => s.prompts[p].stage.Requesting? && action == Answer(p, false)
       case TimedOut => s.prompts[p].stage.Waiting? && action == TimeOut(p)
       case Released =>
         s.prompts[p].stage.Waiting? && action == StepPrompt(p) && Signalled(s.prompts[p].stage.id) in s.log
  }

  lemma OutByCause(s: State, action: Action, p: nat, outcome: Outcome)
    ensures IsOut(Next(s, action), p, outcome) <==> IsOut(s, p, outcome) || Causes(s, action, p, outcome)
  {
  }

  /** One of the actions caused it, in the state it found. */
  ghost predicate WasCaused(actions: seq<Action>, p: nat, outcome: Outcome) {
    actions != [] &&
    var n := |actions| - 1;
    Causes(Run(actions[..n]), actions[n], p, outcome) || WasCaused(actions[..n], p, outcome)
  }

  /** In every run a prompt's wait is over with an outcome exactly when what causes this outcome has
      happened to it. */
  lemma {:induction false} OutcomeIff(actions: seq<Action>, p: nat, outcome: Outcome)
    ensures IsOut(Run(actions), p, outcome) <==> WasCaused(actions, p, outcome)
  {
    hide IsOut, Causes, Next;
    if actions == [] {
      NobodyOut(p, outcome);
    } else {
      var n := |actions| - 1;
      OutcomeIff(actions[..n], p, outcome);
      OutByCause(Run(actions[..n]), actions[n], p, outcome);
    }
  }

  lemma NobodyOut(p: nat, outcome: Outcome)
    ensures !IsOut(INITIAL, p, outcome)
  {
  }

  /** A waiting prompt's next step releases it exactly when its waiter has been signalled. */
  lemma ReleasedIff(actions: seq<Action>, p: nat)
    requires p < |Run(actions).prompts| && Run(actions).prompts[p].stage.Waiting?
    ensures var s := Run(actions);
      Next(s, StepPrompt(p)).prompts[p].stage == Removing(s.prompts[p].stage.id, Released) <==>
      Signalled(s.prompts[p].stage.id) in s.log
  {
  }

  // ---------- Ids in turn ----------

  function CountIds(prompts: seq<Prompt>): nat {
    if prompts == [] then 0 else (if HasId(prompts[0].stage) then 1 else 0) + CountIds(prompts[1..])
  }

  lemma {:induction false} CountUpdate(prompts: seq<Prompt>, p: nat, prompt: Prompt)
    requires p < |prompts| && HasId(prompt.stage)
    ensures CountIds(prompts[p := prompt]) == CountIds(prompts) + if HasId(prompts[p].stage) then 0 else 1
  {
    var all := prompts[p := prompt];
    if p == 0 {
      assert all[1..] == prompts[1..];
    } else {
      assert all[1..] == prompts[1..][p - 1 := prompt];
      CountUpdate(prompts[1..], p - 1, prompt);
    }
  }

  lemma {:induction false} CountSnoc(prompts: seq<Prompt>, prompt: Prompt)
    requires !HasId(prompt.stage)
    ensures CountIds(prompts + [prompt]) == CountIds(prompts)
  {
    var all := prompts + [prompt];
    if prompts == [] {
      assert all[1..] == [];
    } else {
      assert all[1..] == prompts[1..] + [prompt];
      CountSnoc(prompts[1..], prompt);
    }
  }

  lemma NextCounts(s: State, action: Action)
    requires s.nextId == 1 + CountIds(s.prompts)
    ensures Next(s, action).nextId == 1 + CountIds(Next(s, action).prompts)
  {
    hide CountIds;
    if action.BeginPrompt? {
      CountSnoc(s.prompts, Prompt(action.session, Entered));
    } else if action.StepPrompt? || action.Answer? || action.TimeOut? {
      if action.prompt < |s.prompts| && Next(s, action).prompts != s.prompts {
        CountUpdate(s.prompts, action.prompt, Next(s, action).prompts[action.prompt]);
      }
    }
  }

  /** In every run the ids given out are 1, 2 and so on: the next one is the number of those given, and one. */
  lemma {:induction false} IdsInTurn(actions: seq<Action>)
    ensures Run(actions).nextId == 1 + CountIds(Run(actions).prompts)
  {
    if actions != [] {
      IdsInTurn(actions[..|actions| - 1]);
      NextCounts(Run(actions[..|actions| - 1]), actions[|actions| - 1]);
    }
  }

  // ---------- Taken waiters are signalled ----------

  ghost predicate HasSignaller(s: State, id: nat) {
    exists i: nat :: Holds(s, i, id)
  }

  ghost predicate Holds(s: State, i: nat, id: nat) {
    i < |s.idles| && id in s.idles[i].left
  }

  /** A taken waiter is signalled or held by an idle that has yet to signal it; an idle holds none before
      it has taken. */
  ghost predicate TakenHeld(s: State) {
    && (forall id :: IsTaken(s.log, id) && Signalled(id) !in s.log ==> HasSignaller(s, id))
    && forall i :: 0 <= i < |s.idles| && s.idles[i].taking ==> s.idles[i].left == {}
  }

  lemma HeldStays(s: State, action: Action, id: nat, i: nat)
    requires Holds(s, i, id) && TakenHeld(s)
    ensures var t := Next(s, action); Holds(t, i, id) || Signalled(id) in t.log
  {
  }

  lemma NextHeld(s: State, action: Action)
    requires TakenHeld(s)
    ensures TakenHeld(Next(s, action))
  {
    hide Holds;
    var t := Next(s, action);
    forall id | IsTaken(t.log, id) && Signalled(id) !in t.log
      ensures HasSignaller(t, id)
    {
      if IsTaken(s.log, id) {
        LogGrows(s, action);
        var i: nat :| Holds(s, i, id);
        HeldStays(s, action, id, i);
      } else {
        JustTaken(s, action, id);
      }
    }
    TakingHoldNone(s, action);
  }

  lemma LogGrows(s: State, action: Action)
    ensures s.log <= Next(s, action).log
  {
  }

  lemma TakingHoldNone(s: State, action: Action)
    requires forall i :: 0 <= i < |s.idles| && s.idles[i].taking ==> s.idles[i].left == {}
    ensures var t := Next(s, action);
      forall i :: 0 <= i < |t.idles| && t.idles[i].taking ==> t.idles[i].left == {}
  {
  }

  lemma JustTaken(s: State, action: Action, id: nat)
    requires !IsTaken(s.log, id) && IsTaken(Next(s, action).log, id)
    ensures HasSignaller(Next(s, action), id)
  {
    var t := Next(s, action);
    assert |t.log| > |s.log| && t.log == s.log + [t.log[|s.log|]];
    TakenSnoc(s.log, t.log[|s.log|], id);
    assert Holds(t, action.idle, id);
  }

  lemma {:induction false} RunHeld(actions: seq<Action>)
    ensures TakenHeld(Run(actions))
  {
    if actions != [] {
      RunHeld(actions[..|actions| - 1]);
      NextHeld(Run(actions[..|actions| - 1]), actions[|actions| - 1]);
    }
  }

  /** In every run a waiter that was taken and is not signalled is held by exactly one idle. */
  lemma OneSignaller(actions: seq<Action>, id: nat) returns (i: nat)
    requires IsTaken(Run(actions).log, id) && Signalled(id) !in Run(actions).log
    ensures Holds(Run(actions), i, id)
    ensures forall j: nat :: Holds(Run(actions), j, id) ==> j == i
  {
    RunHeld(actions);
    RunInv(actions);
    assert HasSignaller(Run(actions), id);
    i :| Holds(Run(actions), i, id);
  }

  // ---------- Every prompt can get away ----------

  function Continue(s: State, more: seq<Action>): State
    decreases |more|
  {
    if more == [] then s else Continue(Next(s, more[0]), more[1..])
  }

  lemma RunSnoc(actions: seq<Action>, action: Action)
    ensures Run(actions + [action]) == Next(Run(actions), action)
  {
    assert (actions + [action])[..|actions|] == actions;
  }

  lemma {:induction false} ContinueRuns(actions: seq<Action>, more: seq<Action>)
    ensures Continue(Run(actions), more) == Run(actions + more)
    decreases |more|
  {
    hide Run, Next;
    if more == [] {
      assert actions + more == actions;
    } else {
      RunSnoc(actions, more[0]);
      ContinueRuns(actions + [more[0]], more[1..]);
      FirstOfMore(actions, more);
    }
  }

  lemma FirstOfMore(actions: seq<Action>, more: seq<Action>)
    requires more != []
    ensures (actions + [more[0]]) + more[1..] == actions + more
  {
  }

  lemma ContinueWith(s: State, action: Action, more: seq<Action>)
    ensures Continue(s, [action] + more) == Continue(Next(s, action), more)
  {
    assert ([action] + more)[1..] == more;
  }

  ghost predicate NoTimeOuts(more: seq<Action>) {
    forall i :: 0 <= i < |more| ==> !more[i].TimeOut?
  }

  lemma ReceivesAndFinishes(s: State, p: nat) returns (more: seq<Action>)
    requires p < |s.prompts| && s.prompts[p].stage.Waiting? && Signalled(s.prompts[p].stage.id) in s.log
    ensures NoTimeOuts(more) && p < |Continue(s, more).prompts|
    ensures Continue(s, more).prompts[p].stage == Finished(s.prompts[p].stage.id, Released)
  {
    more := [StepPrompt(p)] + ([StepPrompt(p)] + []);
    ContinueWith(s, StepPrompt(p), [StepPrompt(p)] + []);
    ContinueWith(Next(s, StepPrompt(p)), StepPrompt(p), []);
  }

  lemma SignalledAndFinishes(s: State, p: nat) returns (more: seq<Action>)
    requires TakenHeld(s) && p < |s.prompts| && s.prompts[p].stage.Waiting? && IsTaken(s.log, s.prompts[p].stage.id)
    ensures NoTimeOuts(more) && p < |Continue(s, more).prompts|
    ensures Continue(s, more).prompts[p].stage == Finished(s.prompts[p].stage.id, Released)
  {
    var id := s.prompts[p].stage.id;
    if Signalled(id) in s.log {
      more := ReceivesAndFinishes(s, p);
    } else {
      var i: nat :| Holds(s, i, id);
      var signal := Signal(i, id);
      var later := ReceivesAndFinishes(Next(s, signal), p);
      more := [signal] + later;
      ContinueWith(s, signal, later);
    }
  }

  /** A prompt whose waiter an idle of its session has taken can still finish as released, without any time
      running out, however far its request and the signals have come. */
  lemma CanBeReleased(actions: seq<Action>, p: nat) returns (more: seq<Action>)
    requires p < |Run(actions).prompts|
    requires Run(actions).prompts[p].stage.Requesting? || Run(actions).prompts[p].stage.Waiting?
    requires IsTaken(Run(actions).log, Run(actions).prompts[p].stage.id)
    ensures NoTimeOuts(more) && p < |Run(actions + more).prompts|
    ensures Run(actions + more).prompts[p].stage == Finished(Run(actions).prompts[p].stage.id, Released)
  {
    var s := Run(actions);
    RunHeld(actions);
    if s.prompts[p].stage.Waiting? {
      more := SignalledAndFinishes(s, p);
    } else {
      var answer := Answer(p, true);
      NextHeld(s, answer);
      var later := SignalledAndFinishes(Next(s, answer), p);
      more := [answer] + later;
      ContinueWith(s, answer, later);
    }
    ContinueRuns(actions, more);
  }

  /** A registered waiter that no idle has taken yet is taken by the next idle of its session. */
  lemma NextIdleTakes(actions: seq<Action>, p: nat)
    requires p < |Run(actions).prompts|
    requires Run(actions).prompts[p].stage.Requesting? || Run(actions).prompts[p].stage.Waiting?
    requires !IsTaken(Run(actions).log, Run(actions).prompts[p].stage.id)
    ensures var s := Run(actions);
      var begun := Next(s, BeginIdle(s.prompts[p].session));
      var t := Next(begun, StepIdle(|s.idles|));
      t.prompts == s.prompts && IsTaken(t.log, s.prompts[p].stage.id)
  {
    RunInv(actions);
    var s := Run(actions);
    var session, id := s.prompts[p].session, s.prompts[p].stage.id;
    assert PromptAgrees(s, s.prompts[p]);
    assert Waits(s.waiters, session, id);
    var t := Next(Next(s, BeginIdle(session)), StepIdle(|s.idles|));
    assert t.log[|s.log|] == Took(session, s.waiters[session]);
  }

  /** Whatever happens elsewhere, a prompt can always be brought to its end. */
  lemma CanFinish(s: State, p: nat) returns (more: seq<Action>)
    requires p < |s.prompts|
    ensures p < |Continue(s, more).prompts| && Continue(s, more).prompts[p].stage.Finished?
    decreases match s.prompts[p].stage
              case Entered => 5 case Numbered(_) => 4 case Requesting(_) => 3 case Waiting(_) => 2
              case Removing(_, _) => 1 case Finished(_, _) => 0
  {
    if s.prompts[p].stage.Finished? {
      more := [];
    } else {
      var action := if s.prompts[p].stage.Requesting? then Answer(p, true)
                    else if s.prompts[p].stage.Waiting? then TimeOut(p)
                    else StepPrompt(p);
      var later := CanFinish(Next(s, action), p);
      more := [action] + later;
      ContinueWith(s, action, later);
    }
  }
}
