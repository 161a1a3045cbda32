/** When the calls of a directory share a load, and when an eviction removes a snapshot
    (crates/oc-acp/src/directory.rs). */
module DirectoryCacheSharing {
  import opened Wrappers
  import opened DirectoryCache
  import opened DirectoryCacheRuns

  lemma RunSnoc<S(!new), E(!new)>(actions: seq<Action<S, E>>, action: Action<S, E>)
    ensures Run(actions + [action]) == Next(Run(actions), action)
  {
    assert (actions + [action])[..|actions|] == actions;
  }

  /** What more actions lead to. */
  function Continue<S(==), E(==)>(s: State<S, E>, more: seq<Action<S, E>>): State<S, E>
    decreases |more|
  {
    if more == [] then s else Continue(Next(s, more[0]), more[1..])
  }

  lemma {:induction false} ContinueRuns<S(!new), E(!new)>(actions: seq<Action<S, E>>, more: seq<Action<S, E>>)
    ensures Continue(Run(actions), more) == Run(actions + more)
    decreases |more|
  {
    if more == [] {
      assert actions + more == actions;
    } else {
      RunSnoc(actions, more[0]);
      ContinueRuns(actions + [more[0]], more[1..]);
      assert actions + more == actions + [more[0]] + more[1..];
    }
  }

  // ---------- Starting a load ----------

  predicate Writes<S, E>(event: Event<S, E>, slot: nat) {
    event.slot == slot && (event.Overwrote? || event.result.Success?)
  }

  /** A refresh has written to the slot, or a `get` has answered with a snapshot from it or into it. */
  ghost predicate Written<S, E>(log: seq<Event<S, E>>, slot: nat) {
    exists j :: 0 <= j < |log| && Writes(log[j], slot)
  }

  ghost predicate EmptyUntilWritten<S(!new), E(!new)>(s: State<S, E>) {
    forall k :: 0 <= k < |s.shared.slots| ==> (s.shared.slots[k].None? <==> !Written(s.log, k))
  }

  lemma WrittenSnoc<S, E>(log: seq<Event<S, E>>, event: Event<S, E>, slot: nat)
    ensures Written(log + [event], slot) <==> Written(log, slot) || Writes(event, slot)
  {
    var more := log + [event];
    assert more[|log|] == event;
    if Written(log, slot) {
      var j :| 0 <= j < |log| && Writes(log[j], slot);
      assert more[j] == log[j];
    }
  }

  lemma NextEmpty<S(!new), E(!new)>(s: State<S, E>, action: Action<S, E>)
    requires Inv(s) && EmptyUntilWritten(s)
    ensures EmptyUntilWritten(Next(s, action))
  {
    var t := Next(s, action);
    forall k | 0 <= k < |t.shared.slots|
      ensures t.shared.slots[k].None? <==> !Written(t.log, k)
    {
      if t.log == s.log {
        assert k < |s.shared.slots| ==> t.shared.slots[k] == s.shared.slots[k];
      } else {
        assert CallOwned(s, s.calls[action.call]);
        assert t.log == s.log + [t.log[|s.log|]];
        WrittenSnoc(s.log, t.log[|s.log|], k);
      }
    }
  }

  lemma {:induction false} RunEmpty<S(!new), E(!new)>(actions: seq<Action<S, E>>)
    ensures EmptyUntilWritten(Run(actions))
  {
    if actions != [] {
      RunInv(actions[..|actions| - 1]);
      RunEmpty(actions[..|actions| - 1]);
      NextEmpty(Run(actions[..|actions| - 1]), actions[|actions| - 1]);
    }
  }

  /** In every run a `get` that looks into its slot starts a load of its own exactly when nothing has been
      written to the slot; otherwise it is done, with what the slot holds. */
  lemma OwnLoadIff<S(!new), E(!new)>(actions: seq<Action<S, E>>, k: nat, load: Result<S, E>)
    requires k < |Run(actions).calls| && Run(actions).calls[k].stage.Looking?
    ensures var s := Run(actions);
      var slot, stage := s.calls[k].stage.slot, Next(s, Step(k, load)).calls[k].stage;
      && (stage == Loading(slot) <==> !Written(s.log, slot))
      && (Written(s.log, slot) ==>
        slot < |s.shared.slots| && s.shared.slots[slot].Some? && stage == Finished(s.shared.slots[slot].value))
  {
    RunInv(actions);
    RunEmpty(actions);
    assert CallOwned(Run(actions), Run(actions).calls[k]);
  }

  // ---------- What calls answer ----------

  /** A refresh has its answer, whatever it still has to do. */
  predicate HasAnswer<S(!new, ==), E(!new, ==)>(s: State<S, E>, k: nat, r: Result<S, E>) {
    && k < |s.calls| && s.calls[k].kind.Refresh?
    && match s.calls[k].stage
       case Loaded(_, result) => result == r
       case Clearing(_, result) => result == r
       case Finished(result) => result == r
       case _ => false
  }

  ghost predicate RefreshesLoad<S(!new), E(!new)>(s: State<S, E>) {
    forall k :: 0 <= k < |s.calls| && s.calls[k].kind.Refresh? ==> !s.calls[k].stage.Looking?
  }

  /** A refresh's load returns. */
  predicate Loads<S(!new, ==), E(!new, ==)>(s: State<S, E>, action: Action<S, E>, k: nat, r: Result<S, E>) {
    k < |s.calls| && s.calls[k].kind.Refresh? && s.calls[k].stage.Loading? && action == Step(k, r)
  }

  lemma AnsweredByLoad<S(!new), E(!new)>(s: State<S, E>, action: Action<S, E>, k: nat, r: Result<S, E>)
    requires Inv(s) && RefreshesLoad(s)
    ensures RefreshesLoad(Next(s, action))
    ensures HasAnswer(Next(s, action), k, r) <==> HasAnswer(s, k, r) || Loads(s, action, k, r)
  {
    if action.Step? && action.call < |s.calls| {
      assert CallOwned(s, s.calls[action.call]);
    }
  }

  ghost predicate WasLoaded<S(!new), E(!new)>(actions: seq<Action<S, E>>, k: nat, r: Result<S, E>) {
    actions != [] &&
    var n := |actions| - 1;
    Loads(Run(actions[..n]), actions[n], k, r) || WasLoaded(actions[..n], k, r)
  }

  /** In every run a refresh has an answer exactly when its own load has returned it: it always loads, and
      never answers from the cache. */
  lemma {:induction false} RefreshAnswersIff<S(!new), E(!new)>(actions: seq<Action<S, E>>, k: nat, r: Result<S, E>)
    ensures HasAnswer(Run(actions), k, r) <==> WasLoaded(actions, k, r)
    ensures RefreshesLoad(Run(actions))
  {
    if actions != [] {
      hide HasAnswer, Loads, Next, RefreshesLoad, Inv;
      var n := |actions| - 1;
      RunInv(actions[..n]);
      RefreshAnswersIff(actions[..n], k, r);
      AnsweredByLoad(Run(actions[..n]), actions[n], k, r);
    }
  }

  /** A call left to itself comes to its end, in every run. */
  lemma CanFinish<S(!new), E(!new)>(s: State<S, E>, k: nat, load: Result<S, E>) returns (more: seq<Action<S, E>>)
    requires Inv(s) && k < |s.calls|
    ensures k < |Continue(s, more).calls| && Continue(s, more).calls[k].stage.Finished?
    ensures forall i :: 0 <= i < |more| ==> more[i] == Step(k, load)
    decreases Distance(s.calls[k].stage)
  {
    more := [];
    if !s.calls[k].stage.Finished? {
      NextInv(s, Step(k, load));
      StepsNearer(s, k, load);
      var later := CanFinish(Next(s, Step(k, load)), k, load);
      more := [Step(k, load)] + later;
      assert more[1..] == later;
    }
  }

  function Distance<S, E>(stage: Stage<S, E>): nat {
    match stage
    case Start => 5 case Looking(_) => 4 case Loading(_) => 3 case Loaded(_, _) => 2 case Clearing(_, _) => 1
    case Finished(_) => 0
  }

  lemma StepsNearer<S(!new), E(!new)>(s: State<S, E>, k: nat, load: Result<S, E>)
    requires Inv(s) && k < |s.calls| && !s.calls[k].stage.Finished?
    ensures var t := Next(s, Step(k, load));
      k < |t.calls| && Distance(t.calls[k].stage) < Distance(s.calls[k].stage)
  {
    assert CallOwned(s, s.calls[k]);
  }

  // ---------- Removing a snapshot ----------

  /** The directory's entry, which holds a snapshot, goes. */
  ghost predicate Removes<S(!new), E(!new)>(s: State<S, E>, t: State<S, E>, directory: string) {
    Snapshot(Cached(s.shared, directory)).Some? && directory !in t.shared.entries
  }

  /** In every run an eviction removes a snapshot exactly when the directory's entry is, by then, a slot
      known to hold one. */
  lemma EvictionRemovesIff<S(!new), E(!new)>(actions: seq<Action<S, E>>, k: nat, load: Result<S, E>)
    requires k < |Run(actions).calls| && Run(actions).calls[k].stage.Clearing?
    ensures var s := Run(actions);
      var d := s.calls[k].directory;
      Removes(s, Next(s, Step(k, load)), d) <==>
        d in s.shared.entries && Settled(s.log, s.shared.entries[d]).Some?
  {
    RunInv(actions);
  }

  predicate StepsOn<S(!new), E(!new)>(s: State<S, E>, action: Action<S, E>, directory: string) {
    action.Step? && action.call < |s.calls| && s.calls[action.call].directory == directory
  }

  /** What a directory's calls work on is the same. */
  ghost predicate SameFor<S(!new), E(!new)>(s: State<S, E>, t: State<S, E>, directory: string) {
    && s.owners <= t.owners && |s.calls| <= |t.calls|
    && |s.owners| == |s.shared.slots| && |t.owners| == |t.shared.slots|
    && (directory in s.shared.entries <==> directory in t.shared.entries)
    && (directory in s.shared.entries ==> t.shared.entries[directory] == s.shared.entries[directory])
    && (forall slot :: 0 <= slot < |s.owners| && s.owners[slot] == directory ==>
      t.shared.slots[slot] == s.shared.slots[slot])
    && forall k :: 0 <= k < |s.calls| && s.calls[k].directory == directory ==> t.calls[k] == s.calls[k]
  }

  /** The steps of other directories' calls change nothing for a directory. */
  lemma OthersKeep<S(!new), E(!new)>(s: State<S, E>, action: Action<S, E>, directory: string)
    requires Inv(s) && !StepsOn(s, action, directory)
    ensures SameFor(s, Next(s, action), directory)
  {
    if action.Step? && action.call < |s.calls| {
      assert CallOwned(s, s.calls[action.call]);
    }
  }

  /** Through `between` no call of the directory takes a step. */
  ghost predicate Quiet<S(!new), E(!new)>(s: State<S, E>, between: seq<Action<S, E>>, directory: string)
    decreases |between|
  {
    between != [] ==> !StepsOn(s, between[0], directory) && Quiet(Next(s, between[0]), between[1..], directory)
  }

  lemma {:induction false} QuietKeeps<S(!new), E(!new)>(
    s: State<S, E>, between: seq<Action<S, E>>, directory: string)
    requires Inv(s) && Quiet(s, between, directory)
    ensures SameFor(s, Continue(s, between), directory)
    decreases |between|
  {
    if between != [] {
      hide Next, SameFor, Inv;
      var t := Next(s, between[0]);
      OthersKeep(s, between[0], directory);
      NextInv(s, between[0]);
      QuietKeeps(t, between[1..], directory);
      SameForThrough(s, t, Continue(t, between[1..]), directory);
    }
  }

  lemma SameForThrough<S(!new), E(!new)>(s: State<S, E>, t: State<S, E>, u: State<S, E>, directory: string)
    requires SameFor(s, t, directory) && SameFor(t, u, directory)
    ensures SameFor(s, u, directory)
  {
  }

  /** If no call of the directory takes a step between a failing call's last write and its eviction, the
      eviction removes a snapshot exactly when the entry was already another slot, holding one. */
  lemma QuietEvictionIff<S(!new), E(!new)>(
    actions: seq<Action<S, E>>, k: nat, between: seq<Action<S, E>>, load: Result<S, E>)
    requires k < |Run(actions).calls| && Run(actions).calls[k].stage.Loaded?
    requires Next(Run(actions), Step(k, load)).calls[k].stage.Clearing?
    requires Quiet(Next(Run(actions), Step(k, load)), between, Run(actions).calls[k].directory)
    ensures var s, t := Run(actions), Run(actions + [Step(k, load)] + between);
      var d := s.calls[k].directory;
      && k < |t.calls| && t.calls[k].stage.Clearing? && t.calls[k].directory == d
      && (Removes(t, Next(t, Step(k, load)), d) <==>
        d in s.shared.entries && s.shared.entries[d] != s.calls[k].stage.slot
        && Settled(s.log, s.shared.entries[d]).Some?)
  {
    hide Run, Next;
    var s := Run(actions);
    var d, settled := s.calls[k].directory, Next(s, Step(k, load));
    RunInv(actions);
    NextInv(s, Step(k, load));
    RunSnoc(actions, Step(k, load));
    ContinueRuns(actions + [Step(k, load)], between);
    QuietKeeps(settled, between, d);
    FailureSettles(s, k, load);
    var t := Continue(settled, between);
    EvictionRemoves(t, k, load);
    EntrySnapshots(s, settled, t, d, s.calls[k].stage.slot);
  }

  /** A failing call's last write leaves no snapshot in its slot, and the rest alone. */
  lemma FailureSettles<S(!new), E(!new)>(s: State<S, E>, k: nat, load: Result<S, E>)
    requires Inv(s) && k < |s.calls| && s.calls[k].stage.Loaded?
    requires Next(s, Step(k, load)).calls[k].stage.Clearing?
    ensures var t, slot := Next(s, Step(k, load)), s.calls[k].stage.slot;
      && k < |t.calls| && t.calls[k].stage.Clearing? && t.calls[k].directory == s.calls[k].directory
      && slot < |s.shared.slots| == |t.shared.slots| && t.owners == s.owners && t.shared.entries == s.shared.entries
      && Snapshot(t.shared.slots[slot]).None?
      && forall i :: 0 <= i < |s.shared.slots| && i != slot ==> t.shared.slots[i] == s.shared.slots[i]
  {
    assert CallOwned(s, s.calls[k]);
  }

  lemma EvictionRemoves<S(!new), E(!new)>(t: State<S, E>, k: nat, load: Result<S, E>)
    requires k < |t.calls| && t.calls[k].stage.Clearing?
    ensures Removes(t, Next(t, Step(k, load)), t.calls[k].directory) <==>
      Snapshot(Cached(t.shared, t.calls[k].directory)).Some?
  {
  }

  lemma EntrySnapshots<S(!new), E(!new)>(
    s: State<S, E>, settled: State<S, E>, t: State<S, E>, directory: string, slot: nat)
    requires Inv(s) && slot < |s.shared.slots| == |settled.shared.slots|
    requires settled.owners == s.owners && settled.shared.entries == s.shared.entries
    requires Snapshot(settled.shared.slots[slot]).None?
    requires forall i :: 0 <= i < |s.shared.slots| && i != slot ==> settled.shared.slots[i] == s.shared.slots[i]
    requires SameFor(settled, t, directory)
    ensures Snapshot(Cached(t.shared, directory)).Some? <==>
      directory in s.shared.entries && s.shared.entries[directory] != slot
      && Settled(s.log, s.shared.entries[directory]).Some?
  {
    if directory in s.shared.entries {
      assert s.owners[s.shared.entries[directory]] == directory;
    }
  }

  // ---------- A call left alone ----------

  /** A call's slot is its directory's entry, and holds no snapshot once the call has begun a load. */
  ghost predicate KeepsEntry<S(!new), E(!new)>(s: State<S, E>, call: Call<S, E>) {
    match call.stage
    case Start => true
    case Finished(_) => true
    case Looking(slot) => OwnEntry(s, call.directory, slot)
    case Loading(slot) => OwnEntry(s, call.directory, slot) && (call.kind.Get? ==> s.shared.slots[slot].None?)
    case Loaded(slot, _) => OwnEntry(s, call.directory, slot) && (call.kind.Get? ==> s.shared.slots[slot].None?)
    case Clearing(slot, _) => OwnEntry(s, call.directory, slot) && Snapshot(s.shared.slots[slot]).None?
  }

  ghost predicate OwnEntry<S(!new), E(!new)>(s: State<S, E>, directory: string, slot: nat) {
    && slot < |s.owners| == |s.shared.slots| && s.owners[slot] == directory
    && directory in s.shared.entries && s.shared.entries[directory] == slot
  }

  /** Through `more` no other call of the directory takes a step. */
  ghost predicate LeftAlone<S(!new), E(!new)>(s: State<S, E>, more: seq<Action<S, E>>, k: nat, directory: string)
    decreases |more|
  {
    more != [] ==>
      && (StepsOn(s, more[0], directory) ==> more[0].call == k)
      && LeftAlone(Next(s, more[0]), more[1..], k, directory)
  }

  lemma AloneKeeps<S(!new), E(!new)>(s: State<S, E>, k: nat, load: Result<S, E>)
    requires Inv(s) && k < |s.calls| && KeepsEntry(s, s.calls[k])
    ensures var t := Next(s, Step(k, load));
      KeepsEntry(t, t.calls[k]) && t.calls[k].directory == s.calls[k].directory
  {
    assert CallOwned(s, s.calls[k]);
  }

  lemma OthersKeepEntry<S(!new), E(!new)>(s: State<S, E>, t: State<S, E>, k: nat)
    requires k < |s.calls| && KeepsEntry(s, s.calls[k]) && SameFor(s, t, s.calls[k].directory)
    ensures k < |t.calls| && t.calls[k] == s.calls[k] && KeepsEntry(t, t.calls[k])
  {
  }

  lemma {:induction false} LeftAloneKeeps<S(!new), E(!new)>(s: State<S, E>, more: seq<Action<S, E>>, k: nat)
    requires Inv(s) && k < |s.calls| && KeepsEntry(s, s.calls[k])
    requires LeftAlone(s, more, k, s.calls[k].directory)
    ensures var t := Continue(s, more);
      k < |t.calls| && t.calls[k].directory == s.calls[k].directory && KeepsEntry(t, t.calls[k])
    decreases |more|
  {
    if more != [] {
      hide Next, SameFor, KeepsEntry, Inv;
      var t := Next(s, more[0]);
      NextInv(s, more[0]);
      if StepsOn(s, more[0], s.calls[k].directory) {
        AloneKeeps(s, k, more[0].load);
        StepStays(s, more[0]);
      } else {
        OthersKeep(s, more[0], s.calls[k].directory);
        OthersKeepEntry(s, t, k);
      }
      LeftAloneKeeps(t, more[1..], k);
    }
  }

  lemma StepStays<S(!new), E(!new)>(s: State<S, E>, action: Action<S, E>)
    requires action.Step?
    ensures |Next(s, action).calls| == |s.calls|
  {
  }

  /** A call that no other call of its directory interferes with, from its first step to its eviction,
      never removes a snapshot. */
  lemma LeftAloneRemovesNothing<S(!new), E(!new)>(
    actions: seq<Action<S, E>>, more: seq<Action<S, E>>, k: nat, load: Result<S, E>)
    requires k < |Run(actions).calls| && Run(actions).calls[k].stage.Start?
    requires LeftAlone(Run(actions), more, k, Run(actions).calls[k].directory)
    ensures var t := Run(actions + more);
      k < |t.calls| && (t.calls[k].stage.Clearing? ==> !Removes(t, Next(t, Step(k, load)), t.calls[k].directory))
  {
    hide Run, Next;
    RunInv(actions);
    ContinueRuns(actions, more);
    LeftAloneKeeps(Run(actions), more, k);
  }

  // ---------- Witnesses ----------

  /** `n` calls of `get`, each brought up to its load before the next begins. */
  function Herd<S, E>(n: nat, d: string, any: Result<S, E>): seq<Action<S, E>> {
    if n == 0 then [] else Herd(n - 1, d, any) + [Begin(Get, d)] + [Step(n - 1, any)] + [Step(n - 1, any)]
  }

  /** Loads are not shared: a call starts its own whenever the slot is empty as it looks, so any number
      of loads of one directory can be under way at once. */
  lemma {:induction false} LoadsNotShared<S(!new), E(!new)>(n: nat, d: string, any: Result<S, E>)
    ensures var s := Run(Herd(n, d, any));
      && s.calls == seq(n, _ => Call(Get, d, Loading(0)))
      && s.shared == if n == 0 then Shared(map[], []) else Shared(map[d := 0], [None])
  {
    hide Next;
    if n > 0 {
      LoadsNotShared(n - 1, d, any);
      OneMoreLoad(Run(Herd(n - 1, d, any)), n - 1, d, any);
      RunHerd(n - 1, d, any);
    }
  }

  lemma RunHerd<S(!new), E(!new)>(n: nat, d: string, any: Result<S, E>)
    ensures Run(Herd(n + 1, d, any)) ==
      Next(Next(Next(Run(Herd(n, d, any)), Begin(Get, d)), Step(n, any)), Step(n, any))
  {
    hide Run, Next;
    var begun := Herd(n, d, any) + [Begin(Get, d)];
    RunSnoc(Herd(n, d, any), Begin(Get, d));
    RunSnoc(begun, Step(n, any));
    RunSnoc(begun + [Step(n, any)], Step(n, any));
  }

  lemma OneMoreLoad<S(!new), E(!new)>(s: State<S, E>, n: nat, d: string, any: Result<S, E>)
    requires s.calls == seq(n, _ => Call(Get, d, Loading(0)))
    requires s.shared == if n == 0 then Shared(map[], []) else Shared(map[d := 0], [None])
    ensures var t := Next(Next(Next(s, Begin(Get, d)), Step(n, any)), Step(n, any));
      t.calls == seq(n + 1, _ => Call(Get, d, Loading(0))) && t.shared == Shared(map[d := 0], [None])
  {
    var begun := Next(s, Begin(Get, d));
    assert begun.calls == s.calls + [Call(Get, d, Start)] && begun.shared == s.shared;
    var looking := Next(begun, Step(n, any));
    assert looking.shared == Shared(map[d := 0], [None]);
    assert looking.calls == s.calls + [Call(Get, d, Looking(0))];
    var loading := Next(looking, Step(n, any));
    assert loading.calls == s.calls + [Call(Get, d, Loading(0))] && loading.shared == looking.shared;
  }

  /** A failing `get` removes whatever entry its directory has by then, here one just refreshed. */
  lemma HealthyEntryEvicted<S(!new), E(!new)>(d: string, v: S, e: E)
    returns (actions: seq<Action<S, E>>)
    ensures var s := Run(actions);
      && s.calls == [Call(Get, d, Finished(Failure(e))), Call(Refresh, d, Finished(Success(v)))]
      && d !in s.shared.entries
  {
    hide Run;
    actions := FailingGet(d, e);
    var refresh := Step(1, Success(v));
    actions := Then(actions, Begin(Refresh, d));
    actions := Then(actions, refresh);
    actions := Then(actions, refresh);
    actions := Then(actions, refresh);
    assert Run(actions).shared == Shared(map[d := 0], [Some(Success(v))]);
    assert Run(actions).calls == [Call(Get, d, Clearing(0, Failure(e))), Call(Refresh, d, Finished(Success(v)))];
    actions := Then(actions, Step(0, Failure(e)));
  }

  /** Even with nothing in between, a `get` whose slot was abandoned while it loaded removes the snapshot of
      the slot that replaced it. */
  lemma StaleGetEvicts<S(!new), E(!new)>(d: string, v: S, e: E) returns (actions: seq<Action<S, E>>)
    ensures var s := Run(actions);
      var t := Next(Next(s, Step(0, Failure(e))), Step(0, Failure(e)));
      && |s.calls| == 3 && s.calls[0] == Call(Get, d, Loaded(0, Failure(e)))
      && Cached(s.shared, d) == Some(Success(v)) && d !in t.shared.entries
  {
    hide Run;
    var waiting, failed, loads := Call(Get, d, Loading(0)), Call(Get, d, Finished(Failure(e))), Step(2, Success(v));
    actions := AbandonedSlot(d, e);
    actions := Then(actions, Begin(Refresh, d));
    actions := Then(actions, loads);
    assert Run(actions).shared == Shared(map[d := 1], [None, None]);
    assert Run(actions).calls == [waiting, failed, Call(Refresh, d, Loading(1))];
    actions := Then(actions, loads);
    actions := Then(actions, loads);
    assert Run(actions).shared == Shared(map[d := 1], [None, Some(Success(v))]);
    assert Run(actions).calls == [waiting, failed, Call(Refresh, d, Finished(Success(v)))];
    actions := Then(actions, Step(0, Failure(e)));
    assert Run(actions).calls[0] == Call(Get, d, Loaded(0, Failure(e)));
    StaleClears(Run(actions), d, e);
  }

  lemma StaleClears<S(!new), E(!new)>(s: State<S, E>, d: string, e: E)
    requires s.calls != [] && s.calls[0] == Call(Get, d, Loaded(0, Failure(e)))
    requires s.shared.slots != [] && s.shared.slots[0].None?
    ensures d !in Next(Next(s, Step(0, Failure(e))), Step(0, Failure(e))).shared.entries
  {
  }

  /** One `get` still loading for a slot that another's failure has left without an entry. */
  lemma AbandonedSlot<S(!new), E(!new)>(d: string, e: E) returns (actions: seq<Action<S, E>>)
    ensures var s := Run(actions);
      && s.calls == [Call(Get, d, Loading(0)), Call(Get, d, Finished(Failure(e)))]
      && s.shared == Shared(map[], [None])
  {
    var fails := Step(1, Failure(e));
    actions := Herd(2, d, Failure(e));
    LoadsNotShared<S, E>(2, d, Failure(e));
    actions := Then(actions, fails);
    actions := Then(actions, fails);
    actions := Then(actions, fails);
  }

  /** A `get` up to where it has failed and is about to remove the entry. */
  lemma FailingGet<S(!new), E(!new)>(d: string, e: E) returns (actions: seq<Action<S, E>>)
    ensures var s := Run(actions);
      s.calls == [Call(Get, d, Clearing(0, Failure(e)))] && s.shared == Shared(map[d := 0], [None])
  {
    hide Run;
    var step := Step(0, Failure(e));
    actions := Then([], Begin(Get, d));
    NothingRun<S, E>();
    actions := Then(actions, step);
    assert Run(actions).calls == [Call(Get, d, Looking(0))] && Run(actions).shared == Shared(map[d := 0], [None]);
    actions := Then(actions, step);
    actions := Then(actions, step);
    actions := Then(actions, step);
  }

  lemma NothingRun<S(!new), E(!new)>()
    ensures Run<S, E>([]) == Initial()
  {
  }

  lemma Then<S(!new), E(!new)>(actions: seq<Action<S, E>>, action: Action<S, E>) returns (more: seq<Action<S, E>>)
    ensures Run(more) == Next(Run(actions), action)
  {
    more := actions + [action];
    RunSnoc(actions, action);
  }
}
