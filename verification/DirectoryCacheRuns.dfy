/** Every interleaving of `get` and `refresh` calls on the snapshot cache
    (crates/oc-acp/src/directory.rs). Calls switch at each lock acquisition and around each load. */
module DirectoryCacheRuns {
  import opened Wrappers
  import opened DirectoryCache

  /** Where a call stands. `Clearing` is a failed `get` or `refresh` about to remove the map entry. */
  datatype Stage<S, E> =
    | Start
    | Looking(slot: nat)
    | Loading(slot: nat)
    | Loaded(slot: nat, result: Result<S, E>)
    | Clearing(slot: nat, result: Result<S, E>)
    | Finished(result: Result<S, E>)

  datatype Kind = Get | Refresh

  datatype Call<S, E> = Call(kind: Kind, directory: string, stage: Stage<S, E>)

  /** Slot events, in order: a `get` answered from, or into, a slot, and a `refresh` overwriting one. */
  datatype Event<S, E> = Answered(slot: nat, result: Result<S, E>) | Overwrote(slot: nat, result: Result<S, E>)

  /** The cache, the calls, and a record of the past: the directory each slot was made for, what has
      been loaded for which directory, and the slot events. */
  datatype State<S(==), E(==)> = State(
    shared: Shared<S, E>,
    calls: seq<Call<S, E>>,
    owners: seq<string>,
    loaded: set<(string, Result<S, E>)>,
    log: seq<Event<S, E>>)

  /** A new call, or one step of an existing call; `load` is what the loader returns if it is a load. */
  datatype Action<S, E> = Begin(kind: Kind, directory: string) | Step(call: nat, load: Result<S, E>)

  function Initial<S(==), E(==)>(): State<S, E> {
    State(Shared(map[], []), [], [], {}, [])
  }

  function Moved<S(==), E(==)>(s: State<S, E>, i: nat, stage: Stage<S, E>): seq<Call<S, E>>
    requires i < |s.calls|
  {
    s.calls[i := s.calls[i].(stage := stage)]
  }

  function Next<S(==), E(==)>(s: State<S, E>, action: Action<S, E>): State<S, E> {
    match action
    case Begin(kind, directory) => s.(calls := s.calls + [Call(kind, directory, Start)])
    case Step(i, load) => if i < |s.calls| then StepCall(s, i, load) else s
  }

  function StepCall<S(==), E(==)>(s: State<S, E>, i: nat, load: Result<S, E>): State<S, E>
    requires i < |s.calls|
  {
    var call := s.calls[i];
    match call.stage
    case Start =>
      var (shared, slot) := AfterSharedFor(s.shared, call.directory);
      s.(shared := shared,
         owners := if |shared.slots| > |s.shared.slots| then s.owners + [call.directory] else s.owners,
         calls := Moved(s, i, if call.kind.Get? then Looking(slot) else Loading(slot)))
    case Looking(slot) =>
      if slot >= |s.shared.slots| then s
      else if s.shared.slots[slot].None? then s.(calls := Moved(s, i, Loading(slot)))
      else
        var result := s.shared.slots[slot].value;
        s.(calls := Moved(s, i, Finished(result)), log := s.log + [Answered(slot, result)])
    case Loading(slot) =>
      s.(calls := Moved(s, i, Loaded(slot, load)), loaded := s.loaded + {(call.directory, load)})
    case Loaded(slot, result) =>
      if slot >= |s.shared.slots| then s
      else if call.kind.Get? then
        var answer := Answer(s.shared, slot, result);
        var clear := s.shared.slots[slot].None? && result.Failure?;
        s.(shared := AfterSettle(s.shared, slot, result),
           calls := Moved(s, i, if clear then Clearing(slot, answer) else Finished(answer)),
           log := s.log + [Answered(slot, answer)])
      else
        s.(shared := AfterOverwrite(s.shared, slot, result),
           calls := Moved(s, i, if result.Failure? then Clearing(slot, result) else Finished(result)),
           log := s.log + [Overwrote(slot, result)])
    case Clearing(slot, result) =>
      s.(shared := AfterEvict(s.shared, call.directory), calls := Moved(s, i, Finished(result)))
    case Finished(_) => s
  }

  function Run<S(==), E(==)>(actions: seq<Action<S, E>>): State<S, E> {
    if actions == [] then Initial() else Next(Run(actions[..|actions| - 1]), actions[|actions| - 1])
  }

  // ---------- What every run keeps ----------

  /** Slots and entries belong to the directory they were made for. */
  ghost predicate Owned<S(!new), E(!new)>(s: State<S, E>) {
    && |s.owners| == |s.shared.slots|
    && forall d :: d in s.shared.entries ==> s.shared.entries[d] < |s.owners| && s.owners[s.shared.entries[d]] == d
  }

  /** Every call works on a slot of its own directory, with results loaded for it. */
  ghost predicate CallsOwned<S(!new), E(!new)>(s: State<S, E>) {
    forall k :: 0 <= k < |s.calls| ==> CallOwned(s, s.calls[k])
  }

  ghost predicate CallOwned<S, E>(s: State<S, E>, call: Call<S, E>) {
    match call.stage
    case Start => true
    case Finished(result) => (call.directory, result) in s.loaded
    case Looking(slot) => slot < |s.owners| && s.owners[slot] == call.directory
    case Loading(slot) => slot < |s.owners| && s.owners[slot] == call.directory
    case Loaded(slot, result) =>
      slot < |s.owners| && s.owners[slot] == call.directory && (call.directory, result) in s.loaded
    case Clearing(slot, result) =>
      slot < |s.owners| && s.owners[slot] == call.directory && (call.directory, result) in s.loaded
  }

  /** A slot holds nothing but results loaded for its directory. */
  ghost predicate HoldsOwn<S(!new), E(!new)>(s: State<S, E>) {
    |s.owners| == |s.shared.slots| && forall k :: 0 <= k < |s.shared.slots| && s.shared.slots[k].Some? ==>
      (s.owners[k], s.shared.slots[k].value) in s.loaded
  }

  /** An entry whose slot holds an error belongs to a refresh that is about to remove the entry. */
  ghost predicate ErrorsBeingCleared<S(!new), E(!new)>(s: State<S, E>) {
    forall d :: d in s.shared.entries && HoldsError(s.shared, s.shared.entries[d]) ==>
      exists k :: 0 <= k < |s.calls| && IsClearing(s.calls[k], d, s.shared.entries[d])
  }

  predicate HoldsError<S, E>(shared: Shared<S, E>, slot: nat) {
    slot < |shared.slots| && shared.slots[slot].Some? && shared.slots[slot].value.Failure?
  }

  predicate IsClearing<S, E>(call: Call<S, E>, directory: string, slot: nat) {
    call.kind.Refresh? && call.directory == directory && call.stage.Clearing? && call.stage.slot == slot
  }

  /** The snapshot a slot is known to hold after some events. */
  function Settled<S, E>(log: seq<Event<S, E>>, slot: nat): Option<S> {
    if log == [] then None
    else
      var last, earlier := log[|log| - 1], Settled(log[..|log| - 1], slot);
      if last.slot != slot then earlier
      else match last
        case Answered(_, Success(v)) => Some(v)
        case Answered(_, Failure(_)) => earlier
        case Overwrote(_, Success(v)) => Some(v)
        case Overwrote(_, Failure(_)) => None
  }

  function Snapshot<S, E>(slot: Slot<S, E>): Option<S> {
    match slot case Some(Success(v)) => Some(v) case _ => None
  }

  /** The events account for the slots, and no answer contradicts what its slot was known to hold. */
  ghost predicate LogAgrees<S(!new), E(!new)>(s: State<S, E>) {
    && (forall k :: 0 <= k < |s.shared.slots| ==> Snapshot(s.shared.slots[k]) == Settled(s.log, k))
    && (forall j :: 0 <= j < |s.log| ==> s.log[j].slot < |s.shared.slots|)
    && (forall k :: k >= |s.shared.slots| ==> Settled(s.log, k) == None)
    && forall j :: 0 <= j < |s.log| ==> EventAgrees(s.log, j)
  }

  ghost predicate EventAgrees<S, E>(log: seq<Event<S, E>>, j: nat)
    requires j < |log|
  {
    log[j].Answered? && log[j].result.Success? ==>
      var known := Settled(log[..j], log[j].slot);
      known == None || known == Some(log[j].result.value)
  }

  ghost predicate Inv<S(!new), E(!new)>(s: State<S, E>) {
    Owned(s) && CallsOwned(s) && HoldsOwn(s) && ErrorsBeingCleared(s) && LogAgrees(s)
  }

  /** What one step may do to the cache and its record, whatever the call. */
  ghost predicate Grows<S(!new), E(!new)>(s: State<S, E>, t: State<S, E>) {
    && s.loaded <= t.loaded && s.owners <= t.owners && |s.shared.slots| <= |t.shared.slots|
    && |s.calls| <= |t.calls| && s.log <= t.log
  }

  lemma NextOwned<S(!new), E(!new)>(s: State<S, E>, action: Action<S, E>)
    requires Owned(s)
    ensures Owned(Next(s, action)) && Grows(s, Next(s, action))
  {
    if action.Step? && action.call < |s.calls| {
      StepOwned(s, action.call, action.load);
    }
  }

  lemma StepOwned<S(!new), E(!new)>(s: State<S, E>, i: nat, load: Result<S, E>)
    requires Owned(s) && i < |s.calls|
    ensures Owned(StepCall(s, i, load)) && Grows(s, StepCall(s, i, load))
  {
  }

  lemma NextHolds<S(!new), E(!new)>(s: State<S, E>, action: Action<S, E>)
    requires Owned(s) && CallsOwned(s) && HoldsOwn(s)
    ensures HoldsOwn(Next(s, action))
  {
    if action.Step? && action.call < |s.calls| {
      assert CallOwned(s, s.calls[action.call]);
    }
  }

  lemma NextCalls<S(!new), E(!new)>(s: State<S, E>, action: Action<S, E>)
    requires Owned(s) && CallsOwned(s) && HoldsOwn(s)
    ensures CallsOwned(Next(s, action))
  {
    var t := Next(s, action);
    NextOwned(s, action);
    forall k | 0 <= k < |t.calls|
      ensures CallOwned(t, t.calls[k])
    {
      if k < |s.calls| {
        assert CallOwned(s, s.calls[k]);
        if t.calls[k] != s.calls[k] {
          MovedOwned(s, action);
        }
      }
    }
  }

  lemma MovedOwned<S(!new), E(!new)>(s: State<S, E>, action: Action<S, E>)
    requires Owned(s) && HoldsOwn(s) && action.Step? && action.call < |s.calls| && CallOwned(s, s.calls[action.call])
    ensures CallOwned(Next(s, action), Next(s, action).calls[action.call])
  {
  }

  lemma NextErrors<S(!new), E(!new)>(s: State<S, E>, action: Action<S, E>)
    requires Owned(s) && CallsOwned(s) && ErrorsBeingCleared(s)
    ensures ErrorsBeingCleared(Next(s, action))
  {
    hide Next;
    var t := Next(s, action);
    forall d | d in t.shared.entries && HoldsError(t.shared, t.shared.entries[d])
      ensures exists k :: 0 <= k < |t.calls| && IsClearing(t.calls[k], d, t.shared.entries[d])
    {
      if d in s.shared.entries && HoldsError(s.shared, t.shared.entries[d]) {
        ErrorStays(s, action, d);
      } else {
        NewError(s, action, d);
      }
    }
  }

  lemma ErrorStays<S(!new), E(!new)>(s: State<S, E>, action: Action<S, E>, d: string)
    requires ErrorsBeingCleared(s) && d in s.shared.entries && d in Next(s, action).shared.entries
    requires HoldsError(s.shared, Next(s, action).shared.entries[d])
    ensures var t := Next(s, action);
      exists k :: 0 <= k < |t.calls| && IsClearing(t.calls[k], d, t.shared.entries[d])
  {
    var k :| 0 <= k < |s.calls| && IsClearing(s.calls[k], d, s.shared.entries[d]);
    assert IsClearing(Next(s, action).calls[k], d, s.shared.entries[d]);
  }

  lemma NewError<S(!new), E(!new)>(s: State<S, E>, action: Action<S, E>, d: string)
    requires Owned(s) && CallsOwned(s) && d in Next(s, action).shared.entries
    requires HoldsError(Next(s, action).shared, Next(s, action).shared.entries[d])
    requires !(d in s.shared.entries && HoldsError(s.shared, Next(s, action).shared.entries[d]))
    ensures var t := Next(s, action);
      exists k :: 0 <= k < |t.calls| && IsClearing(t.calls[k], d, t.shared.entries[d])
  {
    assert action.Step? && CallOwned(s, s.calls[action.call]);
    assert IsClearing(Next(s, action).calls[action.call], d, Next(s, action).shared.entries[d]);
  }

  lemma SettledSnoc<S, E>(log: seq<Event<S, E>>, event: Event<S, E>)
    ensures (log + [event])[..|log|] == log
    ensures forall k: nat :: k != event.slot ==> Settled(log + [event], k) == Settled(log, k)
    ensures Settled(log + [event], event.slot) ==
      match event
      case Answered(_, Success(v)) => Some(v)
      case Answered(_, Failure(_)) => Settled(log, event.slot)
      case Overwrote(_, Success(v)) => Some(v)
      case Overwrote(_, Failure(_)) => None
  {
    assert (log + [event])[..|log|] == log;
  }

  lemma NextLog<S(!new), E(!new)>(s: State<S, E>, action: Action<S, E>)
    requires Owned(s) && CallsOwned(s) && LogAgrees(s)
    ensures LogAgrees(Next(s, action))
  {
    var t := Next(s, action);
    if |t.log| > |s.log| {
      var event := t.log[|s.log|];
      assert CallOwned(s, s.calls[action.call]);
      NewEvent(s, action);
      SettledSnoc(s.log, event);
      forall j | 0 <= j < |t.log|
        ensures EventAgrees(t.log, j)
      {
        assert t.log[..j] == s.log[..j];
        if j < |s.log| {
          assert EventAgrees(s.log, j);
        }
      }
    }
  }

  /** A new event, and what it tells about its slot. */
  lemma NewEvent<S(!new), E(!new)>(s: State<S, E>, action: Action<S, E>)
    requires Owned(s) && CallsOwned(s) && |Next(s, action).log| > |s.log|
    ensures var t, n := Next(s, action), |s.log|;
      && t.log == s.log + [t.log[n]] && t.log[n].slot < |s.shared.slots| == |t.shared.slots|
      && (forall k :: 0 <= k < |s.shared.slots| && k != t.log[n].slot ==> t.shared.slots[k] == s.shared.slots[k])
      && var was, now := Snapshot(s.shared.slots[t.log[n].slot]), Snapshot(t.shared.slots[t.log[n].slot]);
        match t.log[n]
        case Answered(_, Success(v)) => now == Some(v) && (was == None || was == Some(v))
        case Answered(_, Failure(_)) => now == was
        case Overwrote(_, Success(v)) => now == Some(v)
        case Overwrote(_, Failure(_)) => now == None
  {
  }

  lemma NextInv<S(!new), E(!new)>(s: State<S, E>, action: Action<S, E>)
    requires Inv(s)
    ensures Inv(Next(s, action))
  {
    NextOwned(s, action);
    NextHolds(s, action);
    NextCalls(s, action);
    NextErrors(s, action);
    NextLog(s, action);
  }

  lemma {:induction false} RunInv<S(!new), E(!new)>(actions: seq<Action<S, E>>)
    ensures Inv(Run(actions))
  {
    if actions != [] {
      RunInv(actions[..|actions| - 1]);
      NextInv(Run(actions[..|actions| - 1]), actions[|actions| - 1]);
    }
  }

  // ---------- What it means for callers ----------

  /** In every run a call returns only what was loaded for its own directory, and a slot holds only
      what was loaded for the directory it was made for. */
  lemma OwnResultsOnly<S(!new), E(!new)>(actions: seq<Action<S, E>>)
    ensures var s := Run(actions);
      && (forall k :: 0 <= k < |s.calls| && s.calls[k].stage.Finished? ==>
        (s.calls[k].directory, s.calls[k].stage.result) in s.loaded)
      && (forall d :: d in s.shared.entries && Cached(s.shared, d).Some? ==>
        (d, Cached(s.shared, d).value) in s.loaded)
  {
    RunInv(actions);
    var s := Run(actions);
    assert forall k :: 0 <= k < |s.calls| ==> CallOwned(s, s.calls[k]);
  }

  /** Once known, a snapshot stays known until a refresh writes to the slot. */
  lemma {:induction false} StaysSettled<S(!new), E(!new)>(log: seq<Event<S, E>>, i: nat, j: nat, slot: nat, v: S)
    requires i < j <= |log| && forall k :: 0 <= k < |log| ==> EventAgrees(log, k)
    requires log[i] == Answered(slot, Success(v))
    requires forall k :: i < k < j ==> !(log[k].Overwrote? && log[k].slot == slot)
    ensures Settled(log[..j], slot) == Some(v)
    decreases j
  {
    var last := log[..j];
    assert last[..|last| - 1] == log[..j - 1] && last[|last| - 1] == log[j - 1];
    if i < j - 1 {
      StaysSettled(log, i, j - 1, slot, v);
      assert EventAgrees(log, j - 1);
    }
  }

  /** All successful `get`s on one slot, with no refresh writing to it in between, return the same
      snapshot, whatever their own loads returned. */
  lemma SameSnapshotOnSlot<S(!new), E(!new)>(actions: seq<Action<S, E>>, i: nat, j: nat, slot: nat, v: S, w: S)
    requires var log := Run(actions).log;
      && i < j < |log| && log[i] == Answered(slot, Success(v)) && log[j] == Answered(slot, Success(w))
      && forall k :: i < k < j ==> !(log[k].Overwrote? && log[k].slot == slot)
    ensures v == w
  {
    RunInv(actions);
    var log := Run(actions).log;
    StaysSettled(log, i, j, slot, v);
    assert EventAgrees(log, j);
  }

  /** When no call is about to clear an entry, no entry holds an error. */
  lemma NoErrorsWhenIdle<S(!new), E(!new)>(actions: seq<Action<S, E>>, d: string)
    requires forall k :: 0 <= k < |Run(actions).calls| ==> !Run(actions).calls[k].stage.Clearing?
    ensures var s := Run(actions); Cached(s.shared, d).Some? ==> Cached(s.shared, d).value.Success?
  {
    RunInv(actions);
    var s := Run(actions);
    if d in s.shared.entries {
      assert forall k :: 0 <= k < |s.calls| ==> !IsClearing(s.calls[k], d, s.shared.entries[d]);
    }
  }
}
