/** The caching directory service (crates/oc-acp/src/directory.rs).

    A slot is the shared mutex a directory's entry points to; slots are numbered as they are
    allocated and are never freed here. Loading is an input. */
module DirectoryCache {
  import opened Wrappers

  type Slot<S, E> = Option<Result<S, E>>

  /** The two lock-protected structures: the map from directories to slots, and the slots. */
  datatype Shared<S, E> = Shared(entries: map<string, nat>, slots: seq<Slot<S, E>>)

  // ---------- The steps between two lock acquisitions ----------

  /** `shared_for`: the entry's slot, or a new empty one. */
  function AfterSharedFor<S, E>(shared: Shared<S, E>, directory: string): (Shared<S, E>, nat) {
    if directory in shared.entries then (shared, shared.entries[directory])
    else (Shared(shared.entries[directory := |shared.slots|], shared.slots + [None]), |shared.slots|)
  }

  /** The second lock of `get`: an empty slot takes a successful load, a full one wins over the load. */
  function AfterSettle<S, E>(shared: Shared<S, E>, slot: nat, loaded: Result<S, E>): Shared<S, E>
    requires slot < |shared.slots|
  {
    if shared.slots[slot].None? && loaded.Success? then shared.(slots := shared.slots[slot := Some(loaded)])
    else shared
  }

  function Answer<S, E>(shared: Shared<S, E>, slot: nat, loaded: Result<S, E>): Result<S, E>
    requires slot < |shared.slots|
  {
    if shared.slots[slot].Some? then shared.slots[slot].value else loaded
  }

  function AfterOverwrite<S, E>(shared: Shared<S, E>, slot: nat, loaded: Result<S, E>): Shared<S, E>
    requires slot < |shared.slots|
  {
    shared.(slots := shared.slots[slot := Some(loaded)])
  }

  function AfterEvict<S, E>(shared: Shared<S, E>, directory: string): Shared<S, E> {
    shared.(entries := shared.entries - {directory})
  }

  /** What a caller alone would find for a directory. */
  ghost function Cached<S, E>(shared: Shared<S, E>, directory: string): Slot<S, E> {
    if directory in shared.entries && shared.entries[directory] < |shared.slots|
    then shared.slots[shared.entries[directory]] else None
  }

  ghost predicate ValidShared<S, E>(shared: Shared<S, E>) {
    && (forall d :: d in shared.entries ==> shared.entries[d] < |shared.slots|)
    && forall d, e :: d in shared.entries && e in shared.entries && shared.entries[d] == shared.entries[e] ==> d == e
  }

  class Service<S(==), E(==)> {
    var snapshots: map<string, nat>
    var slots: seq<Slot<S, E>>

    ghost function View(): Shared<S, E>
      reads this
    {
      Shared(snapshots, slots)
    }

    constructor ()
      ensures View() == Shared(map[], [])
    {
      snapshots, slots := map[], [];
    }

    method SharedFor(directory: string) returns (slot: nat)
      modifies this
      ensures (View(), slot) == AfterSharedFor(old(View()), directory)
    {
      if directory in snapshots {
        return snapshots[directory];
      }
      slot := |slots|;
      slots := slots + [None];
      snapshots := snapshots[directory := slot];
    }

    method Settle(slot: nat, loaded: Result<S, E>) returns (answer: Result<S, E>, evict: bool)
      requires slot < |slots|
      modifies this
      ensures View() == AfterSettle(old(View()), slot, loaded)
      ensures answer == Answer(old(View()), slot, loaded)
      ensures evict <==> old(slots[slot]).None? && loaded.Failure?
    {
      match slots[slot]
      case Some(present) => return present, false;
      case None =>
        if loaded.Success? {
          slots := slots[slot := Some(loaded)];
        }
        return loaded, loaded.Failure?;
    }

    method Evict(directory: string)
      modifies this
      ensures View() == AfterEvict(old(View()), directory)
    {
      snapshots := snapshots - {directory};
    }

    /** `get` with no other call in between. */
    method Get(directory: string, loaded: Result<S, E>) returns (r: Result<S, E>)
      requires ValidShared(View())
      modifies this
      ensures ValidShared(View())
      ensures var cached := old(Cached(View(), directory));
        && r == (if cached.Some? then cached.value else loaded)
        && Cached(View(), directory) == (if r.Success? then Some(r) else cached)
      ensures forall d :: d != directory ==> Cached(View(), d) == old(Cached(View(), d))
    {
      var slot := SharedFor(directory);
      if slots[slot].Some? {
        return slots[slot].value;
      }
      var evict;
      r, evict := Settle(slot, loaded);
      if evict {
        Evict(directory);
      }
    }

    /** `refresh` with no other call in between. */
    method Refresh(directory: string, loaded: Result<S, E>) returns (r: Result<S, E>)
      requires ValidShared(View())
      modifies this
      ensures ValidShared(View()) && r == loaded
      ensures Cached(View(), directory) == if loaded.Success? then Some(loaded) else None
      ensures forall d :: d != directory ==> Cached(View(), d) == old(Cached(View(), d))
    {
      var slot := SharedFor(directory);
      slots := slots[slot := Some(loaded)];
      if loaded.Failure? {
        Evict(directory);
      }
      return loaded;
    }
  }
}
