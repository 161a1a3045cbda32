/** A pool of workers over one iterator (reference/script/translate-app.ts).

    A worker's code runs without interruption between two awaits. `outcomes` says how the task of each
    item ends, whenever that is. */
module RunPool {
  import opened Wrappers

  datatype Entry<R> = Entry(index: nat, value: R)

  /** `Map.set`: entries keep the order in which their keys were first set. */
  function Put<R>(results: seq<Entry<R>>, index: nat, value: R): seq<Entry<R>> {
    if results == [] then [Entry(index, value)]
    else if results[0].index == index then [Entry(index, value)] + results[1..]
    else [results[0]] + Put(results[1..], index, value)
  }

  function InsertEntry<R>(e: Entry<R>, sorted: seq<Entry<R>>): seq<Entry<R>> {
    if sorted == [] || e.index <= sorted[0].index then [e] + sorted else [sorted[0]] + InsertEntry(e, sorted[1..])
  }

  function SortEntries<R>(entries: seq<Entry<R>>): seq<Entry<R>> {
    if entries == [] then [] else InsertEntry(entries[0], SortEntries(entries[1..]))
  }

  function Values<R>(entries: seq<Entry<R>>): seq<R> {
    seq(|entries|, i requires 0 <= i < |entries| => entries[i].value)
  }

  /** What the pool resolves to. */
  function Output<R>(results: seq<Entry<R>>): seq<R> {
    Values(SortEntries(results))
  }

  // ---------- Workers ----------

  datatype Worker = Waiting | Running(index: nat) | Finished | Failed(index: nat)

  /** `next` is the iterator's position. */
  datatype State<R> = State(next: nat, workers: seq<Worker>, results: seq<Entry<R>>)

  function Init<R>(n: nat, concurrency: int): State<R> {
    var least := if concurrency < n then concurrency else n;
    State(0, seq(if least < 0 then 0 else least, _ => Waiting), [])
  }

  function Claim<R>(n: nat, s: State<R>, w: nat): State<R>
    requires w < |s.workers|
  {
    if s.next < n then s.(next := s.next + 1, workers := s.workers[w := Running(s.next)])
    else s.(workers := s.workers[w := Finished])
  }

  /** The task of a worker ends: its value is stored and the worker takes the next item, or its error
      ends the worker. */
  function Settle<R, E>(outcomes: seq<Result<R, E>>, s: State<R>, w: nat): State<R>
    requires w < |s.workers| && s.workers[w].Running? && s.workers[w].index < |outcomes|
  {
    var index := s.workers[w].index;
    match outcomes[index]
    case Success(value) => Claim(|outcomes|, s.(results := Put(s.results, index, value)), w)
    case Failure(_) => s.(workers := s.workers[w := Failed(index)])
  }

  /** What the workers share, and where each of them is. */
  class Pool<R> {
    const count: nat
    var next: nat
    var workers: seq<Worker>
    var results: seq<Entry<R>>

    constructor (n: nat, concurrency: int)
      ensures count == n && Current() == Init(n, concurrency)
    {
      var least := if concurrency < n then concurrency else n;
      count, next, results := n, 0, [];
      workers := seq(if least < 0 then 0 else least, _ => Waiting);
    }

    function Current(): State<R>
      reads this
    {
      State(next, workers, results)
    }

    /** A worker up to its task or its return. */
    method Take(w: nat)
      requires w < |workers|
      modifies this
      ensures Current() == Claim(count, old(Current()), w)
    {
      if next >= count {
        workers := workers[w := Finished];
        return;
      }
      workers, next := workers[w := Running(next)], next + 1;
    }

    /** A worker from the end of its task up to the next one or its return. */
    method Resume<E>(w: nat, outcomes: seq<Result<R, E>>)
      requires w < |workers| && workers[w].Running? && workers[w].index < |outcomes| == count
      modifies this
      ensures Current() == Settle(outcomes, old(Current()), w)
    {
      var index := workers[w].index;
      match outcomes[index] {
        case Success(value) =>
          results := Put(results, index, value);
          Take(w);
        case Failure(_) =>
          workers := workers[w := Failed(index)];
      }
    }
  }

  /** The workers start one after the other before any task ends. */
  ghost predicate Enabled<R, E>(outcomes: seq<Result<R, E>>, s: State<R>, w: nat) {
    && w < |s.workers|
    && match s.workers[w]
       case Waiting => forall v :: 0 <= v < w ==> !s.workers[v].Waiting?
       case Running(index) => Waiting !in s.workers && index < |outcomes|
       case _ => false
  }

  ghost predicate Step<R, E>(outcomes: seq<Result<R, E>>, s: State<R>, t: State<R>, w: nat) {
    && Enabled(outcomes, s, w)
    && t == if s.workers[w].Waiting? then Claim(|outcomes|, s, w) else Settle(outcomes, s, w)
  }

  ghost predicate Run<R, E>(outcomes: seq<Result<R, E>>, concurrency: int, states: seq<State<R>>) {
    && states != [] && states[0] == Init(|outcomes|, concurrency)
    && forall i :: 0 < i < |states| ==> Steps(outcomes, states[i - 1], states[i])
  }

  ghost predicate Steps<R, E>(outcomes: seq<Result<R, E>>, s: State<R>, t: State<R>) {
    exists w :: Step(outcomes, s, t, w)
  }

  // ---------- What every run keeps ----------

  function Keys<R>(results: seq<Entry<R>>): multiset<nat> {
    if results == [] then multiset{} else multiset{results[0].index} + Keys(results[1..])
  }

  /** How often an item is running, failed or done. */
  function Held<R>(s: State<R>, index: nat): nat {
    multiset(s.workers)[Running(index)] + multiset(s.workers)[Failed(index)] + Keys(s.results)[index]
  }

  /** Every item up to the iterator's position is held once, no other at all; a worker is idle only when
      the items are used up; failures and results are those of the tasks. */
  ghost predicate Inv<R, E>(outcomes: seq<Result<R, E>>, s: State<R>) {
    && s.next <= |outcomes|
    && (forall i: nat :: Held(s, i) == if i < s.next then 1 else 0)
    && (Finished in s.workers ==> s.next == |outcomes|)
    && Truthful(outcomes, s)
  }

  ghost predicate Truthful<R, E>(outcomes: seq<Result<R, E>>, s: State<R>) {
    && (forall w :: 0 <= w < |s.workers| && s.workers[w].Failed? ==>
      s.workers[w].index < |outcomes| && outcomes[s.workers[w].index].Failure?)
    && forall e :: e in s.results ==> e.index < |outcomes| && outcomes[e.index] == Success(e.value)
  }

  lemma {:induction false} PutReplaces<R>(results: seq<Entry<R>>, i: nat, value: R)
    requires i < |results| && forall j :: 0 <= j < i ==> results[j].index != results[i].index
    ensures Put(results, results[i].index, value) == results[i := Entry(results[i].index, value)]
  {
    if i > 0 {
      PutReplaces(results[1..], i - 1, value);
      assert results == [results[0]] + results[1..];
    }
  }

  lemma {:induction false} PutAppends<R>(results: seq<Entry<R>>, index: nat, value: R)
    requires index !in Keys(results)
    ensures Put(results, index, value) == results + [Entry(index, value)]
  {
    if results != [] {
      assert results[0].index in Keys(results);
      PutAppends(results[1..], index, value);
      assert results == [results[0]] + results[1..];
    }
  }

  lemma {:induction false} KeysSnoc<R>(results: seq<Entry<R>>, e: Entry<R>)
    ensures Keys(results + [e]) == Keys(results) + multiset{e.index}
  {
    var all := results + [e];
    if results == [] {
      assert all[1..] == [];
    } else {
      KeysSnoc(results[1..], e);
      assert all[1..] == results[1..] + [e];
    }
  }

  lemma UpdateWorker(workers: seq<Worker>, w: nat, x: Worker)
    requires w < |workers|
    ensures multiset(workers[w := x]) == multiset(workers) - multiset{workers[w]} + multiset{x}
    ensures workers[w] in multiset(workers)
  {
  }

  lemma ClaimKeeps<R, E>(outcomes: seq<Result<R, E>>, s: State<R>, w: nat)
    requires w < |s.workers| && s.next <= |outcomes| && Truthful(outcomes, s)
    requires forall i: nat :: HeldBesides(s, w, i) == if i < s.next then 1 else 0
    requires Finished in s.workers ==> s.next == |outcomes|
    requires !s.workers[w].Finished?
    ensures Inv(outcomes, Claim(|outcomes|, s, w))
  {
    var t := Claim(|outcomes|, s, w);
    ClaimHolds(|outcomes|, s, w);
    assert Truthful(outcomes, t) by {
      hide HeldBesides, Held;
    }
    assert Finished in t.workers ==> t.next == |outcomes| by {
      hide HeldBesides, Held, Truthful;
    }
  }

  lemma ClaimHolds<R>(n: nat, s: State<R>, w: nat)
    requires w < |s.workers| && s.next <= n && !s.workers[w].Finished?
    requires forall i: nat :: HeldBesides(s, w, i) == if i < s.next then 1 else 0
    ensures forall i: nat :: Held(Claim(n, s, w), i) == if i < Claim(n, s, w).next then 1 else 0
  {
    hide Keys;
    var t := Claim(n, s, w);
    UpdateWorker(s.workers, w, t.workers[w]);
    forall i: nat
      ensures Held(t, i) == if i < t.next then 1 else 0
    {
      assert HeldBesides(s, w, i) == if i < s.next then 1 else 0;
    }
  }

  /** `Held` without what worker `w` is at. */
  function HeldBesides<R>(s: State<R>, w: nat, index: nat): int
    requires w < |s.workers|
  {
    Held(s, index) - if s.workers[w] == Running(index) || s.workers[w] == Failed(index) then 1 else 0
  }

  lemma StepKeeps<R, E>(outcomes: seq<Result<R, E>>, s: State<R>, t: State<R>, w: nat)
    requires Inv(outcomes, s) && Step(outcomes, s, t, w)
    ensures Inv(outcomes, t) && |t.workers| == |s.workers| && s.next <= t.next <= s.next + 1
  {
    if s.workers[w].Waiting? {
      ClaimKeeps(outcomes, s, w);
    } else {
      SettleKeeps(outcomes, s, w);
    }
  }

  lemma SettleKeeps<R, E>(outcomes: seq<Result<R, E>>, s: State<R>, w: nat)
    requires Inv(outcomes, s) && w < |s.workers| && s.workers[w].Running? && s.workers[w].index < |outcomes|
    ensures Inv(outcomes, Settle(outcomes, s, w))
  {
    match outcomes[s.workers[w].index]
    case Success(value) => SuccessKeeps(outcomes, s, w, s.workers[w].index, value);
    case Failure(_) => FailureKeeps(outcomes, s, w, s.workers[w].index);
  }

  lemma SuccessKeeps<R, E>(outcomes: seq<Result<R, E>>, s: State<R>, w: nat, index: nat, value: R)
    requires Inv(outcomes, s) && w < |s.workers| && s.workers[w] == Running(index)
    requires index < |outcomes| && outcomes[index] == Success(value)
    ensures Inv(outcomes, Claim(|outcomes|, s.(results := Put(s.results, index, value)), w))
  {
    hide Put, Keys, Claim;
    assert s.workers[w] in multiset(s.workers);
    assert Held(s, index) == if index < s.next then 1 else 0;
    PutAppends(s.results, index, value);
    KeysSnoc(s.results, Entry(index, value));
    var m := s.(results := Put(s.results, index, value));
    forall i: nat
      ensures HeldBesides(m, w, i) == if i < m.next then 1 else 0
    {
      assert Held(s, i) == if i < s.next then 1 else 0;
    }
    ClaimKeeps(outcomes, m, w);
  }

  lemma FailureKeeps<R, E>(outcomes: seq<Result<R, E>>, s: State<R>, w: nat, index: nat)
    requires Inv(outcomes, s) && w < |s.workers| && s.workers[w] == Running(index)
    requires index < |outcomes| && outcomes[index].Failure?
    ensures Inv(outcomes, s.(workers := s.workers[w := Failed(index)]))
  {
    hide Put, Keys;
    var t := s.(workers := s.workers[w := Failed(index)]);
    UpdateWorker(s.workers, w, Failed(index));
    forall i: nat
      ensures Held(t, i) == if i < t.next then 1 else 0
    {
      assert Held(s, i) == if i < s.next then 1 else 0;
    }
  }

  lemma InitHolds<R, E>(outcomes: seq<Result<R, E>>, concurrency: int)
    ensures Inv(outcomes, Init(|outcomes|, concurrency))
  {
    var s: State<R> := Init(|outcomes|, concurrency);
    forall i: nat
      ensures Held(s, i) == 0
    {
      assert Running(i) !in s.workers && Failed(i) !in s.workers;
    }
  }

  /** In every run: each item is claimed once and held once from then on, and there are as many workers
      as the concurrency allows and the items need. */
  lemma {:induction false} RunInv<R, E>(outcomes: seq<Result<R, E>>, concurrency: int, states: seq<State<R>>, i: nat)
    requires Run(outcomes, concurrency, states) && i < |states|
    ensures Inv(outcomes, states[i])
    ensures |states[i].workers| ==
      if concurrency < 0 then 0 else if concurrency < |outcomes| then concurrency else |outcomes|
  {
    if i == 0 {
      InitHolds(outcomes, concurrency);
    } else {
      RunInv(outcomes, concurrency, states, i - 1);
      assert Steps(outcomes, states[i - 1], states[i]);
      var w :| Step(outcomes, states[i - 1], states[i], w);
      StepKeeps(outcomes, states[i - 1], states[i], w);
    }
  }

  /** Two workers never run the same item, and a running item is not done. */
  lemma InFlightApart<R, E>(outcomes: seq<Result<R, E>>, s: State<R>, v: nat, w: nat)
    requires Inv(outcomes, s) && v < w < |s.workers| && s.workers[v].Running?
    ensures s.workers[v] != s.workers[w]
    ensures forall e :: e in s.results ==> e.index != s.workers[v].index
  {
    var x := s.workers[v];
    assert Held(s, x.index) <= 1;
    assert s.workers == s.workers[..w] + s.workers[w..];
    assert multiset(s.workers)[x] == multiset(s.workers[..w])[x] + multiset(s.workers[w..])[x];
    assert x in s.workers[..w] by {
      assert s.workers[..w][v] == x;
    }
    assert s.workers[w] in s.workers[w..];
    forall e | e in s.results
      ensures e.index in Keys(s.results)
    {
      KeyIn(s.results, e);
    }
  }

  lemma {:induction false} KeyIn<R>(results: seq<Entry<R>>, e: Entry<R>)
    requires e in results
    ensures e.index in Keys(results)
  {
    if results[0] != e {
      KeyIn(results[1..], e);
    }
  }

  // ---------- What the pool resolves to ----------

  ghost predicate Ascending<R>(entries: seq<Entry<R>>) {
    forall i, j :: 0 <= i < j < |entries| ==> entries[i].index <= entries[j].index
  }

  lemma {:induction false} InsertKeeps<R>(e: Entry<R>, sorted: seq<Entry<R>>)
    ensures Keys(InsertEntry(e, sorted)) == multiset{e.index} + Keys(sorted)
  {
    if sorted != [] && e.index > sorted[0].index {
      InsertKeeps(e, sorted[1..]);
      assert ([sorted[0]] + InsertEntry(e, sorted[1..]))[1..] == InsertEntry(e, sorted[1..]);
    } else {
      assert ([e] + sorted)[1..] == sorted;
    }
  }

  lemma {:induction false} InsertHas<R>(e: Entry<R>, sorted: seq<Entry<R>>, x: Entry<R>)
    ensures x in InsertEntry(e, sorted) <==> x == e || x in sorted
  {
    if sorted != [] && e.index > sorted[0].index {
      InsertHas(e, sorted[1..], x);
    }
  }

  lemma {:induction false} InsertSorts<R>(e: Entry<R>, sorted: seq<Entry<R>>)
    requires Ascending(sorted)
    ensures Ascending(InsertEntry(e, sorted))
  {
    if sorted != [] && e.index > sorted[0].index {
      InsertSorts(e, sorted[1..]);
      var r := InsertEntry(e, sorted[1..]);
      forall j | 0 <= j < |r|
        ensures sorted[0].index <= r[j].index
      {
        InsertHas(e, sorted[1..], r[j]);
      }
    }
  }

  lemma {:induction false} SortSorts<R>(entries: seq<Entry<R>>)
    ensures Ascending(SortEntries(entries)) && Keys(SortEntries(entries)) == Keys(entries)
  {
    if entries != [] {
      SortSorts(entries[1..]);
      InsertSorts(entries[0], SortEntries(entries[1..]));
      InsertKeeps(entries[0], SortEntries(entries[1..]));
    }
  }

  lemma {:induction false} SortHas<R>(entries: seq<Entry<R>>, x: Entry<R>)
    ensures x in SortEntries(entries) <==> x in entries
  {
    if entries != [] {
      SortHas(entries[1..], x);
      InsertHas(entries[0], SortEntries(entries[1..]), x);
    }
  }

  /** Entries in ascending order that have each key from `start` up to `n` once are at their own places. */
  lemma {:induction false} AtOwnPlace<R>(entries: seq<Entry<R>>, start: nat, n: nat)
    requires Ascending(entries) && start <= n
    requires forall i: nat :: Keys(entries)[i] == if start <= i < n then 1 else 0
    ensures |entries| == n - start && forall i :: 0 <= i < |entries| ==> entries[i].index == start + i
    decreases |entries|
  {
    if entries == [] {
      assert Keys(entries)[start] == 0;
    } else {
      var first := entries[0].index;
      assert Keys(entries)[first] > 0;
      if start < first {
        NoLowerKey(entries, start);
      }
      forall i: nat
        ensures Keys(entries[1..])[i] == if start + 1 <= i < n then 1 else 0
      {
        assert Keys(entries)[i] == multiset{first}[i] + Keys(entries[1..])[i];
      }
      AtOwnPlace(entries[1..], start + 1, n);
      assert forall i :: 0 < i < |entries| ==> entries[i] == entries[1..][i - 1];
    }
  }

  lemma {:induction false} NoLowerKey<R>(entries: seq<Entry<R>>, key: nat)
    requires forall i :: 0 <= i < |entries| ==> key < entries[i].index
    ensures Keys(entries)[key] == 0
  {
    if entries != [] {
      NoLowerKey(entries[1..], key);
    }
  }

  ghost predicate AllFinished<R>(s: State<R>) {
    forall w :: 0 <= w < |s.workers| ==> s.workers[w].Finished?
  }

  /** When all the workers have finished and there was one, every task succeeded and the pool resolves to
      their values in the order of the items. */
  lemma ResolvesInOrder<R, E>(outcomes: seq<Result<R, E>>, s: State<R>)
    requires Inv(outcomes, s) && AllFinished(s) && (s.workers != [] || outcomes == [])
    ensures |Output(s.results)| == |outcomes|
    ensures forall i :: 0 <= i < |outcomes| ==> outcomes[i] == Success(Output(s.results)[i])
  {
    hide Keys, SortEntries, Held;
    var sorted := SortEntries(s.results);
    SortSorts(s.results);
    AllHeldDone(outcomes, s);
    AtOwnPlace(sorted, 0, |outcomes|);
    forall i | 0 <= i < |outcomes|
      ensures outcomes[i] == Success(Output(s.results)[i])
    {
      SortHas(s.results, sorted[i]);
    }
  }

  lemma AllHeldDone<R, E>(outcomes: seq<Result<R, E>>, s: State<R>)
    requires Inv(outcomes, s) && AllFinished(s) && (s.workers != [] || outcomes == [])
    ensures forall i: nat :: Keys(s.results)[i] == if 0 <= i < |outcomes| then 1 else 0
  {
    hide Keys;
    if s.workers != [] {
      assert s.workers[0] in s.workers;
    }
    forall i: nat
      ensures Keys(s.results)[i] == if i < |outcomes| then 1 else 0
    {
      assert Running(i) !in s.workers && Failed(i) !in s.workers;
      assert Held(s, i) == if i < s.next then 1 else 0;
    }
  }

  // ---------- How runs end ----------

  ghost predicate Stuck<R, E>(outcomes: seq<Result<R, E>>, s: State<R>) {
    forall w :: !Enabled(outcomes, s, w)
  }

  /** A run can go on until every worker has finished or failed. */
  lemma StuckIff<R, E>(outcomes: seq<Result<R, E>>, s: State<R>)
    requires Inv(outcomes, s)
    ensures Stuck(outcomes, s) <==>
      forall w :: 0 <= w < |s.workers| ==> s.workers[w].Finished? || s.workers[w].Failed?
  {
    if w: nat :| w < |s.workers| && !(s.workers[w].Finished? || s.workers[w].Failed?) {
      if v :| 0 <= v < |s.workers| && s.workers[v].Waiting? {
        var first := FirstWaiting(s.workers, v);
        assert Enabled(outcomes, s, first);
      } else {
        assert s.workers[w] in multiset(s.workers);
        assert Held(s, s.workers[w].index) == if s.workers[w].index < s.next then 1 else 0;
        assert Enabled(outcomes, s, w);
      }
    }
  }

  lemma {:induction false} FirstWaiting(workers: seq<Worker>, v: nat) returns (first: nat)
    requires v < |workers| && workers[v].Waiting?
    ensures first <= v && workers[first].Waiting? && forall u :: 0 <= u < first ==> !workers[u].Waiting?
  {
    first := v;
    if u :| 0 <= u < v && workers[u].Waiting? {
      first := FirstWaiting(workers, u);
    }
  }

  function Effort(workers: seq<Worker>): nat {
    if workers == [] then 0
    else
      (match workers[0] case Waiting => 2 case Running(_) => 1 case _ => 0) + Effort(workers[1..])
  }

  lemma {:induction false} EffortUpdate(workers: seq<Worker>, w: nat, x: Worker)
    requires w < |workers|
    ensures Effort(workers[w := x]) == Effort(workers) - Effort([workers[w]]) + Effort([x])
  {
    if w == 0 {
      assert workers[0 := x][1..] == workers[1..];
    } else {
      EffortUpdate(workers[1..], w - 1, x);
      assert workers[w := x][1..] == workers[1..][w - 1 := x];
    }
  }

  function Remaining<R>(n: nat, s: State<R>): int {
    2 * (n - s.next) + Effort(s.workers)
  }

  /** Every step brings the end nearer. */
  lemma StepsEnd<R, E>(outcomes: seq<Result<R, E>>, s: State<R>, t: State<R>, w: nat)
    requires Inv(outcomes, s) && Step(outcomes, s, t, w)
    ensures 0 <= Remaining(|outcomes|, t) < Remaining(|outcomes|, s)
  {
    StepKeeps(outcomes, s, t, w);
    EffortUpdate(s.workers, w, t.workers[w]);
  }

  /** However a run ends, the pool resolves with every value in order exactly when every task succeeds and
      there is a worker or nothing to do; without a worker it resolves to nothing at once. */
  lemma EndsComplete<R, E>(outcomes: seq<Result<R, E>>, concurrency: int, states: seq<State<R>>)
    requires Run(outcomes, concurrency, states) && Stuck(outcomes, states[|states| - 1])
    ensures
      var s := states[|states| - 1];
      && (AllFinished(s) && |Output(s.results)| == |outcomes| <==>
        (concurrency >= 1 || outcomes == []) && forall i :: 0 <= i < |outcomes| ==> outcomes[i].Success?)
      && (concurrency < 1 ==> AllFinished(s) && Output(s.results) == [])
  {
    var s := states[|states| - 1];
    RunInv(outcomes, concurrency, states, |states| - 1);
    StuckIff(outcomes, s);
    if concurrency < 1 {
      if |states| > 1 {
        NoWorkerNoStep(outcomes, states[0], states[1]);
        assert false;
      }
    } else if AllFinished(s) {
      assert s.workers != [] || outcomes == [];
      ResolvesInOrder(outcomes, s);
    }
  }

  lemma NoWorkerNoStep<R, E>(outcomes: seq<Result<R, E>>, s: State<R>, t: State<R>)
    requires s.workers == []
    ensures !Steps(outcomes, s, t)
  {
  }
}
