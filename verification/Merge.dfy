/** Merging configuration layers (crates/oc-config/src/merge.rs). */
module Merge {
  import opened Wrappers

  /** A JSON value. Two objects are equal when they have the same fields, in any order. */
  datatype Value =
    | Null
    | Bool(b: bool)
    | Number(text: string)
    | String(s: string)
    | Array(items: seq<Value>)
    | Object(fields: map<string, Value>)

  ghost predicate SameContainer(a: Value, b: Value) {
    (a.Object? && b.Object?) || (a.Array? && b.Array?)
  }

  // ---------- Children ----------

  datatype Step = Field(name: string) | Item(index: nat)

  ghost function At(v: Value, p: Step): (r: Option<Value>)
    ensures r.Some? ==> r.value < v
  {
    match p
    case Field(name) => if v.Object? && name in v.fields then Some(v.fields[name]) else None
    case Item(i) => if v.Array? && i < |v.items| then Some(v.items[i]) else None
  }

  /** Containers of one kind are equal when their children are. */
  lemma SameChildren(a: Value, b: Value)
    requires SameContainer(a, b)
    requires forall p :: At(a, p) == At(b, p)
    ensures a == b
  {
    if a.Object? {
      forall name
        ensures name in a.fields <==> name in b.fields
        ensures name in a.fields ==> a.fields[name] == b.fields[name]
      {
        assert At(a, Field(name)) == At(b, Field(name));
      }
      assert a.fields == b.fields;
    } else {
      assert At(a, Item(|b.items|)) == At(b, Item(|b.items|));
      assert At(a, Item(|a.items|)) == At(b, Item(|a.items|));
      forall i | 0 <= i < |a.items|
        ensures a.items[i] == b.items[i]
      {
        assert At(a, Item(i)) == At(b, Item(i));
      }
    }
  }

  // ---------- merge_deep ----------

  function MergeDeep(target: Value, source: Value): Value
    decreases source
  {
    if target.Object? && source.Object? then
      Object(map name | name in target.fields.Keys + source.fields.Keys ::
        if name !in source.fields then target.fields[name]
        else if name !in target.fields then source.fields[name]
        else MergeDeep(target.fields[name], source.fields[name]))
    else if target.Array? && source.Array? then
      Array(MergeItems(target.items, source.items))
    else source
  }

  function MergeItems(target: seq<Value>, source: seq<Value>): (r: seq<Value>)
    decreases source
    ensures |r| == if |target| < |source| then |source| else |target|
  {
    if source == [] then target
    else if target == [] then source
    else [MergeDeep(target[0], source[0])] + MergeItems(target[1..], source[1..])
  }

  lemma {:induction false} MergeItemAt(target: seq<Value>, source: seq<Value>, i: nat)
    requires i < |MergeItems(target, source)|
    ensures MergeItems(target, source)[i] ==
      if i >= |source| then target[i]
      else if i >= |target| then source[i]
      else MergeDeep(target[i], source[i])
  {
    if source != [] && target != [] && i > 0 {
      MergeItemAt(target[1..], source[1..], i - 1);
    }
  }

  method Merged(target: Value, source: Value) returns (out: Value)
    ensures out == MergeDeep(target, source)
    decreases source, 1
  {
    if target.Object? && source.Object? {
      out := MergedFields(target, source);
    } else if target.Array? && source.Array? {
      out := MergedItems(target, source);
    } else {
      out := source;
    }
  }

  /** The loop over the keys of an object. */
  method MergedFields(target: Value, source: Value) returns (out: Value)
    requires target.Object? && source.Object?
    ensures out == MergeDeep(target, source)
    decreases source, 0
  {
    var fields, left := target.fields, source.fields.Keys;
    while left != {}
      invariant left <= source.fields.Keys
      invariant fields.Keys == target.fields.Keys + (source.fields.Keys - left)
      invariant forall name :: name in target.fields && (name in left || name !in source.fields) ==>
        fields[name] == target.fields[name]
      invariant forall name :: name in source.fields && name !in left ==>
        fields[name] == MergeDeep(target, source).fields[name]
    {
      var name :| name in left;
      var value := source.fields[name];
      if name in fields {
        value := Merged(fields[name], value);
      }
      fields, left := fields[name := value], left - {name};
    }
    assert fields == MergeDeep(target, source).fields;
    out := Object(fields);
  }

  /** The loop over the indices of an array. */
  method MergedItems(target: Value, source: Value) returns (out: Value)
    requires target.Array? && source.Array?
    ensures out == MergeDeep(target, source)
    decreases source, 0
  {
    var len := if |target.items| < |source.items| then |source.items| else |target.items|;
    var items: seq<Value> := [];
    for i := 0 to len
      invariant |items| == i
      invariant forall j :: 0 <= j < i ==> items[j] == MergeItems(target.items, source.items)[j]
    {
      MergeItemAt(target.items, source.items, i);
      var item: Value;
      if i < |target.items| && i < |source.items| {
        item := Merged(target.items[i], source.items[i]);
      } else if i < |target.items| {
        item := target.items[i];
      } else {
        item := source.items[i];
      }
      items := items + [item];
    }
    assert items == MergeItems(target.items, source.items);
    out := Array(items);
  }

  // ---------- The algebra ----------

  ghost function MergeOption(a: Option<Value>, b: Option<Value>): Option<Value> {
    if b == None then a else if a == None then b else Some(MergeDeep(a.value, b.value))
  }

  /** Containers of one kind merge child by child. */
  lemma MergeAt(a: Value, b: Value, p: Step)
    requires SameContainer(a, b)
    ensures SameContainer(MergeDeep(a, b), a)
    ensures At(MergeDeep(a, b), p) == MergeOption(At(a, p), At(b, p))
  {
    if a.Array? && p.Item? && p.index < |MergeItems(a.items, b.items)| {
      MergeItemAt(a.items, b.items, p.index);
    }
  }

  /** Every child of `a` has a counterpart in `c` that covers it; a value covers what it would replace. */
  ghost predicate Covers(c: Value, a: Value)
    decreases a
  {
    SameContainer(a, c) ==>
      forall p :: At(a, p).Some? ==> At(c, p).Some? && Covers(At(c, p).value, At(a, p).value)
  }

  /** A layer hides the one below it exactly when it covers it. */
  lemma {:induction false} HidesIffCovers(a: Value, c: Value)
    ensures MergeDeep(a, c) == c <==> Covers(c, a)
    decreases a
  {
    if SameContainer(a, c) {
      forall p
        ensures At(MergeDeep(a, c), p) == MergeOption(At(a, p), At(c, p))
        ensures At(a, p).Some? && At(c, p).Some? ==>
          (MergeDeep(At(a, p).value, At(c, p).value) == At(c, p).value <==> Covers(At(c, p).value, At(a, p).value))
      {
        MergeAt(a, c, p);
        if At(a, p).Some? && At(c, p).Some? {
          HidesIffCovers(At(a, p).value, At(c, p).value);
        }
      }
      if Covers(c, a) {
        SameChildren(MergeDeep(a, c), c);
      }
    }
  }

  lemma {:induction false} CoversItself(a: Value)
    ensures Covers(a, a)
  {
    forall p | At(a, p).Some?
      ensures Covers(At(a, p).value, At(a, p).value)
    {
      CoversItself(At(a, p).value);
    }
  }

  lemma Idempotent(a: Value)
    ensures MergeDeep(a, a) == a
  {
    CoversItself(a);
    HidesIffCovers(a, a);
  }

  /** Merging a layer in again changes nothing. */
  lemma {:induction false} Absorbs(a: Value, b: Value)
    ensures MergeDeep(MergeDeep(a, b), b) == MergeDeep(a, b)
    decreases b
  {
    if SameContainer(a, b) {
      var m := MergeDeep(a, b);
      forall p
        ensures At(MergeDeep(m, b), p) == At(m, p)
      {
        MergeAt(a, b, p);
        MergeAt(m, b, p);
        if At(b, p).Some? {
          if At(a, p).Some? {
            Absorbs(At(a, p).value, At(b, p).value);
          } else {
            Idempotent(At(b, p).value);
          }
        }
      }
      MergeAt(a, b, Item(0));
      MergeAt(m, b, Item(0));
      SameChildren(MergeDeep(m, b), m);
    } else {
      Idempotent(b);
    }
  }

  /** The layers meet as the two groupings of a merge need them to: where a middle layer of another kind
      would cut `c` off from `a`, `c` covers `a` anyway. */
  ghost predicate Groups(a: Value, b: Value, c: Value)
    decreases b
  {
    if SameContainer(a, b) && SameContainer(b, c) then
      forall p :: At(a, p).Some? && At(b, p).Some? && At(c, p).Some? ==>
        Groups(At(a, p).value, At(b, p).value, At(c, p).value)
    else SameContainer(a, b) || SameContainer(b, c) || Covers(c, a)
  }

  lemma {:induction false} AssociativeIff(a: Value, b: Value, c: Value)
    ensures MergeDeep(MergeDeep(a, b), c) == MergeDeep(a, MergeDeep(b, c)) <==> Groups(a, b, c)
    decreases b
  {
    if SameContainer(a, b) && SameContainer(b, c) {
      var left, right := MergeDeep(MergeDeep(a, b), c), MergeDeep(a, MergeDeep(b, c));
      forall p
        ensures At(left, p) == At(right, p) <==>
          (At(a, p).Some? && At(b, p).Some? && At(c, p).Some? ==>
          Groups(At(a, p).value, At(b, p).value, At(c, p).value))
      {
        AssociativeAt(a, b, c, p);
        if At(a, p).Some? && At(b, p).Some? && At(c, p).Some? {
          AssociativeIff(At(a, p).value, At(b, p).value, At(c, p).value);
        }
      }
      AssociativeAt(a, b, c, Item(0));
      if Groups(a, b, c) {
        SameChildren(left, right);
      }
    } else if SameContainer(a, b) {
      MergeAt(a, b, Item(0));
    } else if SameContainer(b, c) {
      MergeAt(b, c, Item(0));
    } else {
      HidesIffCovers(a, c);
    }
  }

  lemma AssociativeAt(a: Value, b: Value, c: Value, p: Step)
    requires SameContainer(a, b) && SameContainer(b, c)
    ensures SameContainer(MergeDeep(MergeDeep(a, b), c), MergeDeep(a, MergeDeep(b, c)))
    ensures At(MergeDeep(MergeDeep(a, b), c), p) == MergeOption(MergeOption(At(a, p), At(b, p)), At(c, p))
    ensures At(MergeDeep(a, MergeDeep(b, c)), p) == MergeOption(At(a, p), MergeOption(At(b, p), At(c, p)))
  {
    hide MergeDeep, At;
    MergeAt(a, b, p);
    MergeAt(b, c, p);
    MergeAt(MergeDeep(a, b), c, p);
    MergeAt(a, MergeDeep(b, c), p);
  }

  // ---------- Which layer a setting comes from ----------

  ghost function Lookup(v: Value, path: seq<Step>): Option<Value>
    decreases |path|
  {
    if path == [] then Some(v)
    else if At(v, path[0]) == None then None
    else Lookup(At(v, path[0]).value, path[1..])
  }

  /** Going down `path` inside `a`, the layer `b` runs out of counterparts before it replaces anything. */
  ghost predicate LetsThrough(a: Value, b: Value, path: seq<Step>)
    decreases |path|
  {
    && path != [] && SameContainer(a, b) && At(a, path[0]).Some?
    && (At(b, path[0]).Some? ==> LetsThrough(At(a, path[0]).value, At(b, path[0]).value, path[1..]))
  }

  /** A plain setting in a merge is the upper layer's, or the lower's that the upper lets through. */
  lemma {:induction false} SettingComesFrom(a: Value, b: Value, path: seq<Step>, v: Value)
    requires !v.Object? && !v.Array?
    ensures Lookup(MergeDeep(a, b), path) == Some(v) <==>
      Lookup(b, path) == Some(v) || (Lookup(a, path) == Some(v) && LetsThrough(a, b, path))
    decreases |path|
  {
    if SameContainer(a, b) {
      if path == [] {
        MergeAt(a, b, Item(0));
      } else {
        MergeAt(a, b, path[0]);
        if At(a, path[0]).Some? && At(b, path[0]).Some? {
          SettingComesFrom(At(a, path[0]).value, At(b, path[0]).value, path[1..], v);
        }
      }
    }
  }

  // ---------- Lists without repeats ----------

  /** The items, each at its first occurrence. */
  function KeepFirst<T(==)>(items: seq<T>): seq<T> {
    if items == [] then []
    else
      var init, last := items[..|items| - 1], items[|items| - 1];
      KeepFirst(init) + if last in init then [] else [last]
  }

  /** The items whose key no later item has. */
  function KeepLast<T, K(==)>(items: seq<T>, key: T -> K): seq<T> {
    if items == [] then []
    else (if HasKey(items[1..], key, key(items[0])) then [] else [items[0]]) + KeepLast(items[1..], key)
  }

  predicate HasKey<T, K(==)>(items: seq<T>, key: T -> K, k: K) {
    exists i :: 0 <= i < |items| && key(items[i]) == k
  }

  function Reversed<T>(items: seq<T>): seq<T> {
    if items == [] then [] else Reversed(items[1..]) + [items[0]]
  }

  lemma KeepFirstNone<T>()
    ensures KeepFirst<T>([]) == []
  {
  }

  lemma KeepFirstSnoc<T>(items: seq<T>, x: T)
    ensures KeepFirst(items + [x]) == if x in items then KeepFirst(items) else KeepFirst(items) + [x]
  {
    assert (items + [x])[..|items|] == items;
  }

  method ConcatUnique(target: seq<string>, source: seq<string>) returns (out: seq<string>)
    ensures out == KeepFirst(target + source)
  {
    var seen: set<string> := {};
    out := [];
    var chain := target + source;
    for i := 0 to |chain|
      invariant out == KeepFirst(chain[..i])
      invariant forall item :: item in seen <==> item in chain[..i]
    {
      assert chain[..i + 1] == chain[..i] + [chain[i]];
      if chain[i] !in seen {
        seen := seen + {chain[i]};
        out := out + [chain[i]];
      }
    }
    assert chain[..|chain|] == chain;
  }

  method DedupeKeepLast<T, K(==)>(items: seq<T>, key: T -> K) returns (out: seq<T>)
    ensures out == KeepLast(items, key)
  {
    var seen: set<K> := {};
    out := [];
    var i := |items|;
    while i > 0
      invariant 0 <= i <= |items|
      invariant Reversed(out) == KeepLast(items[i..], key)
      invariant forall k :: k in seen <==> HasKey(items[i..], key, k)
    {
      i := i - 1;
      HasKeyStep(items, i, key);
      assert items[i..][1..] == items[i + 1..];
      assert KeepLast(items[i..], key) ==
        (if HasKey(items[i + 1..], key, key(items[i])) then [] else [items[i]]) + KeepLast(items[i + 1..], key);
      if key(items[i]) !in seen {
        seen := seen + {key(items[i])};
        ReversedSnoc(out, items[i]);
        out := out + [items[i]];
      }
    }
    assert items[0..] == items;
    out := Reversed(out);
  }

  lemma HasKeyStep<T, K>(items: seq<T>, i: nat, key: T -> K)
    requires i < |items|
    ensures forall k :: HasKey(items[i..], key, k) <==> key(items[i]) == k || HasKey(items[i + 1..], key, k)
  {
    assert items[i..] == [items[i]] + items[i + 1..];
    forall k
      ensures HasKey(items[i..], key, k) <==> key(items[i]) == k || HasKey(items[i + 1..], key, k)
    {
      if HasKey(items[i + 1..], key, k) {
        var j :| 0 <= j < |items[i + 1..]| && key(items[i + 1..][j]) == k;
        assert key(items[i..][j + 1]) == k;
      }
      if key(items[i]) == k {
        assert key(items[i..][0]) == k;
      }
      if HasKey(items[i..], key, k) {
        var j :| 0 <= j < |items[i..]| && key(items[i..][j]) == k;
        assert j > 0 ==> key(items[i + 1..][j - 1]) == k;
      }
    }
  }

  lemma {:induction false} ReversedSnoc<T>(items: seq<T>, x: T)
    ensures Reversed(items + [x]) == [x] + Reversed(items)
  {
    if items == [] {
      assert ([] + [x])[1..] == [];
    } else {
      assert (items + [x])[1..] == items[1..] + [x];
      ReversedSnoc(items[1..], x);
    }
  }

  ghost predicate Increasing(s: seq<nat>) {
    forall i, j :: 0 <= i < j < |s| ==> s[i] < s[j]
  }

  ghost predicate LastWithKey<T, K>(items: seq<T>, key: T -> K, i: nat) {
    i < |items| && forall j :: i < j < |items| ==> key(items[j]) != key(items[i])
  }

  ghost predicate FirstOfItsKind<T>(items: seq<T>, i: nat) {
    i < |items| && forall j :: 0 <= j < i ==> items[j] != items[i]
  }

  /** What is kept is the last item of each key, in the order of the list: `places` says where. */
  lemma {:induction false} KeepLastPlaces<T, K>(items: seq<T>, key: T -> K) returns (places: seq<nat>)
    ensures Increasing(places) && forall i :: i in places <==> LastWithKey(items, key, i)
    ensures |KeepLast(items, key)| == |places|
    ensures forall j :: 0 <= j < |places| ==> places[j] < |items| && KeepLast(items, key)[j] == items[places[j]]
  {
    hide LastWithKey, HasKey;
    places := [];
    if items == [] {
      NoneLast(items, key);
    } else {
      var later := KeepLastPlaces(items[1..], key);
      LastWithKeyStep(items, key);
      var shifted := ShiftPlaces(later);
      if HasKey(items[1..], key, key(items[0])) {
        places := shifted;
      } else {
        places := [0] + shifted;
      }
    }
  }

  lemma ShiftPlaces(places: seq<nat>) returns (shifted: seq<nat>)
    requires Increasing(places)
    ensures Increasing(shifted) && |shifted| == |places|
    ensures forall j :: 0 <= j < |places| ==> shifted[j] == places[j] + 1
    ensures forall i: nat :: i in shifted <==> i > 0 && i - 1 in places
  {
    shifted := seq(|places|, j requires 0 <= j < |places| => places[j] + 1);
    forall i: nat
      ensures i in shifted <==> i > 0 && i - 1 in places
    {
      if i > 0 && i - 1 in places {
        var j :| 0 <= j < |places| && places[j] == i - 1;
        assert shifted[j] == i;
      }
    }
  }

  lemma NoneLast<T, K>(items: seq<T>, key: T -> K)
    requires items == []
    ensures forall i :: !LastWithKey(items, key, i)
  {
  }

  lemma LastWithKeyStep<T, K>(items: seq<T>, key: T -> K)
    requires items != []
    ensures LastWithKey(items, key, 0) <==> !HasKey(items[1..], key, key(items[0]))
    ensures forall i: nat :: i > 0 ==> (LastWithKey(items, key, i) <==> LastWithKey(items[1..], key, i - 1))
  {
    var tail := items[1..];
    assert forall j :: 0 <= j < |tail| ==> tail[j] == items[j + 1];
    assert forall j :: 1 <= j < |items| ==> items[j] == tail[j - 1];
  }

  lemma {:induction false} KeepFirstPlaces<T>(items: seq<T>) returns (places: seq<nat>)
    ensures Increasing(places) && forall i :: i in places <==> FirstOfItsKind(items, i)
    ensures |KeepFirst(items)| == |places|
    ensures forall j :: 0 <= j < |places| ==> places[j] < |items| && KeepFirst(items)[j] == items[places[j]]
  {
    places := [];
    if items != [] {
      var n := |items| - 1;
      var init := items[..n];
      places := KeepFirstPlaces(init);
      assert forall i: nat :: i < n ==> (FirstOfItsKind(init, i) <==> FirstOfItsKind(items, i));
      assert items[n] !in init <==> FirstOfItsKind(items, n);
      if items[n] !in init {
        places := places + [n];
      }
    }
  }

  lemma {:induction false} KeepFirstKeeps<T>(items: seq<T>, x: T)
    ensures x in KeepFirst(items) <==> x in items
  {
    if items != [] {
      var n := |items| - 1;
      KeepFirstKeeps(items[..n], x);
      assert items == items[..n] + [items[n]];
    }
  }

  /** Joining the lists of several layers does not depend on the grouping. */
  lemma ConcatUniqueAssociative<T>(a: seq<T>, b: seq<T>, c: seq<T>)
    ensures KeepFirst(KeepFirst(a + b) + c) == KeepFirst(a + KeepFirst(b + c))
  {
    hide KeepFirst;
    KeepFirstBelow(a + b, c);
    KeepFirstAbove(a, b + c);
    assert a + b + c == a + (b + c);
  }

  lemma {:induction false} KeepFirstBelow<T>(a: seq<T>, b: seq<T>)
    ensures KeepFirst(KeepFirst(a) + b) == KeepFirst(a + b)
    decreases |b|
  {
    hide KeepFirst;
    if b == [] {
      KeepFirstTwice(a);
      assert KeepFirst(a) + b == KeepFirst(a) && a + b == a;
    } else {
      var n := |b| - 1;
      KeepFirstBelow(a, b[..n]);
      KeepFirstKeeps(a, b[n]);
      KeepFirstSnoc(KeepFirst(a) + b[..n], b[n]);
      KeepFirstSnoc(a + b[..n], b[n]);
      assert KeepFirst(a) + b == KeepFirst(a) + b[..n] + [b[n]] && a + b == a + b[..n] + [b[n]];
    }
  }

  lemma {:induction false} KeepFirstTwice<T>(a: seq<T>)
    ensures KeepFirst(KeepFirst(a)) == KeepFirst(a)
  {
    hide KeepFirst;
    if a == [] {
      KeepFirstNone<T>();
    } else {
      var n := |a| - 1;
      KeepFirstTwice(a[..n]);
      KeepFirstKeeps(a[..n], a[n]);
      KeepFirstSnoc(a[..n], a[n]);
      assert a == a[..n] + [a[n]];
      KeepFirstSnoc(KeepFirst(a[..n]), a[n]);
    }
  }

  lemma {:induction false} KeepFirstAbove<T>(a: seq<T>, b: seq<T>)
    ensures KeepFirst(a + KeepFirst(b)) == KeepFirst(a + b)
    decreases |b|
  {
    hide KeepFirst;
    if b == [] {
      KeepFirstNone<T>();
    } else {
      var n := |b| - 1;
      KeepFirstAbove(a, b[..n]);
      KeepFirstKeeps(b[..n], b[n]);
      KeepFirstSnoc(a + b[..n], b[n]);
      KeepFirstSnoc(b[..n], b[n]);
      KeepFirstSnoc(a + KeepFirst(b[..n]), b[n]);
      assert b[..n] + [b[n]] == b && a + b[..n] + [b[n]] == a + b;
      assert a + KeepFirst(b[..n]) + [b[n]] == a + (KeepFirst(b[..n]) + [b[n]]);
    }
  }
}
