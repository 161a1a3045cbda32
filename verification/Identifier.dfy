/** Ordered identifiers (crates/oc-command/src/id.rs). */
module Identifier {
  import opened Text

  const U32 := 0x1_0000_0000
  const U64 := 0x1_0000_0000_0000_0000
  const WINDOW := 0x1_0000_0000_0000
  const MILLISECOND := 0x1000

  /** The milliseconds in a window. */
  const SPAN := 0x10_0000_0000

  const RANDOM := 14

  const CHARS := "0123456789ABCDEFGHIJKLMNOPQRSTUVWXYZabcdefghijklmnopqrstuvwxyz"
  const HEX := "0123456789abcdef"

  // ---------- Hexadecimal ----------

  /** The last `n` hexadecimal digits of `v`. */
  function Digits(v: nat, n: nat): (r: string)
    ensures |r| == n
  {
    if n == 0 then [] else Digits(v / 16, n - 1) + [HEX[v % 16]]
  }

  function Power(n: nat): (r: nat)
    ensures r > 0
  {
    if n == 0 then 1 else 16 * Power(n - 1)
  }

  lemma ModStep(v: nat, m: nat)
    requires m > 0
    ensures v % (16 * m) == 16 * ((v / 16) % m) + v % 16
  {
    var q, r := (v / 16) / m, (v / 16) % m;
    assert v == q * (16 * m) + (16 * r + v % 16);
    ModIs(v, 16 * m, q, 16 * r + v % 16);
  }

  lemma ModIs(v: int, m: nat, q: int, r: nat)
    requires r < m && v == q * m + r
    ensures v % m == r && v / m == q
  {
    var d := v / m - q;
    assert d * m == r - v % m;
    if d >= 1 {
      NotSmaller(d, m);
    } else if d <= -1 {
      NotSmaller(-d, m);
    }
  }

  lemma NotSmaller(d: int, m: nat)
    requires d >= 1
    ensures d * m >= m
  {
    assert (d - 1) * m >= 0;
  }

  lemma HexOrder(a: nat, b: nat)
    requires a < 16 && b < 16
    ensures HEX[a] < HEX[b] <==> a < b
    ensures HEX[a] == HEX[b] <==> a == b
  {
  }

  lemma {:induction false} SnocOrder(s: string, t: string, a: char, b: char)
    requires |s| == |t|
    ensures StringLess(s + [a], t + [b]) <==> StringLess(s, t) || (s == t && a < b)
  {
    if s != [] {
      SnocOrder(s[1..], t[1..], a, b);
      assert (s + [a])[1..] == s[1..] + [a] && (t + [b])[1..] == t[1..] + [b];
      assert s == [s[0]] + s[1..] && t == [t[0]] + t[1..];
    }
  }

  /** Fixed-width digits are ordered as strings as the numbers they show. */
  lemma {:induction false} DigitsOrder(u: nat, v: nat, n: nat)
    ensures StringLess(Digits(u, n), Digits(v, n)) <==> u % Power(n) < v % Power(n)
    ensures Digits(u, n) == Digits(v, n) <==> u % Power(n) == v % Power(n)
  {
    if n > 0 {
      DigitsOrder(u / 16, v / 16, n - 1);
      ModStep(u, Power(n - 1));
      ModStep(v, Power(n - 1));
      HexOrder(u % 16, v % 16);
      SnocOrder(Digits(u / 16, n - 1), Digits(v / 16, n - 1), HEX[u % 16], HEX[v % 16]);
      SnocEqual(Digits(u / 16, n - 1), Digits(v / 16, n - 1), HEX[u % 16], HEX[v % 16]);
    }
  }

  lemma SnocEqual(s: string, t: string, a: char, b: char)
    ensures s + [a] == t + [b] <==> s == t && a == b
  {
    assert (s + [a])[..|s|] == s && (t + [b])[..|t|] == t;
    assert (s + [a])[|s|] == a && (t + [b])[|t|] == b;
  }

  function ShiftRight(v: nat, n: nat): nat {
    if n == 0 then v else ShiftRight(v / 2, n - 1)
  }

  lemma ShiftFour(v: nat, n: nat)
    ensures ShiftRight(v, n + 4) == ShiftRight(v / 16, n)
  {
    assert ShiftRight(v, n + 4) == ShiftRight(v / 2, n + 3);
    assert ShiftRight(v / 2, n + 3) == ShiftRight(v / 2 / 2, n + 2);
    assert ShiftRight(v / 4, n + 2) == ShiftRight(v / 4 / 2, n + 1);
    assert ShiftRight(v / 8, n + 1) == ShiftRight(v / 8 / 2, n);
  }

  lemma {:induction false} ShiftByte(v: nat, n: nat)
    ensures ShiftRight(v, n + 8) == ShiftRight(v, n) / 256
  {
    if n == 0 {
      ShiftFour(v, 4);
      ShiftFour(v / 16, 0);
    } else {
      ShiftByte(v / 2, n - 1);
    }
  }

  // ---------- create ----------

  datatype State = State(timestamp: nat, count: nat)

  function Next(s: State, timestamp: nat): State {
    State(timestamp, ((if timestamp != s.timestamp then 0 else s.count) + 1) % U32)
  }

  /** The number the first twelve digits are taken from. */
  function Encoded(s: State, descending: bool): nat {
    var current := (s.timestamp * MILLISECOND % U64 + s.count) % U64;
    if descending then U64 - 1 - current else current
  }

  function Tail(random: seq<bv8>): string {
    seq(|random|, i requires 0 <= i < |random| => CHARS[random[i] as nat % |CHARS|])
  }

  function Id(s: State, descending: bool, random: seq<bv8>): string {
    Digits(Encoded(s, descending), 12) + Tail(random)
  }

  /** The counter shared by the process. */
  class Counter {
    var timestamp: nat
    var count: nat

    constructor ()
      ensures Current() == State(0, 0)
    {
      timestamp, count := 0, 0;
    }

    function Current(): State
      reads this
    {
      State(timestamp, count)
    }

    /** `random` is what the random source supplied. */
    method Create(descending: bool, now: nat, random: seq<bv8>) returns (id: string)
      requires now < U64 && |random| == RANDOM
      modifies this
      ensures Current() == Next(old(Current()), now)
      ensures id == Id(Current(), descending, random)
    {
      hide Digits, Tail;
      if now != timestamp {
        timestamp, count := now, 0;
      }
      count := (count + 1) % U32;
      var current := (now * MILLISECOND % U64 + count) % U64;
      var value := if descending then U64 - 1 - current else current;

      var time := TimeText(value);
      var tail := RandomText(random);
      id := time + tail;
    }
  }

  /** Six bytes of two digits each, the highest first. */
  method TimeText(value: nat) returns (time: string)
    ensures time == Digits(value, 12)
  {
    time := "";
    for index := 0 to 6
      invariant time == Digits(ShiftRight(value, 48 - 8 * index), 2 * index)
    {
      hide Digits, ShiftRight;
      var shift := 40 - 8 * index;
      var byte := ShiftRight(value, shift) % 256;
      ShiftByte(value, shift);
      TwoDigits(ShiftRight(value, shift), 2 * index);
      time := time + [HEX[byte / 16], HEX[byte % 16]];
    }
  }

  method RandomText(random: seq<bv8>) returns (tail: string)
    requires |random| == RANDOM
    ensures tail == Tail(random)
  {
    tail := "";
    for i := 0 to RANDOM
      invariant tail == Tail(random)[..i]
    {
      tail := tail + [CHARS[random[i] as nat % |CHARS|]];
    }
  }

  lemma TwoDigits(w: nat, n: nat)
    ensures Digits(w, n + 2) == Digits(w / 256, n) + [HEX[w % 256 / 16], HEX[w % 256 % 16]]
  {
    assert w / 16 / 16 == w / 256 && (w / 16) % 16 == w % 256 / 16 && w % 256 % 16 == w % 16;
    assert Digits(w, n + 2) == Digits(w / 16, n + 1) + [HEX[w % 16]];
  }

  /** The sixteen digits, in lower case. */
  lemma HexDigits(n: nat)
    requires n < 16
    ensures HEX[n] == if n < 10 then '0' + n as char else 'a' + (n - 10) as char
  {
  }

  /** An identifier has 26 characters, each of the last fourteen from one random byte. */
  lemma TailIs(s: State, descending: bool, random: seq<bv8>, i: nat)
    requires |random| == RANDOM && i < 14
    ensures |Id(s, descending, random)| == 26
    ensures Id(s, descending, random)[12 + i]
      == "0123456789ABCDEFGHIJKLMNOPQRSTUVWXYZabcdefghijklmnopqrstuvwxyz"[random[i] as nat % 62]
  {
    assert Id(s, descending, random)[12 + i] == Tail(random)[i];
  }

  // ---------- Order ----------

  /** Where an identifier stands in time. */
  function Stamp(s: State): nat {
    s.timestamp * MILLISECOND + s.count
  }

  lemma EncodedInWindow(s: State, descending: bool)
    ensures Encoded(s, descending) % WINDOW ==
      if descending then WINDOW - 1 - Stamp(s) % WINDOW else Stamp(s) % WINDOW
    ensures Encoded(s, descending) < 0x1_0000_0000_0000_0000
  {
    var k, r := Stamp(s) / WINDOW, Stamp(s) % WINDOW;
    var high := s.timestamp * MILLISECOND / U64;
    var sum := s.timestamp * MILLISECOND % U64 + s.count;
    assert sum == Stamp(s) - high * U64;
    var current := sum % U64;
    var q := k - (high + sum / U64) * (U64 / WINDOW);
    assert current == q * WINDOW + r;
    ModIs(current, WINDOW, q, r);
    if descending {
      ModIs(U64 - 1 - current, WINDOW, U64 / WINDOW - 1 - q, WINDOW - 1 - r);
    }
  }

  lemma {:induction false} PrefixOrder(a: string, b: string, x: string, y: string)
    requires |a| == |b| && StringLess(a, b)
    ensures StringLess(a + x, b + y)
  {
    assert (a + x)[0] == a[0] && (b + y)[0] == b[0];
    assert (a + x)[1..] == a[1..] + x && (b + y)[1..] == b[1..] + y;
    if a[0] == b[0] {
      PrefixOrder(a[1..], b[1..], x, y);
    }
  }

  /** The first twelve digits are ordered as strings as the stamps modulo 2^48, descending ones the
      other way round, and then so are the whole identifiers. */
  lemma IdOrder(s: State, t: State, descending: bool, x: seq<bv8>, y: seq<bv8>)
    ensures
      var a, b := Digits(Encoded(s, descending), 12), Digits(Encoded(t, descending), 12);
      && (StringLess(a, b) <==>
        if descending then Stamp(t) % WINDOW < Stamp(s) % WINDOW else Stamp(s) % WINDOW < Stamp(t) % WINDOW)
      && (StringLess(a, b) ==> StringLess(Id(s, descending, x), Id(t, descending, y)))
  {
    var a, b := Digits(Encoded(s, descending), 12), Digits(Encoded(t, descending), 12);
    TwelveDigits();
    DigitsOrder(Encoded(s, descending), Encoded(t, descending), 12);
    EncodedInWindow(s, descending);
    EncodedInWindow(t, descending);
    if StringLess(a, b) {
      PrefixOrder(a, b, Tail(x), Tail(y));
    }
  }

  lemma TwelveDigits()
    ensures Power(12) == WINDOW
  {
    assert Power(6) == 0x100_0000;
    assert Power(12) == 16 * (16 * (16 * (16 * (16 * (16 * Power(6))))));
  }

  // ---------- Runs ----------

  /** The state after calls at the given times. */
  function After(start: State, times: seq<nat>): State {
    if times == [] then start else Next(After(start, times[..|times| - 1]), times[|times| - 1])
  }

  /** The state call `i` leaves. */
  function Call(start: State, times: seq<nat>, i: nat): State
    requires i < |times|
  {
    After(start, times[..i + 1])
  }

  lemma CallStep(start: State, times: seq<nat>, i: nat)
    requires i + 1 < |times|
    ensures Call(start, times, i + 1) == Next(Call(start, times, i), times[i + 1])
    ensures Call(start, times, i).timestamp == times[i]
  {
    assert times[..i + 2][..i + 1] == times[..i + 1];
    assert times[..i + 1][i] == times[i];
  }

  ghost predicate ClockForward(times: seq<nat>) {
    forall i, j :: 0 <= i < j < |times| ==> times[i] <= times[j]
  }

  /** When the clock moves on, the count has not outrun it; while it stands, the count does not wrap. */
  ghost predicate CountKeepsUp(start: State, times: seq<nat>) {
    forall i :: 0 <= i < |times| - 1 ==> KeepsUp(Call(start, times, i), times[i + 1])
  }

  ghost predicate KeepsUp(s: State, now: nat) {
    if now == s.timestamp then s.count + 1 < U32 else s.count <= (now - s.timestamp) * MILLISECOND
  }

  ghost predicate StampsAscend(start: State, times: seq<nat>) {
    forall i, j :: 0 <= i < j < |times| ==> Stamp(Call(start, times, i)) < Stamp(Call(start, times, j))
  }

  lemma KeepsUpIff(s: State, now: nat)
    requires s.timestamp <= now && s.count < U32
    ensures Stamp(s) < Stamp(Next(s, now)) <==> KeepsUp(s, now)
  {
  }

  lemma {:induction false} AfterCount(start: State, times: seq<nat>)
    requires start.count < U32
    ensures After(start, times).count < U32
  {
  }

  lemma {:induction false} StampsAscendTo(start: State, times: seq<nat>, i: nat, j: nat)
    requires start.count < U32 && ClockForward(times) && CountKeepsUp(start, times) && i < j < |times|
    ensures Stamp(Call(start, times, i)) < Stamp(Call(start, times, j))
  {
    CallStep(start, times, j - 1);
    AfterCount(start, times[..j]);
    KeepsUpIff(Call(start, times, j - 1), times[j]);
    if i < j - 1 {
      StampsAscendTo(start, times, i, j - 1);
    }
  }

  /** With a clock that does not go back, every call's stamp is past all earlier ones exactly when the
      count keeps up with the clock. */
  lemma StampsAscendIff(start: State, times: seq<nat>)
    requires start.count < U32 && ClockForward(times)
    ensures StampsAscend(start, times) <==> CountKeepsUp(start, times)
  {
    if CountKeepsUp(start, times) {
      forall i, j | 0 <= i < j < |times|
        ensures Stamp(Call(start, times, i)) < Stamp(Call(start, times, j))
      {
        StampsAscendTo(start, times, i, j);
      }
    }
    if StampsAscend(start, times) {
      forall i | 0 <= i < |times| - 1
        ensures KeepsUp(Call(start, times, i), times[i + 1])
      {
        CallStep(start, times, i);
        AfterCount(start, times[..i + 1]);
        KeepsUpIff(Call(start, times, i), times[i + 1]);
      }
    }
  }

  /** No more than 4095 calls in one millisecond. */
  ghost predicate FewPerMillisecond(times: seq<nat>) {
    forall i :: 0 <= i && i + 4095 < |times| ==> times[i] != times[i + 4095]
  }

  lemma FirstCall(times: seq<nat>)
    requires times != []
    ensures Call(State(0, 0), times, 0) == State(times[0], 1)
  {
    var one := times[..1];
    assert one[..|one| - 1] == [] && one[|one| - 1] == times[0];
    assert After(State(0, 0), one) == Next(State(0, 0), times[0]);
  }

  /** A fresh counter's count is, up to its width, the number of calls at the same time since the last
      call at another. */
  lemma {:induction false} CountIsCalls(times: seq<nat>, i: nat) returns (n: nat)
    requires i < |times|
    ensures 0 < n <= i + 1 && forall k :: i + 1 - n <= k <= i ==> times[k] == times[i]
    ensures n <= i ==> times[i - n] != times[i]
    ensures Call(State(0, 0), times, i).count == n % 0x1_0000_0000
  {
    hide After;
    n := 1;
    if i == 0 {
      FirstCall(times);
    } else {
      var before := CountIsCalls(times, i - 1);
      CallStep(State(0, 0), times, i - 1);
      if times[i] == times[i - 1] {
        n := before + 1;
      }
    }
  }

  lemma FewCounted(times: seq<nat>, i: nat)
    requires FewPerMillisecond(times) && i < |times|
    ensures Call(State(0, 0), times, i).timestamp == times[i] && Call(State(0, 0), times, i).count <= 4095
  {
    var n := CountIsCalls(times, i);
    assert times[..i + 1][i] == times[i];
    assert i >= 4095 ==> times[i - 4095] != times[i - 4095 + 4095];
  }

  /** With at most 4095 calls a millisecond, whatever the clock does: when the time digits of one call
      sort before those of another. */
  lemma DigitsInOrderIff(times: seq<nat>, i: nat, j: nat, descending: bool)
    requires FewPerMillisecond(times) && i < |times| && j < |times|
    ensures
      var s, t := Call(State(0, 0), times, i), Call(State(0, 0), times, j);
      StringLess(Digits(Encoded(s, descending), 12), Digits(Encoded(t, descending), 12)) <==>
      if descending then Earlier(times[j] % SPAN, t.count, times[i] % SPAN, s.count)
      else Earlier(times[i] % SPAN, s.count, times[j] % SPAN, t.count)
  {
    var s, t := Call(State(0, 0), times, i), Call(State(0, 0), times, j);
    FewCounted(times, i);
    FewCounted(times, j);
    StampInWindow(s);
    StampInWindow(t);
    IdOrder(s, t, descending, [], []);
  }

  predicate Earlier(time: nat, count: nat, otherTime: nat, otherCount: nat) {
    time < otherTime || (time == otherTime && count < otherCount)
  }

  lemma StampInWindow(s: State)
    requires s.count <= 4095
    ensures Stamp(s) % WINDOW == s.timestamp % SPAN * MILLISECOND + s.count
  {
    StampIs(s, s.timestamp / SPAN, s.timestamp % SPAN);
  }

  lemma StampIs(s: State, window: nat, time: nat)
    requires s.timestamp == window * SPAN + time && time < SPAN && s.count <= 4095
    ensures Stamp(s) % WINDOW == time * MILLISECOND + s.count
  {
    assert Stamp(s) == window * WINDOW + (time * MILLISECOND + s.count);
    ModIs(Stamp(s), WINDOW, window, time * MILLISECOND + s.count);
  }

  lemma OneWindow(time: nat, later: nat)
    requires time <= later && time / SPAN == later / SPAN
    ensures time % SPAN <= later % SPAN && (time % SPAN == later % SPAN ==> time == later)
  {
  }

  /** With a clock that does not go back and at most 4095 identifiers a millisecond, identifiers made in
      one window of 2^36 milliseconds increase as strings, and descending ones decrease, whatever windows
      the run has crossed before. */
  lemma IdsInOrder(times: seq<nat>, i: nat, j: nat, x: seq<bv8>, y: seq<bv8>)
    requires ClockForward(times) && FewPerMillisecond(times)
    requires i < j < |times| && times[i] / SPAN == times[j] / SPAN
    ensures
      var s, t := Call(State(0, 0), times, i), Call(State(0, 0), times, j);
      StringLess(Id(s, false, x), Id(t, false, y)) && StringLess(Id(t, true, y), Id(s, true, x))
  {
    hide Digits, Encoded, Id, After;
    var s, t := Call(State(0, 0), times, i), Call(State(0, 0), times, j);
    forall k | 0 <= k < |times|
      ensures Call(State(0, 0), times, k).timestamp == times[k] && Call(State(0, 0), times, k).count <= 4095
    {
      FewCounted(times, k);
    }
    StampsAscendTo(State(0, 0), times, i, j);
    OneWindow(times[i], times[j]);
    DigitsInOrderIff(times, i, j, false);
    DigitsInOrderIff(times, j, i, true);
    IdOrder(s, t, false, x, y);
    IdOrder(t, s, true, y, x);
  }

  ghost predicate StringsAscend(start: State, times: seq<nat>) {
    forall i, j :: 0 <= i < j < |times| ==>
      StringLess(Digits(Encoded(Call(start, times, i), false), 12), Digits(Encoded(Call(start, times, j), false), 12))
  }

  /** Within one window of stamps, from any state, the time digits increase over the whole run exactly
      when the count keeps up with the clock: 4096 calls fit in each millisecond that passes. */
  lemma StringsAscendIff(start: State, times: seq<nat>, window: nat)
    requires start.count < U32 && ClockForward(times)
    requires forall k :: 0 <= k < |times| ==> Stamp(Call(start, times, k)) / WINDOW == window
    ensures StringsAscend(start, times) <==> CountKeepsUp(start, times)
  {
    StampsAscendIff(start, times);
    forall i, j | 0 <= i < j < |times|
      ensures Stamp(Call(start, times, i)) < Stamp(Call(start, times, j)) <==>
        StringLess(Digits(Encoded(Call(start, times, i), false), 12), Digits(Encoded(Call(start, times, j), false), 12))
    {
      IdOrder(Call(start, times, i), Call(start, times, j), false, [], []);
    }
  }

  /** Across the end of a window the order breaks: the identifier of its last millisecond sorts after
      that of the next millisecond. */
  lemma WindowEndBreaksOrder(window: nat, x: seq<bv8>, y: seq<bv8>)
    ensures
      var last := (window + 1) * SPAN - 1;
      var s, t := Call(State(0, 0), [last, last + 1], 0), Call(State(0, 0), [last, last + 1], 1);
      StringLess(Id(t, false, y), Id(s, false, x))
  {
    var last := (window + 1) * SPAN - 1;
    var times := [last, last + 1];
    CallStep(State(0, 0), times, 0);
    FirstCall(times);
    var s, t := Call(State(0, 0), times, 0), Call(State(0, 0), times, 1);
    assert s == State(last, 1) && t == State(last + 1, 1);
    ModIs(Stamp(s), WINDOW, window, WINDOW - MILLISECOND + 1);
    ModIs(Stamp(t), WINDOW, window + 1, 1);
    IdOrder(t, s, false, y, x);
  }
}
