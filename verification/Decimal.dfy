/** Decimal numerals: printing, and Rust's `parse` for `usize` and `i64`. */
module Decimal {
  import opened Wrappers

  const U64_MAX := 0xffff_ffff_ffff_ffff
  const I64_MAX := 0x7fff_ffff_ffff_ffff
  const I64_MIN := -0x8000_0000_0000_0000

  predicate IsDigit(c: char) {
    '0' <= c <= '9'
  }

  function Digit(d: nat): char
    requires d < 10
  {
    '0' + d as char
  }

  function Print(n: nat): (s: string)
    ensures s != [] && forall i :: 0 <= i < |s| ==> IsDigit(s[i])
    ensures Value(s) == n
  {
    if n < 10 then [Digit(n)]
    else
      var front := Print(n / 10);
      var s := front + [Digit(n % 10)];
      assert s[..|s| - 1] == front;
      s
  }

  function PrintInt(n: int): string {
    if n < 0 then "-" + Print(-n) else Print(n)
  }

  /** The value of a string of digits. */
  function Value(s: string): nat
    requires forall i :: 0 <= i < |s| ==> IsDigit(s[i])
  {
    if s == [] then 0
    else
      assert IsDigit(s[|s| - 1]);
      10 * Value(s[..|s| - 1]) + (s[|s| - 1] as int - '0' as int)
  }

  predicate AllDigits(s: string) {
    s != [] && forall i :: 0 <= i < |s| ==> IsDigit(s[i])
  }

  /** `str::parse::<usize>`: an optional plus sign, digits, and no overflow. */
  function ParseUsize(s: string): Option<nat> {
    var digits := if s != [] && s[0] == '+' then s[1..] else s;
    if AllDigits(digits) && Value(digits) <= U64_MAX then Some(Value(digits)) else None
  }

  /** `str::parse::<i64>`: an optional sign, digits, and no overflow either way. */
  function ParseI64(s: string): Option<int> {
    var negative := s != [] && s[0] == '-';
    var digits := if s != [] && (s[0] == '+' || s[0] == '-') then s[1..] else s;
    if !AllDigits(digits) then None
    else
      var n: int := if negative then -(Value(digits) as int) else Value(digits);
      if I64_MIN <= n <= I64_MAX then Some(n) else None
  }

  lemma UsizeRoundTrip(n: nat)
    ensures ParseUsize(Print(n)) == if n <= U64_MAX then Some(n) else None
  {
    assert IsDigit(Print(n)[0]);
  }

  lemma I64RoundTrip(n: int)
    ensures ParseI64(PrintInt(n)) == if I64_MIN <= n <= I64_MAX then Some(n) else None
  {
    if n < 0 {
      assert PrintInt(n)[1..] == Print(-n);
    } else {
      assert IsDigit(Print(n)[0]);
    }
  }

  // ---------- Which texts are numerals ----------

  function Zeros(n: nat): (s: string)
    ensures |s| == n && forall i :: 0 <= i < n ==> s[i] == '0'
  {
    if n == 0 then "" else "0" + Zeros(n - 1)
  }

  lemma {:induction false} ZerosSnoc(n: nat)
    ensures Zeros(n) + "0" == Zeros(n + 1)
  {
    if n > 0 {
      ZerosSnoc(n - 1);
    }
  }

  lemma ValueSnoc(s: string, c: char)
    requires IsDigit(c) && forall i :: 0 <= i < |s| ==> IsDigit(s[i])
    ensures Value(s + [c]) == 10 * Value(s) + (c as int - '0' as int)
  {
    assert (s + [c])[..|s|] == s;
  }

  lemma PrintStep(n: nat)
    requires n >= 10
    ensures Print(n) == Print(n / 10) + [Digit(n % 10)]
  {
  }

  lemma PrintDigit(n: nat)
    requires n < 10
    ensures Print(n) == [Digit(n)]
  {
  }

  lemma DigitOf(c: char)
    requires IsDigit(c)
    ensures Digit(c as int - '0' as int) == c
  {
  }

  lemma PrintTen(m: nat, d: nat)
    requires m > 0 && d < 10
    ensures Print(10 * m + d) == Print(m) + [Digit(d)]
  {
    assert (10 * m + d) / 10 == m && (10 * m + d) % 10 == d;
    PrintStep(10 * m + d);
  }

  /** Digits are a printed number after zeros. */
  lemma {:induction false} DigitsAre(s: string) returns (zeros: nat)
    requires AllDigits(s)
    ensures s == Zeros(zeros) + Print(Value(s))
  {
    hide Print;
    var front, last := s[..|s| - 1], s[|s| - 1];
    assert s == front + [last] && IsDigit(last);
    ValueSnoc(front, last);
    DigitOf(last);
    if front == [] {
      zeros := 0;
      PrintDigit(last as int - '0' as int);
    } else {
      var before := DigitsAre(front);
      zeros := OneMoreDigit(front, before, Value(front), last as int - '0' as int);
    }
  }

  lemma OneMoreDigit(front: string, before: nat, m: nat, d: nat) returns (zeros: nat)
    requires front == Zeros(before) + Print(m) && d < 10
    ensures front + [Digit(d)] == Zeros(zeros) + Print(10 * m + d)
  {
    hide Print, Zeros;
    if m == 0 {
      PrintDigit(0);
      PrintDigit(d);
      ZerosSnoc(before);
      zeros := before + 1;
      assert front == Zeros(zeros);
    } else {
      PrintTen(m, d);
      zeros := before;
      assert Zeros(zeros) + (Print(m) + [Digit(d)]) == front + [Digit(d)];
    }
  }

  lemma {:induction false} ValueOfZeros(zeros: nat, n: nat)
    ensures AllDigits(Zeros(zeros) + Print(n)) && Value(Zeros(zeros) + Print(n)) == n
    decreases n, zeros
  {
    var s := Zeros(zeros) + Print(n);
    assert forall i :: 0 <= i < |s| ==> IsDigit(s[i]);
    if n >= 10 {
      PrintStep(n);
      ValueOfZeros(zeros, n / 10);
      ValueSnoc(Zeros(zeros) + Print(n / 10), Digit(n % 10));
      assert s == Zeros(zeros) + Print(n / 10) + [Digit(n % 10)];
    } else {
      ZerosAreZero(zeros);
      ValueSnoc(Zeros(zeros), Digit(n));
      assert s == Zeros(zeros) + [Digit(n)];
    }
  }

  lemma {:induction false} ZerosAreZero(n: nat)
    ensures Value(Zeros(n)) == 0
  {
    if n > 0 {
      ZerosSnoc(n - 1);
      ZerosAreZero(n - 1);
      ValueSnoc(Zeros(n - 1), '0');
    }
  }

  ghost predicate Spells(s: string, sign: string, n: nat) {
    exists zeros :: s == sign + (Zeros(zeros) + Print(n))
  }

  /** `parse::<usize>` takes exactly the printed numbers that fit, after zeros and perhaps a plus sign. */
  lemma UsizeIff(s: string, n: nat)
    ensures ParseUsize(s) == Some(n) <==> n < 0x1_0000_0000_0000_0000 && (Spells(s, "", n) || Spells(s, "+", n))
  {
    forall sign, zeros | (sign == "" || sign == "+") && s == sign + (Zeros(zeros) + Print(n)) && n <= U64_MAX
      ensures ParseUsize(s) == Some(n)
    {
      ValueOfZeros(zeros, n);
      SignedDigits(sign, Zeros(zeros) + Print(n));
    }
    if ParseUsize(s) == Some(n) {
      var sign := if s[0] == '+' then "+" else "";
      var zeros := DigitsAre(s[|sign|..]);
      assert s == sign + (Zeros(zeros) + Print(n));
      assert Spells(s, sign, n);
    }
  }

  lemma SignedDigits(sign: string, digits: string)
    requires AllDigits(digits) && |sign| <= 1
    ensures (sign + digits)[|sign|..] == digits
    ensures sign == "" ==> IsDigit((sign + digits)[0])
    ensures sign != "" ==> (sign + digits)[0] == sign[0]
  {
  }

  /** `parse::<i64>` takes exactly the printed numbers that fit, after zeros and perhaps a sign. */
  lemma I64Iff(s: string, n: int)
    ensures ParseI64(s) == Some(n) <==>
      && -0x8000_0000_0000_0000 <= n < 0x8000_0000_0000_0000
      && ((n >= 0 && (Spells(s, "", n) || Spells(s, "+", n))) || (n <= 0 && Spells(s, "-", -n)))
  {
    hide ParseI64, Zeros, Print;
    forall sign, size: nat | (sign == "" || sign == "+" || sign == "-") && Spells(s, sign, size)
      ensures ParseI64(s) == Fitting(sign, size)
    {
      var zeros :| s == sign + (Zeros(zeros) + Print(size));
      ValueOfZeros(zeros, size);
      I64OfDigits(sign, Zeros(zeros) + Print(size));
    }
    if ParseI64(s).Some? {
      var sign, digits := I64Parts(s);
      I64OfDigits(sign, digits);
      var zeros := DigitsAre(digits);
      assert Spells(s, sign, Value(digits));
    }
  }

  function Fitting(sign: string, size: nat): Option<int> {
    var n := if sign == "-" then 0 - size else size;
    if I64_MIN <= n <= I64_MAX then Some(n) else None
  }

  lemma I64OfDigits(sign: string, digits: string)
    requires (sign == "" || sign == "+" || sign == "-") && AllDigits(digits)
    ensures ParseI64(sign + digits) == Fitting(sign, Value(digits))
  {
    hide Value;
    SignedDigits(sign, digits);
    assert sign == "" ==> sign + digits == digits;
  }

  lemma I64Parts(s: string) returns (sign: string, digits: string)
    requires ParseI64(s).Some?
    ensures (sign == "" || sign == "+" || sign == "-") && AllDigits(digits) && s == sign + digits
  {
    hide Value;
    if s[0] == '+' || s[0] == '-' {
      sign, digits := [s[0]], s[1..];
    } else {
      sign, digits := "", s;
    }
  }
}
