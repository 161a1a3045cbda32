/** The texts of JSON values are JSON, as short as it allows (crates/oc-acp/src/service.rs; section 7 of
    RFC 8259). */
module JsonText {
  import opened StableStringify

  /** The value of a hexadecimal digit of either case. */
  function HexValue(d: char): int {
    if '0' <= d <= '9' then d as int - '0' as int
    else if 'a' <= d <= 'f' then d as int - 'a' as int + 10
    else if 'A' <= d <= 'F' then d as int - 'A' as int + 10
    else -1
  }

  /** `e` stands for `c` inside a JSON string. */
  predicate StandsFor(e: string, c: char) {
    || (e == [c] && c >= '\U{20}' && c != '\U{22}' && c != '\U{5C}')
    || (|e| == 2 && e[0] == '\U{5C}' && ShortEscape(e[1], c))
    || (|e| == 6 && e[..2] == "\\u" && (forall i :: 2 <= i < 6 ==> HexValue(e[i]) >= 0)
        && ((HexValue(e[2]) * 16 + HexValue(e[3])) * 16 + HexValue(e[4])) * 16 + HexValue(e[5]) == c as int)
  }

  predicate ShortEscape(letter: char, c: char) {
    || (letter == c && (c == '\U{22}' || c == '\U{5C}' || c == '/'))
    || (letter == 'b' && c == '\U{08}') || (letter == 'f' && c == '\U{0C}') || (letter == 'n' && c == '\U{0A}')
    || (letter == 'r' && c == '\U{0D}') || (letter == 't' && c == '\U{09}')
  }

  /** Every character is written as JSON has it, in the shortest way there is, with digits in lower case. */
  lemma EscapeIsShortest(c: char, e: string)
    ensures StandsFor(EscapeChar(c), c)
    ensures StandsFor(e, c) ==> |EscapeChar(c)| <= |e|
    ensures |EscapeChar(c)| == 6 ==> forall i :: 2 <= i < 6 ==> !('A' <= EscapeChar(c)[i] <= 'F')
  {
    if c < ' ' && |EscapeChar(c)| == 6 {
      var n := c as int;
      HexDigitIs(n / 16);
      HexDigitIs(n % 16);
      assert EscapeChar(c) == ['\\', 'u', '0', '0', HexDigit(n / 16), HexDigit(n % 16)];
    }
  }

  lemma HexDigitIs(n: int)
    requires 0 <= n < 16
    ensures HexValue(HexDigit(n)) == n && !('A' <= HexDigit(n) <= 'F')
  {
  }

  /** The three literal names. */
  lemma Names()
    ensures Stringify(Null) == "null" && Stringify(Bool(true)) == "true" && Stringify(Bool(false)) == "false"
  {
  }
}
