/** String operations shared by the parsers: searching, splitting, joining and trimming.
    Positions count characters, not bytes. */
module Text {
  import opened Wrappers

  predicate OccursAt(p: string, s: string, i: int) {
    0 <= i && i + |p| <= |s| && s[i..i + |p|] == p
  }

  /** The first position at or after `from` at which `p` occurs in `s`. */
  function FindFrom(s: string, p: string, from: nat): (r: Option<nat>)
    ensures r.Some? ==> from <= r.value && r.value + |p| <= |s|
    decreases |s| - from
  {
    if OccursAt(p, s, from) then Some(from)
    else if from >= |s| then None
    else FindFrom(s, p, from + 1)
  }

  function Find(s: string, p: string): (r: Option<nat>)
    ensures r.Some? ==> r.value + |p| <= |s|
  {
    FindFrom(s, p, 0)
  }

  /** `r` is the first occurrence at or after `from`, or there is none. */
  ghost predicate IsFirst(s: string, p: string, from: nat, r: Option<nat>) {
    match r
    case None => forall i :: from <= i ==> !OccursAt(p, s, i)
    case Some(k) => from <= k && OccursAt(p, s, k) && forall i :: from <= i < k ==> !OccursAt(p, s, i)
  }

  lemma {:induction false} FindFromIsFirst(s: string, p: string, from: nat)
    ensures IsFirst(s, p, from, FindFrom(s, p, from))
    decreases |s| - from
  {
    if !OccursAt(p, s, from) && from < |s| {
      FindFromIsFirst(s, p, from + 1);
    }
  }

  /** `Find` meets its specification, which determines it. */
  lemma FindIsFirst(s: string, p: string, r: Option<nat>)
    ensures Find(s, p) == r <==> IsFirst(s, p, 0, r)
  {
    FindFromIsFirst(s, p, 0);
    var found := Find(s, p);
    if r.Some? && found.Some? {
      assert !(r.value < found.value) || !OccursAt(p, s, r.value);
      assert !(found.value < r.value) || OccursAt(p, s, found.value);
    } else if r.Some? {
      assert !OccursAt(p, s, r.value);
    } else if found.Some? {
      assert OccursAt(p, s, found.value);
    }
  }

  /** An occurrence in a string is still the first one after text is appended. */
  lemma FindAppend(s: string, t: string, p: string)
    requires Find(s, p).Some?
    ensures Find(s + t, p) == Find(s, p)
  {
    var found := Find(s, p);
    FindIsFirst(s, p, found);
    forall i | 0 <= i <= found.value
      ensures OccursAt(p, s + t, i) == OccursAt(p, s, i)
    {
      assert (s + t)[i..i + |p|] == s[i..i + |p|];
    }
    FindIsFirst(s + t, p, found);
  }

  lemma OccursConcat(a: string, b: string, s: string, i: nat)
    ensures OccursAt(a + b, s, i) <==> OccursAt(a, s, i) && OccursAt(b, s, i + |a|)
  {
    if i + |a + b| <= |s| {
      assert s[i..i + |a + b|] == s[i..i + |a|] + s[i + |a|..i + |a + b|];
      assert (a + b)[..|a|] == a && (a + b)[|a|..] == b;
    }
  }

  /** A delimiter whose first character does not recur in it is found exactly where it was put,
      provided the text before it is free of it. */
  lemma FindFromDelimiter(s: string, from: nat, body: string, p: string)
    requires p != [] && forall k :: 1 <= k < |p| ==> p[k] != p[0]
    requires OccursAt(body, s, from) && OccursAt(p, s, from + |body|)
    requires Find(body, p).None?
    ensures FindFrom(s, p, from) == Some(from + |body|)
  {
    FindIsFirst(body, p, None);
    forall i | from <= i < from + |body|
      ensures !OccursAt(p, s, i)
    {
      assert forall j :: from <= j < from + |body| ==> s[j] == s[from..from + |body|][j - from];
      if i + |p| <= from + |body| {
        assert s[i..i + |p|] == body[i - from..i - from + |p|];
        assert !OccursAt(p, body, i - from);
      } else if i + |p| <= |s| {
        var k := from + |body| - i;
        assert s[i..i + |p|][k] == s[i + k] == s[from + |body|..from + |body| + |p|][0];
      }
    }
    FindFromIsFirst(s, p, from);
    var found := FindFrom(s, p, from);
    assert OccursAt(p, s, from + |body|);
    assert found.Some? && OccursAt(p, s, found.value);
  }

  /** The text up to the first white space. */
  function Word(s: string): string {
    if s == [] || IsWhitespace(s[0]) then [] else [s[0]] + Word(s[1..])
  }

  /** The pieces of `s` between occurrences of `c`, as Rust's `split` on a character. */
  function Split(s: string, c: char): (r: seq<string>)
    ensures r != []
  {
    if s == [] then [[]]
    else if s[0] == c then [[]] + Split(s[1..], c)
    else
      var rest := Split(s[1..], c);
      [[s[0]] + rest[0]] + rest[1..]
  }

  lemma {:induction false} SplitFree(s: string, c: char)
    requires c !in s
    ensures Split(s, c) == [s]
  {
    if s != [] {
      SplitFree(s[1..], c);
      assert s == [s[0]] + s[1..];
    }
  }

  lemma {:induction false} SplitFirst(s: string, c: char, more: string)
    requires c !in s
    ensures Split(s + [c] + more, c) == [s] + Split(more, c)
  {
    var t := s + [c] + more;
    if s == [] {
      assert t[1..] == more;
    } else {
      assert t[1..] == s[1..] + [c] + more;
      SplitFirst(s[1..], c, more);
      assert s == [s[0]] + s[1..];
      assert ([s[1..]] + Split(more, c))[1..] == Split(more, c);
    }
  }

  function Join(parts: seq<string>, separator: string): string {
    if parts == [] then ""
    else if |parts| == 1 then parts[0]
    else parts[0] + separator + Join(parts[1..], separator)
  }

  function Concat(parts: seq<string>): string {
    if parts == [] then "" else parts[0] + Concat(parts[1..])
  }

  lemma ConcatAssociative<T>(x: seq<T>, y: seq<T>, z: seq<T>)
    ensures x + (y + z) == (x + y) + z
  {
  }

  /** `char::is_whitespace`, the Unicode White_Space property. */
  predicate IsWhitespace(c: char) {
    || '\t' <= c <= '\r'
    || c == ' ' || c == '\U{85}' || c == '\U{A0}' || c == '\U{1680}'
    || '\U{2000}' <= c <= '\U{200A}'
    || c == '\U{2028}' || c == '\U{2029}' || c == '\U{202F}' || c == '\U{205F}' || c == '\U{3000}'
  }

  const WHITE_SPACE := [
    '\U{09}', '\U{0A}', '\U{0B}', '\U{0C}', '\U{0D}', '\U{20}', '\U{85}', '\U{A0}', '\U{1680}', '\U{2000}', '\U{2001}',
    '\U{2002}', '\U{2003}', '\U{2004}', '\U{2005}', '\U{2006}', '\U{2007}', '\U{2008}', '\U{2009}', '\U{200A}',
    '\U{2028}', '\U{2029}', '\U{202F}', '\U{205F}', '\U{3000}']

  /** The 25 characters with the property. */
  lemma WhitespaceIff(c: char)
    ensures IsWhitespace(c) <==> c in WHITE_SPACE
  {
    if IsWhitespace(c) {
      var n := c as int;
      if 0x09 <= n <= 0x0D {
        assert WHITE_SPACE[n - 0x09] == c;
      } else if 0x2000 <= n <= 0x200A {
        assert WHITE_SPACE[n - 0x2000 + 9] == c;
      }
    }
  }

  function TrimStart(s: string): string {
    if s != [] && IsWhitespace(s[0]) then TrimStart(s[1..]) else s
  }

  function TrimEnd(s: string): string {
    if s != [] && IsWhitespace(s[|s| - 1]) then TrimEnd(s[..|s| - 1]) else s
  }

  function Trim(s: string): string {
    TrimEnd(TrimStart(s))
  }

  /** No white space at either end. */
  predicate Trimmed(s: string) {
    s != [] ==> !IsWhitespace(s[0]) && !IsWhitespace(s[|s| - 1])
  }

  /** Lexicographic order on strings; on valid UTF-8 it is also the byte order. */
  predicate StringLess(a: string, b: string) {
    b != [] && (a == [] || a[0] < b[0] || (a[0] == b[0] && StringLess(a[1..], b[1..])))
  }

  /** They agree before `k`, where the one ends or has the lower character. */
  ghost predicate LessAt(a: string, b: string, k: nat) {
    k <= |a| && k < |b| && a[..k] == b[..k] && (k == |a| || a[k] < b[k])
  }

  lemma {:induction false} StringLessIff(a: string, b: string)
    ensures StringLess(a, b) <==> exists k: nat :: LessAt(a, b, k)
  {
    if b != [] {
      if a == [] {
        assert LessAt(a, b, 0);
      } else {
        StringLessIff(a[1..], b[1..]);
        if a[0] < b[0] {
          assert LessAt(a, b, 0);
        }
        if a[0] == b[0] && StringLess(a[1..], b[1..]) {
          var k: nat :| LessAt(a[1..], b[1..], k);
          assert a[..k + 1] == [a[0]] + a[1..][..k] && b[..k + 1] == [b[0]] + b[1..][..k];
          assert LessAt(a, b, k + 1);
        }
        if k: nat :| LessAt(a, b, k) {
          LessAtTail(a, b, k);
        }
      }
    }
  }

  lemma LessAtTail(a: string, b: string, k: nat)
    requires a != [] && b != [] && LessAt(a, b, k)
    ensures if k == 0 then a[0] < b[0] else a[0] == b[0] && LessAt(a[1..], b[1..], k - 1)
  {
    if k > 0 {
      assert a[0] == a[..k][0] == b[..k][0] == b[0];
      assert a[1..][..k - 1] == a[..k][1..] && b[1..][..k - 1] == b[..k][1..];
    }
  }

  lemma {:induction false} StringLessTotal(a: string, b: string)
    ensures StringLess(a, b) || a == b || StringLess(b, a)
    ensures !(StringLess(a, b) && StringLess(b, a))
    ensures !StringLess(a, a)
  {
    if a != [] {
      StringLessTotal(a[1..], if b == [] then [] else b[1..]);
      if b != [] && a[0] == b[0] && a[1..] == b[1..] {
        assert a == [a[0]] + a[1..] && b == [b[0]] + b[1..];
      }
    }
  }

  lemma {:induction false} StringLessTransitive(a: string, b: string, c: string)
    requires StringLess(a, b) && StringLess(b, c)
    ensures StringLess(a, c)
  {
    if a != [] && a[0] == b[0] == c[0] {
      StringLessTransitive(a[1..], b[1..], c[1..]);
    }
  }

  predicate AllWhitespace(s: string) {
    forall i :: 0 <= i < |s| ==> IsWhitespace(s[i])
  }

  lemma {:induction false} TrimStartPadded(pad: string, s: string)
    requires AllWhitespace(pad) && (s != [] ==> !IsWhitespace(s[0]))
    ensures TrimStart(pad + s) == s
  {
    if pad == [] {
      assert pad + s == s;
    } else {
      assert (pad + s)[1..] == pad[1..] + s;
      TrimStartPadded(pad[1..], s);
    }
  }

  lemma {:induction false} TrimEndPadded(s: string, pad: string)
    requires AllWhitespace(pad) && (s != [] ==> !IsWhitespace(s[|s| - 1]))
    ensures TrimEnd(s + pad) == s
  {
    if pad == [] {
      assert s + pad == s;
    } else {
      var n := |pad| - 1;
      assert (s + pad)[..|s + pad| - 1] == s + pad[..n];
      TrimEndPadded(s, pad[..n]);
    }
  }

  lemma {:induction false} TrimStartAll(pad: string)
    requires AllWhitespace(pad)
    ensures TrimStart(pad) == ""
  {
    if pad != [] {
      TrimStartAll(pad[1..]);
    }
  }

  /** White space around a trimmed text is what `trim` removes. */
  lemma TrimPadded(left: string, s: string, right: string)
    requires AllWhitespace(left) && AllWhitespace(right) && Trimmed(s)
    ensures Trim(left + s + right) == s
  {
    assert left + s + right == left + (s + right);
    if s == [] {
      assert left + s + right == left + right;
      TrimStartAll(left + right);
    } else {
      TrimStartPadded(left, s + right);
      TrimEndPadded(s, right);
    }
  }

  lemma TrimTrimmed(s: string)
    requires Trimmed(s)
    ensures Trim(s) == s
  {
  }
}
