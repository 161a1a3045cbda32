/** Applying a parsed unified diff to a list of lines (crates/oc-acp/src/permission.rs). */
module Patch {
  import opened Text

  datatype Op = Context | Remove | Add

  datatype PatchLine = PatchLine(op: Op, text: string)

  datatype Hunk = Hunk(start: nat, lines: seq<PatchLine>)

  /** `Refused` is the source's `None`; `Panicked` is an insertion past the end of the vector. */
  datatype Patched = Applied(lines: seq<string>) | Refused | Panicked

  /** The bound of `isize`. */
  const ISIZE := 0x8000_0000_0000_0000

  /** A number cast to `isize`, or an `isize` sum that wraps around. */
  function AsIsize(n: int): int {
    (n + ISIZE) % (2 * ISIZE) - ISIZE
  }

  /** `start.saturating_sub(1)`: `start` is one-based, and 0 is taken as 1. */
  function Line(hunk: Hunk): nat {
    if hunk.start == 0 then 0 else hunk.start - 1
  }

  function Position(hunk: Hunk): int {
    AsIsize(Line(hunk))
  }

  /** Where a hunk begins in the edited lines; negative for a start beyond the range of `isize`. */
  function StartOf(hunk: Hunk, offset: int): int {
    AsIsize(Position(hunk) + offset)
  }

  /** The lines a hunk expects, and those it leaves. */
  function OldSide(lines: seq<PatchLine>): seq<string> {
    if lines == [] then []
    else (if lines[0].op.Add? then [] else [lines[0].text]) + OldSide(lines[1..])
  }

  function NewSide(lines: seq<PatchLine>): seq<string> {
    if lines == [] then []
    else (if lines[0].op.Remove? then [] else [lines[0].text]) + NewSide(lines[1..])
  }

  function Delta(hunk: Hunk): int {
    |NewSide(hunk.lines)| - |OldSide(hunk.lines)|
  }

  // ---------- The edit as the source makes it ----------

  function Clamp(position: int): nat {
    if position < 0 then 0 else position
  }

  /** One patch line at a position of the vector. */
  function RunLine(lines: seq<string>, position: int, line: PatchLine): (r: (Patched, int)) {
    var base := Clamp(position);
    match line.op
    case Context =>
      if base < |lines| && lines[base] == line.text then (Applied(lines), position + 1) else (Refused, position)
    case Remove =>
      if base < |lines| && lines[base] == line.text then (Applied(lines[..base] + lines[base + 1..]), position)
      else (Refused, position)
    case Add =>
      if base <= |lines| then (Applied(lines[..base] + [line.text] + lines[base..]), position + 1)
      else (Panicked, position)
  }

  function RunLines(lines: seq<string>, position: int, patch: seq<PatchLine>): Patched
    decreases |patch|
  {
    if patch == [] then Applied(lines)
    else
      var (r, next) := RunLine(lines, position, patch[0]);
      if r.Applied? then RunLines(r.lines, next, patch[1..]) else r
  }

  function RunHunks(lines: seq<string>, offset: int, hunks: seq<Hunk>): Patched
    decreases |hunks|
  {
    if hunks == [] then Applied(lines)
    else
      var r := RunLines(lines, StartOf(hunks[0], offset), hunks[0].lines);
      if r.Applied? then RunHunks(r.lines, offset + Delta(hunks[0]), hunks[1..]) else r
  }

  /** `apply_patch` on lines: edits the vector in place, hunk by hunk. */
  method ApplyPatch(original: seq<string>, hunks: seq<Hunk>) returns (r: Patched)
    ensures r == if hunks == [] then Refused else RunHunks(original, 0, hunks)
  {
    if hunks == [] {
      return Refused;
    }
    var lines := original;
    var offset := 0;
    for h := 0 to |hunks|
      invariant RunHunks(original, 0, hunks) == RunHunks(lines, offset, hunks[h..])
    {
      var hunk := hunks[h];
      var position := StartOf(hunk, offset);
      ghost var before := lines;
      for i := 0 to |hunk.lines|
        invariant RunLines(before, StartOf(hunk, offset), hunk.lines) == RunLines(lines, position, hunk.lines[i..])
      {
        var line := hunk.lines[i];
        assert hunk.lines[i..][1..] == hunk.lines[i + 1..];
        var base := if position < 0 then 0 else position;
        match line.op
        case Context =>
          if !(base < |lines| && lines[base] == line.text) {
            return Refused;
          }
          position := position + 1;
        case Remove =>
          if !(base < |lines| && lines[base] == line.text) {
            return Refused;
          }
          lines := lines[..base] + lines[base + 1..];
        case Add =>
          if base > |lines| {
            return Panicked;
          }
          lines := lines[..base] + [line.text] + lines[base..];
          position := position + 1;
      }
      assert hunks[h..][1..] == hunks[h + 1..];
      var oldLines, newLines := |OldSide(hunk.lines)|, |NewSide(hunk.lines)|;
      offset := offset + (newLines - oldLines);
    }
    return Applied(lines);
  }

  // ---------- What a hunk does ----------

  /** The lines left by a hunk placed between `front` and `back`. */
  function Replaced(front: seq<string>, back: seq<string>, patch: seq<PatchLine>): Patched {
    if OldSide(patch) <= back then Applied(front + (NewSide(patch) + back[|OldSide(patch)|..])) else Refused
  }

  /** A hunk placed between `front` and `back` replaces its old side at the head of `back` by its new
      side, and is refused if `back` does not start with it. */
  lemma {:induction false} HunkReplaces(front: seq<string>, back: seq<string>, patch: seq<PatchLine>)
    ensures RunLines(front + back, |front|, patch) == Replaced(front, back, patch)
    decreases |patch|
  {
    hide RunLine;
    if patch == [] {
      assert [] + back[0..] == back;
    } else {
      RunLinesStep(front, back, patch);
      if patch[0].op.Add? {
        HunkReplaces(front + [patch[0].text], back, patch[1..]);
        ReplacedAdd(front, back, patch);
      } else if back == [] || back[0] != patch[0].text {
        assert OldSide(patch)[0] == patch[0].text;
      } else {
        HunkReplaces(if patch[0].op.Remove? then front else front + [patch[0].text], back[1..], patch[1..]);
        ReplacedOld(front, back, patch);
      }
    }
  }

  lemma SidesCons(patch: seq<PatchLine>)
    requires patch != []
    ensures OldSide(patch) == (if patch[0].op.Add? then [] else [patch[0].text]) + OldSide(patch[1..])
    ensures NewSide(patch) == (if patch[0].op.Remove? then [] else [patch[0].text]) + NewSide(patch[1..])
  {
  }

  lemma ReplacedAdd(front: seq<string>, back: seq<string>, patch: seq<PatchLine>)
    requires patch != [] && patch[0].op.Add?
    ensures Replaced(front, back, patch) == Replaced(front + [patch[0].text], back, patch[1..])
  {
    hide OldSide, NewSide;
    var text, later := patch[0].text, patch[1..];
    SidesCons(patch);
    assert [] + OldSide(later) == OldSide(later);
    if OldSide(later) <= back {
      var tail := back[|OldSide(later)|..];
      ConcatAssociative([text], NewSide(later), tail);
      ConcatAssociative(front, [text], NewSide(later) + tail);
    }
  }

  lemma ReplacedOld(front: seq<string>, back: seq<string>, patch: seq<PatchLine>)
    requires patch != [] && !patch[0].op.Add? && back != [] && back[0] == patch[0].text
    ensures Replaced(front, back, patch) ==
      Replaced(if patch[0].op.Remove? then front else front + [patch[0].text], back[1..], patch[1..])
  {
    hide OldSide, NewSide;
    var text, later := patch[0].text, patch[1..];
    SidesCons(patch);
    HeadOf(text, OldSide(later), back);
    assert [] + NewSide(later) == NewSide(later);
    if OldSide(later) <= back[1..] {
      var tail := back[1..][|OldSide(later)|..];
      ConcatAssociative([text], NewSide(later), tail);
      ConcatAssociative(front, [text], NewSide(later) + tail);
    }
  }

  lemma RunLinesStep(front: seq<string>, back: seq<string>, patch: seq<PatchLine>)
    requires patch != []
    ensures RunLines(front + back, |front|, patch) ==
      if patch[0].op.Add? then RunLines((front + [patch[0].text]) + back, |front| + 1, patch[1..])
      else if back == [] || back[0] != patch[0].text then Refused
      else if patch[0].op.Remove? then RunLines(front + back[1..], |front|, patch[1..])
      else RunLines((front + [patch[0].text]) + back[1..], |front| + 1, patch[1..])
  {
    hide RunLine;
    OneLine(front, back, patch[0]);
  }

  lemma OneLine(front: seq<string>, back: seq<string>, line: PatchLine)
    ensures RunLine(front + back, |front|, line) ==
      if line.op.Add? then (Applied((front + [line.text]) + back), |front| + 1)
      else if back == [] || back[0] != line.text then (Refused, |front|)
      else if line.op.Remove? then (Applied(front + back[1..]), |front|)
      else (Applied((front + [line.text]) + back[1..]), |front| + 1)
  {
    var lines := front + back;
    assert lines[..|front|] == front && lines[|front|..] == back;
    if back != [] {
      assert lines[|front| + 1..] == back[1..];
      assert lines[|front|] == back[0];
      assert (front + [back[0]]) + back[1..] == lines;
    }
  }

  lemma HeadOf<T>(x: T, xs: seq<T>, back: seq<T>)
    requires back != [] && back[0] == x
    ensures [x] + xs <= back <==> xs <= back[1..]
    ensures xs <= back[1..] ==> back[|[x] + xs|..] == back[1..][|xs|..]
  {
    assert back == [x] + back[1..];
    if [x] + xs <= back {
      assert xs == ([x] + xs)[1..] == back[..1 + |xs|][1..] == back[1..][..|xs|];
    }
  }

  /** The insertion index is out of bounds exactly when a hunk starts past the end with an added line. */
  lemma {:induction false} PanicsExactly(lines: seq<string>, position: int, patch: seq<PatchLine>)
    ensures RunLines(lines, position, patch).Panicked? <==> patch != [] && patch[0].op.Add? && position > |lines|
    decreases |patch|
  {
    if patch != [] {
      var (r, next) := RunLine(lines, position, patch[0]);
      if r.Applied? {
        PanicsExactly(r.lines, next, patch[1..]);
      }
    }
  }

  /** Any patch that applies changes the number of lines by its additions less its removals. */
  lemma {:induction false} LinesConserved(lines: seq<string>, position: int, patch: seq<PatchLine>)
    ensures var r := RunLines(lines, position, patch);
      r.Applied? ==> |r.lines| == |lines| + |NewSide(patch)| - |OldSide(patch)|
    decreases |patch|
  {
    if patch != [] {
      var (r, next) := RunLine(lines, position, patch[0]);
      if r.Applied? {
        LinesConserved(r.lines, next, patch[1..]);
      }
    }
  }

  // ---------- What a patch does ----------

  function Net(hunks: seq<Hunk>): int {
    if hunks == [] then 0 else Delta(hunks[0]) + Net(hunks[1..])
  }

  lemma {:induction false} PatchConservesLines(lines: seq<string>, offset: int, hunks: seq<Hunk>)
    ensures var r := RunHunks(lines, offset, hunks); r.Applied? ==> |r.lines| == |lines| + Net(hunks)
    decreases |hunks|
  {
    if hunks != [] {
      LinesConserved(lines, StartOf(hunks[0], offset), hunks[0].lines);
      var r := RunLines(lines, StartOf(hunks[0], offset), hunks[0].lines);
      if r.Applied? {
        PatchConservesLines(r.lines, offset + Delta(hunks[0]), hunks[1..]);
      }
    }
  }

  /** How many lines the hunks have. */
  function Size(hunks: seq<Hunk>): nat {
    if hunks == [] then 0 else |hunks[0].lines| + Size(hunks[1..])
  }

  /** Together the lines are no more than memory can hold, and starts are of type `usize`. */
  ghost predicate InMemory(original: seq<string>, hunks: seq<Hunk>) {
    |original| + Size(hunks) < ISIZE && forall k :: 0 <= k < |hunks| ==> hunks[k].start < 2 * ISIZE
  }

  lemma {:induction false} SidesBounded(lines: seq<PatchLine>)
    ensures |OldSide(lines)| <= |lines| && |NewSide(lines)| <= |lines|
  {
    if lines != [] {
      SidesBounded(lines[1..]);
    }
  }

  /** The cast of a `usize` reads its 64 bits as a signed number. */
  lemma CastsSigned(n: nat)
    requires n < 0x1_0000_0000_0000_0000
    ensures AsIsize(n) == if n < 0x8000_0000_0000_0000 then n else n - 0x1_0000_0000_0000_0000
  {
  }

  lemma InRange(n: int)
    ensures -ISIZE <= AsIsize(n) < ISIZE
    ensures -ISIZE <= n < ISIZE ==> AsIsize(n) == n
    ensures ISIZE <= n < 3 * ISIZE ==> AsIsize(n) == n - 2 * ISIZE
  {
  }

  ghost predicate PanicsAt(lines: seq<string>, offset: int, hunks: seq<Hunk>, k: nat) {
    && k < |hunks| && hunks[k].lines != [] && hunks[k].lines[0].op.Add?
    && var r := RunHunks(lines, offset, hunks[..k]);
      r.Applied? && StartOf(hunks[k], offset + Net(hunks[..k])) > |r.lines|
  }

  lemma {:induction false} HunksPanicIff(lines: seq<string>, offset: int, hunks: seq<Hunk>)
    ensures RunHunks(lines, offset, hunks).Panicked? <==> exists k: nat :: PanicsAt(lines, offset, hunks, k)
    decreases |hunks|
  {
    if hunks != [] {
      hide PanicsAt, RunLines, StartOf, Delta;
      var r := RunLines(lines, StartOf(hunks[0], offset), hunks[0].lines);
      PanicsFirst(lines, offset, hunks);
      if r.Applied? {
        HunksPanicIff(r.lines, offset + Delta(hunks[0]), hunks[1..]);
      }
      if k: nat :| PanicsAt(lines, offset, hunks, k) {
        if k > 0 {
          PanicsLater(lines, offset, hunks, k - 1);
        }
      }
      if r.Applied? && RunHunks(lines, offset, hunks).Panicked? {
        var j: nat :| PanicsAt(r.lines, offset + Delta(hunks[0]), hunks[1..], j);
        PanicsLater(lines, offset, hunks, j);
      }
    }
  }

  lemma PanicsFirst(lines: seq<string>, offset: int, hunks: seq<Hunk>)
    requires hunks != []
    ensures PanicsAt(lines, offset, hunks, 0) <==>
      RunLines(lines, StartOf(hunks[0], offset), hunks[0].lines).Panicked?
  {
    PanicsExactly(lines, StartOf(hunks[0], offset), hunks[0].lines);
  }

  lemma PanicsLater(lines: seq<string>, offset: int, hunks: seq<Hunk>, j: nat)
    requires hunks != []
    ensures var r := RunLines(lines, StartOf(hunks[0], offset), hunks[0].lines);
      PanicsAt(lines, offset, hunks, j + 1) <==>
        r.Applied? && PanicsAt(r.lines, offset + Delta(hunks[0]), hunks[1..], j)
  {
    hide StartOf, RunLines, Delta;
    if j + 1 < |hunks| {
      assert hunks[..j + 1][1..] == hunks[1..][..j] && hunks[..j + 1][0] == hunks[0];
    }
  }

  /** Hunk `k` is reached, adds a line first, and starts past the end of the original, but not so far that
      its place wraps around. */
  ghost predicate StartsPastEnd(original: seq<string>, hunks: seq<Hunk>, k: nat) {
    && k < |hunks| && hunks[k].lines != [] && hunks[k].lines[0].op.Add?
    && RunHunks(original, 0, hunks[..k]).Applied?
    && |original| + 1 < hunks[k].start && hunks[k].start + Net(hunks[..k]) <= ISIZE
  }

  /** A patch panics exactly when some hunk, once those before it have applied, starts with an added line
      past the end of the original; a start that wraps around is clamped to the first line instead. */
  lemma PatchPanicsIff(original: seq<string>, hunks: seq<Hunk>)
    requires InMemory(original, hunks)
    ensures RunHunks(original, 0, hunks).Panicked? <==> exists k: nat :: StartsPastEnd(original, hunks, k)
  {
    HunksPanicIff(original, 0, hunks);
    forall k: nat
      ensures PanicsAt(original, 0, hunks, k) <==> StartsPastEnd(original, hunks, k)
    {
      if k < |hunks| && RunHunks(original, 0, hunks[..k]).Applied? {
        PatchConservesLines(original, 0, hunks[..k]);
        NetBounded(hunks[..k]);
        SizeUpTo(hunks, k);
        PastEnd(hunks[k], Net(hunks[..k]), |original|);
      }
    }
  }

  lemma PastEnd(hunk: Hunk, net: int, size: nat)
    requires hunk.start < 2 * ISIZE && size + net >= 0 && -ISIZE < net < ISIZE && size < ISIZE
    ensures StartOf(hunk, net) > size + net <==> size < Line(hunk) && Line(hunk) + net < ISIZE
  {
    InRange(Line(hunk));
    InRange(Position(hunk) + net);
  }

  lemma {:induction false} NetBounded(hunks: seq<Hunk>)
    ensures 0 <= Net(hunks) + Size(hunks) && Net(hunks) <= Size(hunks)
  {
    if hunks != [] {
      SidesBounded(hunks[0].lines);
      NetBounded(hunks[1..]);
    }
  }

  lemma {:induction false} SizeUpTo(hunks: seq<Hunk>, k: nat)
    requires k <= |hunks|
    ensures Size(hunks[..k]) <= Size(hunks)
  {
    if k > 0 {
      SizeUpTo(hunks[1..], k - 1);
      assert hunks[..k][1..] == hunks[1..][..k - 1];
    }
  }

  /** Where the old side of a hunk ends in the original. */
  function OldEnd(hunk: Hunk): int {
    Position(hunk) + |OldSide(hunk.lines)|
  }

  /** The hunks are in order, do not overlap, and start inside the `n` lines of the original. */
  predicate WellPlaced(hunks: seq<Hunk>, cursor: nat, n: int) {
    hunks != [] ==>
      cursor <= Position(hunks[0]) <= n && WellPlaced(hunks[1..], OldEnd(hunks[0]), n)
  }

  predicate FitsAt(original: seq<string>, hunk: Hunk) {
    0 <= Position(hunk) <= |original| && OldSide(hunk.lines) <= original[Position(hunk)..]
  }

  /** Every hunk finds its old side in the original. */
  predicate Fits(original: seq<string>, hunks: seq<Hunk>) {
    hunks != [] ==> FitsAt(original, hunks[0]) && Fits(original, hunks[1..])
  }

  /** The original from `cursor` on, with the old side of each hunk replaced by its new side. */
  function Splice(original: seq<string>, cursor: nat, hunks: seq<Hunk>): seq<string>
    requires cursor <= |original| && WellPlaced(hunks, cursor, |original|) && Fits(original, hunks)
    decreases |hunks|
  {
    if hunks == [] then original[cursor..]
    else
      original[cursor..Position(hunks[0])] + (NewSide(hunks[0].lines) + Splice(original, OldEnd(hunks[0]), hunks[1..]))
  }

  /** With `done` in place of the first `cursor` lines, the running offset puts every hunk where the
      original had it. */
  lemma {:induction false} RunSplices(original: seq<string>, cursor: nat, hunks: seq<Hunk>, done: seq<string>)
    requires cursor <= |original| && WellPlaced(hunks, cursor, |original|)
    requires |done| + |original| - cursor + Size(hunks) < ISIZE
    ensures RunHunks(done + original[cursor..], |done| - cursor, hunks) ==
      if Fits(original, hunks) then Applied(done + Splice(original, cursor, hunks)) else Refused
    decreases |hunks|, 1
  {
    if hunks != [] {
      hide RunLines, OldSide, NewSide;
      var hunk := hunks[0];
      var gap, back := original[cursor..Position(hunk)], original[Position(hunk)..];
      assert original[cursor..] == gap + back;
      ConcatAssociative(done, gap, back);
      InRange(Position(hunk) + |done| - cursor);
      HunkReplaces(done + gap, back, hunk.lines);
      if FitsAt(original, hunk) {
        assert back[|OldSide(hunk.lines)|..] == original[OldEnd(hunk)..];
        HunkSplices(original, cursor, hunks, done, gap, NewSide(hunk.lines));
      }
    }
  }

  lemma {:induction false} HunkSplices(
    original: seq<string>, cursor: nat, hunks: seq<Hunk>, done: seq<string>, gap: seq<string>, added: seq<string>)
    requires hunks != [] && cursor <= |original| && WellPlaced(hunks, cursor, |original|)
    requires FitsAt(original, hunks[0]) && |done| + |original| - cursor + Size(hunks) < ISIZE
    requires gap == original[cursor..Position(hunks[0])] && added == NewSide(hunks[0].lines)
    ensures RunHunks(
        (done + gap) + (added + original[OldEnd(hunks[0])..]), |done| - cursor + Delta(hunks[0]), hunks[1..])
      == if Fits(original, hunks[1..]) then Applied(done + Splice(original, cursor, hunks)) else Refused
    decreases |hunks|, 0
  {
    var next := OldEnd(hunks[0]);
    SidesBounded(hunks[0].lines);
    RunSplices(original, next, hunks[1..], (done + gap) + added);
    ConcatAssociative(done + gap, added, original[next..]);
    if Fits(original, hunks[1..]) {
      var spliced := Splice(original, next, hunks[1..]);
      ConcatAssociative(done + gap, added, spliced);
      ConcatAssociative(done, gap, added + spliced);
    }
  }

  /** A patch whose hunks are in order and start inside the original is applied as a splice of the
      original when every old side matches, and refused otherwise; it never panics. */
  lemma PatchIsSplice(original: seq<string>, hunks: seq<Hunk>)
    requires WellPlaced(hunks, 0, |original|) && InMemory(original, hunks)
    ensures RunHunks(original, 0, hunks) ==
      if Fits(original, hunks) then Applied(Splice(original, 0, hunks)) else Refused
  {
    assert [] + original[0..] == original;
    RunSplices(original, 0, hunks, []);
    if Fits(original, hunks) {
      assert [] + Splice(original, 0, hunks) == Splice(original, 0, hunks);
    }
  }

  /** Every line of a hunk that is reached finds its position inside the vector or at its end. */
  predicate InsideLines(lines: seq<string>, position: int, patch: seq<PatchLine>)
    decreases |patch|
  {
    patch != [] ==>
      && 0 <= position <= |lines|
      && var (r, next) := RunLine(lines, position, patch[0]);
        r.Applied? ==> InsideLines(r.lines, next, patch[1..])
  }

  predicate InsideHunks(lines: seq<string>, offset: int, hunks: seq<Hunk>)
    decreases |hunks|
  {
    hunks != [] ==>
      && InsideLines(lines, StartOf(hunks[0], offset), hunks[0].lines)
      && var r := RunLines(lines, StartOf(hunks[0], offset), hunks[0].lines);
        r.Applied? ==> InsideHunks(r.lines, offset + Delta(hunks[0]), hunks[1..])
  }

  lemma {:induction false} LinesStayInside(lines: seq<string>, position: int, patch: seq<PatchLine>)
    requires 0 <= position <= |lines|
    ensures InsideLines(lines, position, patch)
    decreases |patch|
  {
    if patch != [] {
      var (r, next) := RunLine(lines, position, patch[0]);
      if r.Applied? {
        LinesStayInside(r.lines, next, patch[1..]);
      }
    }
  }

  lemma {:induction false} HunksStayInside(lines: seq<string>, offset: int, hunks: seq<Hunk>, cursor: nat)
    requires cursor + offset >= 0 && WellPlaced(hunks, cursor, |lines| - offset)
    requires |lines| + Size(hunks) < ISIZE
    ensures InsideHunks(lines, offset, hunks)
    decreases |hunks|
  {
    if hunks != [] {
      var position := StartOf(hunks[0], offset);
      InRange(Position(hunks[0]) + offset);
      SidesBounded(hunks[0].lines);
      LinesStayInside(lines, position, hunks[0].lines);
      LinesConserved(lines, position, hunks[0].lines);
      var r := RunLines(lines, position, hunks[0].lines);
      if r.Applied? {
        HunksStayInside(r.lines, offset + Delta(hunks[0]), hunks[1..], OldEnd(hunks[0]));
      }
    }
  }

  /** On a well placed patch no line is ever clamped to the start or falls past the end of the vector. */
  lemma NeverClamped(original: seq<string>, hunks: seq<Hunk>)
    requires WellPlaced(hunks, 0, |original|) && InMemory(original, hunks)
    ensures InsideHunks(original, 0, hunks)
  {
    HunksStayInside(original, 0, hunks, 0);
  }

  // ---------- Where a hunk applies ----------

  /** A start of 0 is a start of 1, wherever the hunk stands in a patch. */
  lemma {:induction false} ZeroIsOne(
    lines: seq<string>, offset: int, before: seq<Hunk>, patch: seq<PatchLine>, later: seq<Hunk>)
    ensures RunHunks(lines, offset, before + [Hunk(0, patch)] + later)
      == RunHunks(lines, offset, before + [Hunk(1, patch)] + later)
    decreases |before|
  {
    var zero, one := before + [Hunk(0, patch)] + later, before + [Hunk(1, patch)] + later;
    assert zero[0] == (if before == [] then Hunk(0, patch) else before[0]);
    assert one[0] == (if before == [] then Hunk(1, patch) else before[0]);
    if before == [] {
      assert zero[1..] == later && one[1..] == later;
    } else {
      assert zero[1..] == before[1..] + [Hunk(0, patch)] + later;
      assert one[1..] == before[1..] + [Hunk(1, patch)] + later;
      var r := RunLines(lines, StartOf(before[0], offset), before[0].lines);
      if r.Applied? {
        ZeroIsOne(r.lines, offset + Delta(before[0]), before[1..], patch, later);
      }
    }
  }

  /** A hunk that starts at line `k + 1` of the original, of those `offset` less after the hunks before it,
      is tried there and nowhere else. */
  lemma HunkAppliesAt(lines: seq<string>, offset: int, k: nat, patch: seq<PatchLine>, later: seq<Hunk>)
    requires k < ISIZE && 0 <= k + offset <= |lines| < ISIZE
    ensures RunHunks(lines, offset, [Hunk(k + 1, patch)] + later) ==
      var r := Replaced(lines[..k + offset], lines[k + offset..], patch);
      if r.Applied? then RunHunks(r.lines, offset + |NewSide(patch)| - |OldSide(patch)|, later) else r
  {
    hide RunLines, Replaced, OldSide, NewSide;
    var hunk, front, back := Hunk(k + 1, patch), lines[..k + offset], lines[k + offset..];
    assert ([hunk] + later)[0] == hunk && ([hunk] + later)[1..] == later;
    InRange(k);
    InRange(k + offset);
    assert StartOf(hunk, offset) == |front| && front + back == lines;
    HunkReplaces(front, back, patch);
  }

  /** The diff of a new file gives its lines. */
  lemma {:induction false} NewFile(patch: seq<PatchLine>)
    requires forall i :: 0 <= i < |patch| ==> patch[i].op.Add?
    ensures RunHunks([], 0, [Hunk(0, patch)]) == Applied(NewSide(patch))
  {
    ZeroIsOne([], 0, [], patch, []);
    assert [] + [Hunk(0, patch)] + [] == [Hunk(0, patch)] && [] + [Hunk(1, patch)] + [] == [Hunk(1, patch)];
    assert [Hunk(1, patch)] + [] == [Hunk(1, patch)];
    HunkAppliesAt([], 0, 0, patch, []);
    OnlyAdds(patch);
  }

  lemma {:induction false} OnlyAdds(patch: seq<PatchLine>)
    requires forall i :: 0 <= i < |patch| ==> patch[i].op.Add?
    ensures OldSide(patch) == [] && |NewSide(patch)| == |patch|
    ensures forall i :: 0 <= i < |patch| ==> NewSide(patch)[i] == patch[i].text
  {
    if patch != [] {
      OnlyAdds(patch[1..]);
    }
  }

  // ---------- Undoing a patch ----------

  function Swapped(line: PatchLine): PatchLine {
    match line.op
    case Context => line
    case Remove => PatchLine(Add, line.text)
    case Add => PatchLine(Remove, line.text)
  }

  function SwapLines(lines: seq<PatchLine>): seq<PatchLine> {
    if lines == [] then [] else [Swapped(lines[0])] + SwapLines(lines[1..])
  }

  /** The patch that undoes `hunks`: additions and removals change places, and each start moves by the
      net change of the hunks before it. */
  function Reverse(hunks: seq<Hunk>, offset: int): seq<Hunk> {
    if hunks == [] then []
    else
      [Hunk(Clamp(Position(hunks[0]) + offset) + 1, SwapLines(hunks[0].lines))]
      + Reverse(hunks[1..], offset + Delta(hunks[0]))
  }

  lemma {:induction false} SwapSides(lines: seq<PatchLine>)
    ensures OldSide(SwapLines(lines)) == NewSide(lines)
    ensures NewSide(SwapLines(lines)) == OldSide(lines)
  {
    if lines != [] {
      SwapSides(lines[1..]);
    }
  }

  /** Undoing hunk by hunk: the first `cursor` lines are the original's again. */
  lemma {:induction false} RunReverse(
    original: seq<string>, cursor: nat, hunks: seq<Hunk>, offset: int, lines: seq<string>, shift: int)
    requires cursor <= |original| && cursor + offset >= 0
    requires WellPlaced(hunks, cursor, |original|) && Fits(original, hunks)
    requires lines == original[..cursor] + Splice(original, cursor, hunks) && shift == -offset
    requires |original| + Size(hunks) < ISIZE && |original| + offset + Size(hunks) < ISIZE
    ensures RunHunks(lines, shift, Reverse(hunks, offset)) == Applied(original)
    decreases |hunks|, 1
  {
    if hunks == [] {
      assert original[..cursor] + original[cursor..] == original;
    } else {
      var undo := Hunk(Clamp(Position(hunks[0]) + offset) + 1, SwapLines(hunks[0].lines));
      var tail := Splice(original, OldEnd(hunks[0]), hunks[1..]);
      var next := original[..OldEnd(hunks[0])] + tail;
      InRange(Position(hunks[0]));
      InRange(Position(hunks[0]) + offset);
      assert StartOf(undo, shift) == Position(hunks[0]);
      assert RunLines(lines, StartOf(undo, shift), undo.lines) == Applied(next) by {
        UndoHunk(original, cursor, hunks[0], tail);
      }
      LaterUndo(original, hunks, offset, lines, shift, undo, next);
    }
  }

  lemma {:induction false} LaterUndo(
    original: seq<string>, hunks: seq<Hunk>, offset: int, lines: seq<string>, shift: int, undo: Hunk, next: seq<string>)
    requires hunks != [] && 0 <= Position(hunks[0]) <= OldEnd(hunks[0]) <= |original|
    requires Position(hunks[0]) + offset >= 0 && shift == -offset
    requires |original| + Size(hunks) < ISIZE && |original| + offset + Size(hunks) < ISIZE
    requires WellPlaced(hunks[1..], OldEnd(hunks[0]), |original|) && Fits(original, hunks[1..])
    requires undo == Hunk(Clamp(Position(hunks[0]) + offset) + 1, SwapLines(hunks[0].lines))
    requires next == original[..OldEnd(hunks[0])] + Splice(original, OldEnd(hunks[0]), hunks[1..])
    requires RunLines(lines, StartOf(undo, shift), undo.lines) == Applied(next)
    ensures RunHunks(lines, shift, Reverse(hunks, offset)) == Applied(original)
    decreases |hunks|, 0
  {
    var later := offset + Delta(hunks[0]);
    SidesBounded(hunks[0].lines);
    RunReverse(original, OldEnd(hunks[0]), hunks[1..], later, next, -later);
    SwapSides(hunks[0].lines);
    FirstUndo(original, hunks, offset, lines, shift, undo, next, -later);
  }

  lemma FirstUndo(
    original: seq<string>, hunks: seq<Hunk>, offset: int, lines: seq<string>, shift: int, undo: Hunk,
    next: seq<string>, later: int)
    requires hunks != [] && undo == Hunk(Clamp(Position(hunks[0]) + offset) + 1, SwapLines(hunks[0].lines))
    requires RunLines(lines, StartOf(undo, shift), undo.lines) == Applied(next)
    requires later == shift + Delta(undo)
    requires RunHunks(next, later, Reverse(hunks[1..], offset + Delta(hunks[0]))) == Applied(original)
    ensures RunHunks(lines, shift, Reverse(hunks, offset)) == Applied(original)
  {
    hide OldSide, NewSide, RunLines, SwapLines;
    assert Reverse(hunks, offset)[1..] == Reverse(hunks[1..], offset + Delta(hunks[0]));
  }

  lemma UndoHunk(original: seq<string>, cursor: nat, hunk: Hunk, tail: seq<string>)
    requires cursor <= Position(hunk) && FitsAt(original, hunk)
    ensures RunLines(
        original[..cursor] + (original[cursor..Position(hunk)] + (NewSide(hunk.lines) + tail)),
        Position(hunk), SwapLines(hunk.lines))
      == Applied(original[..OldEnd(hunk)] + tail)
  {
    var front, added, removed := original[..Position(hunk)], NewSide(hunk.lines), OldSide(hunk.lines);
    ConcatAssociative(original[..cursor], original[cursor..Position(hunk)], added + tail);
    assert original[..cursor] + original[cursor..Position(hunk)] == front;
    SwapSides(hunk.lines);
    HunkReplaces(front, added + tail, SwapLines(hunk.lines));
    assert (added + tail)[|added|..] == tail;
    assert original[Position(hunk)..][..|removed|] == removed;
    assert front + removed == original[..OldEnd(hunk)];
    ConcatAssociative(front, removed, tail);
  }

  /** Applying a well placed patch and then its reversal gives back the original lines. */
  lemma PatchThenReverse(original: seq<string>, hunks: seq<Hunk>)
    requires WellPlaced(hunks, 0, |original|) && InMemory(original, hunks)
    ensures var r := RunHunks(original, 0, hunks);
      r.Applied? ==> RunHunks(r.lines, 0, Reverse(hunks, 0)) == Applied(original)
  {
    PatchIsSplice(original, hunks);
    if Fits(original, hunks) {
      assert original[..0] + Splice(original, 0, hunks) == Splice(original, 0, hunks);
      RunReverse(original, 0, hunks, 0, Splice(original, 0, hunks), 0);
    }
  }
}
