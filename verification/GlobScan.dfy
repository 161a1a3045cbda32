/** The scan of a directory tree for a pattern of segments (crates/oc-config/src/glob.rs). */
module GlobScan {
  import opened Wrappers
  import opened Text
  import opened Glob

  /** A file-system tree without links; the entries of a directory are in no particular order. */
  datatype Node = File | Dir(entries: seq<Child>)

  datatype Child = Child(name: string, node: Node)

  type Path = seq<string>

  ghost predicate DistinctNames(entries: seq<Child>) {
    forall i, j :: 0 <= i < j < |entries| ==> entries[i].name != entries[j].name
  }

  ghost predicate ValidTree(node: Node) {
    node.Dir? ==>
      DistinctNames(node.entries) && forall i :: 0 <= i < |node.entries| ==> ValidTree(node.entries[i].node)
  }

  function FindChild(entries: seq<Child>, name: string): Option<Node> {
    if entries == [] then None
    else if entries[0].name == name then Some(entries[0].node)
    else FindChild(entries[1..], name)
  }

  /** The node a path leads to. */
  function Lookup(node: Node, path: Path): Option<Node>
    decreases |path|
  {
    if path == [] then Some(node)
    else if node.File? then None
    else match FindChild(node.entries, path[0])
      case None => None
      case Some(child) => Lookup(child, path[1..])
  }

  const GLOBSTAR := "**"

  /** A path against the segments of a pattern, each a list of alternatives. `**` takes directories,
      any number of them, and stays at its segment; `isDir` says whether the path leads to one. */
  ghost predicate PathMatches(path: Path, isDir: bool, segments: seq<seq<string>>)
    decreases |segments|, |path|
  {
    if segments == [] then path == []
    else exists alternative :: alternative in segments[0] && StepMatches(alternative, path, isDir, segments)
  }

  ghost predicate StepMatches(alternative: string, path: Path, isDir: bool, segments: seq<seq<string>>)
    requires segments != []
    decreases |segments|, |path|, 0
  {
    if alternative == GLOBSTAR then
      || PathMatches(path, isDir, segments[1..])
      || (path != [] && (|path| > 1 || isDir) && PathMatches(path[1..], isDir, segments))
    else
      path != [] && Wild(path[0], alternative) && PathMatches(path[1..], isDir, segments[1..])
  }

  /** The paths below a node that match. */
  ghost predicate Accepted(node: Node, path: Path, segments: seq<seq<string>>) {
    Lookup(node, path).Some? && PathMatches(path, Lookup(node, path).value.Dir?, segments)
  }

  // ---------- What a walk finds ----------

  ghost predicate IsBelow(dir: Path, node: Node, segments: seq<seq<string>>, p: Path) {
    dir <= p && Accepted(node, p[|dir|..], segments)
  }

  ghost predicate IsThrough(dir: Path, node: Node, alternative: string, segments: seq<seq<string>>, p: Path)
    requires segments != []
  {
    && dir <= p && Lookup(node, p[|dir|..]).Some?
    && StepMatches(alternative, p[|dir|..], Lookup(node, p[|dir|..]).value.Dir?, segments)
  }

  /** The paths of a tree under `dir` that match. */
  ghost function Below(dir: Path, node: Node, segments: seq<seq<string>>): iset<Path> {
    iset p | IsBelow(dir, node, segments, p)
  }

  /** Those that match through one alternative of the first segment. */
  ghost function Through(dir: Path, node: Node, alternative: string, segments: seq<seq<string>>): iset<Path>
    requires segments != []
  {
    iset p | IsThrough(dir, node, alternative, segments, p)
  }

  ghost predicate IsThroughAny(
    dir: Path, node: Node, alternatives: seq<string>, segments: seq<seq<string>>, p: Path)
    requires segments != []
  {
    exists alternative :: alternative in alternatives && IsThrough(dir, node, alternative, segments, p)
  }

  ghost predicate IsBelowChild(dir: Path, children: seq<Child>, segments: seq<seq<string>>, p: Path) {
    exists child :: child in children && IsBelow(dir + [child.name], child.node, segments, p)
  }

  ghost function ThroughAny(dir: Path, node: Node, alternatives: seq<string>, segments: seq<seq<string>>): iset<Path>
    requires segments != []
  {
    iset p | IsThroughAny(dir, node, alternatives, segments, p)
  }

  ghost function BelowChildren(dir: Path, children: seq<Child>, segments: seq<seq<string>>): iset<Path> {
    iset p | IsBelowChild(dir, children, segments, p)
  }

  function Subdirectories(entries: seq<Child>): seq<Child> {
    if entries == [] then []
    else
      var n := |entries| - 1;
      Subdirectories(entries[..n]) + if entries[n].node.Dir? then [entries[n]] else []
  }

  lemma SubdirectoriesSnoc(entries: seq<Child>, e: nat)
    requires e < |entries|
    ensures Subdirectories(entries[..e + 1]) ==
      if entries[e].node.Dir? then Subdirectories(entries[..e]) + [entries[e]] else Subdirectories(entries[..e])
  {
    assert entries[..e + 1][..e] == entries[..e];
  }

  lemma {:induction false} SubdirectoriesContain(entries: seq<Child>)
    ensures forall child :: child in Subdirectories(entries) <==> child in entries && child.node.Dir?
  {
    if entries != [] {
      var n := |entries| - 1;
      SubdirectoriesContain(entries[..n]);
      assert entries == entries[..n] + [entries[n]];
    }
  }

  lemma {:induction false} FindsChild(entries: seq<Child>, child: Child)
    requires DistinctNames(entries)
    ensures child in entries <==> FindChild(entries, child.name) == Some(child.node)
  {
    if entries != [] {
      FindsChild(entries[1..], child);
      assert entries == [entries[0]] + entries[1..];
      assert forall i :: 1 <= i < |entries| ==> entries[i] == entries[1..][i - 1];
      if child in entries[1..] {
        var i :| 1 <= i < |entries| && entries[i] == child;
        assert entries[0].name != entries[i].name;
      }
    }
  }

  /** A path that is not empty leads into the child it starts with. */
  lemma IntoChild(node: Node, path: Path)
    requires ValidTree(node) && path != []
    ensures Lookup(node, path).Some? <==>
      node.Dir? && exists child ::
        child in node.entries && child.name == path[0] && Lookup(child.node, path[1..]).Some?
    ensures node.Dir? ==> forall child :: child in node.entries && child.name == path[0] ==>
      Lookup(node, path) == Lookup(child.node, path[1..])
  {
    if node.Dir? {
      forall child | child in node.entries && child.name == path[0]
        ensures Lookup(node, path) == Lookup(child.node, path[1..])
      {
        FindsChild(node.entries, child);
      }
      if Lookup(node, path).Some? {
        var child := Child(path[0], FindChild(node.entries, path[0]).value);
        FindsChild(node.entries, child);
        assert child in node.entries && child.name == path[0];
      }
    }
  }

  lemma InChild(dir: Path, name: string, p: Path)
    ensures dir + [name] <= p <==> dir <= p && |p| > |dir| && p[|dir|..][0] == name
    ensures dir + [name] <= p ==> p[|dir + [name]|..] == p[|dir|..][1..]
  {
    if dir <= p && |p| > |dir| && p[|dir|] == name {
      assert p[..|dir| + 1] == dir + [name];
    }
    if dir + [name] <= p {
      assert p[..|dir| + 1] == dir + [name];
      assert p[..|dir|] == (dir + [name])[..|dir|] == dir;
      assert p[|dir|] == (dir + [name])[|dir|];
    }
  }

  /** A wildcard alternative goes through the children whose names it matches. */
  lemma ThroughSegment(dir: Path, node: Node, alternative: string, segments: seq<seq<string>>, matches: seq<Child>)
    requires segments != [] && ValidTree(node) && alternative != GLOBSTAR && node.Dir?
    requires forall child :: child in matches <==> child in node.entries && Wild(child.name, alternative)
    ensures Through(dir, node, alternative, segments) == BelowChildren(dir, matches, segments[1..])
  {
    forall p: Path
      ensures p in Through(dir, node, alternative, segments) <==> p in BelowChildren(dir, matches, segments[1..])
    {
      if p in Through(dir, node, alternative, segments) {
        IntoChild(node, p[|dir|..]);
        var child :| child in node.entries && child.name == p[|dir|..][0]
          && Lookup(child.node, p[|dir|..][1..]).Some?;
        InChild(dir, child.name, p);
        assert child in matches && p in Below(dir + [child.name], child.node, segments[1..]);
      }
      if p in BelowChildren(dir, matches, segments[1..]) {
        var child :| child in matches && p in Below(dir + [child.name], child.node, segments[1..]);
        InChild(dir, child.name, p);
        IntoChild(node, p[|dir|..]);
      }
    }
  }

  lemma IntoSubdirectory(dir: Path, node: Node, segments: seq<seq<string>>, child: Child, p: Path)
    requires segments != [] && ValidTree(node) && node.Dir? && child in node.entries && child.node.Dir?
    requires IsBelow(dir + [child.name], child.node, segments, p)
    ensures IsThrough(dir, node, GLOBSTAR, segments, p)
  {
    hide PathMatches;
    InChild(dir, child.name, p);
    IntoChild(node, p[|dir|..]);
    assert |p[|dir|..]| == 1 ==> p[|dir|..][1..] == [];
  }

  lemma OutOfSubdirectory(dir: Path, node: Node, segments: seq<seq<string>>, p: Path) returns (child: Child)
    requires segments != [] && ValidTree(node)
    requires IsThrough(dir, node, GLOBSTAR, segments, p) && !IsBelow(dir, node, segments[1..], p)
    ensures node.Dir? && child in node.entries && child.node.Dir?
    ensures IsBelow(dir + [child.name], child.node, segments, p)
  {
    hide PathMatches;
    var path := p[|dir|..];
    IntoChild(node, path);
    child :| child in node.entries && child.name == path[0] && Lookup(child.node, path[1..]).Some?;
    InChild(dir, child.name, p);
    assert |path| == 1 ==> path[1..] == [];
    assert |path| > 1 ==> path[1..] != [];
  }

  /** `**` goes on to the next segment, or into a directory with the same segments. */
  lemma ThroughGlobstar(dir: Path, node: Node, segments: seq<seq<string>>)
    requires segments != [] && ValidTree(node)
    ensures Through(dir, node, GLOBSTAR, segments) == Below(dir, node, segments[1..]) +
      if node.Dir? then BelowChildren(dir, Subdirectories(node.entries), segments) else iset{}
  {
    hide IsBelow;
    var subdirectories := if node.Dir? then Subdirectories(node.entries) else [];
    if node.Dir? {
      SubdirectoriesContain(node.entries);
    }
    forall p
      ensures IsThrough(dir, node, GLOBSTAR, segments, p) <==>
        IsBelow(dir, node, segments[1..], p) || (node.Dir? && IsBelowChild(dir, subdirectories, segments, p))
    {
      if IsThrough(dir, node, GLOBSTAR, segments, p) && !IsBelow(dir, node, segments[1..], p) {
        var child := OutOfSubdirectory(dir, node, segments, p);
        assert child in subdirectories;
      }
      if node.Dir? && IsBelowChild(dir, subdirectories, segments, p) {
        var child :| child in subdirectories && IsBelow(dir + [child.name], child.node, segments, p);
        IntoSubdirectory(dir, node, segments, child, p);
      }
      if IsBelow(dir, node, segments[1..], p) {
        OntoNext(dir, node, segments, p);
      }
    }
  }

  lemma OntoNext(dir: Path, node: Node, segments: seq<seq<string>>, p: Path)
    requires segments != [] && IsBelow(dir, node, segments[1..], p)
    ensures IsThrough(dir, node, GLOBSTAR, segments, p)
  {
  }

  lemma ThroughAll(dir: Path, node: Node, segments: seq<seq<string>>)
    requires segments != []
    ensures ThroughAny(dir, node, segments[0], segments) == Below(dir, node, segments)
  {
  }

  lemma ThroughSnoc(dir: Path, node: Node, alternatives: seq<string>, a: nat, segments: seq<seq<string>>)
    requires segments != [] && a < |alternatives|
    ensures ThroughAny(dir, node, alternatives[..a + 1], segments)
         == ThroughAny(dir, node, alternatives[..a], segments) + Through(dir, node, alternatives[a], segments)
  {
    assert alternatives[..a + 1] == alternatives[..a] + [alternatives[a]];
  }

  lemma ChildrenSnoc(dir: Path, children: seq<Child>, child: Child, segments: seq<seq<string>>)
    ensures BelowChildren(dir, children + [child], segments)
         == BelowChildren(dir, children, segments) + Below(dir + [child.name], child.node, segments)
  {
  }

  // ---------- Sorting ----------

  function InsertChild(child: Child, children: seq<Child>): seq<Child> {
    if children == [] || StringLess(child.name, children[0].name) then [child] + children
    else [children[0]] + InsertChild(child, children[1..])
  }

  /** `matches.sort()` */
  function SortByName(children: seq<Child>): seq<Child> {
    if children == [] then [] else InsertChild(children[0], SortByName(children[1..]))
  }

  lemma {:induction false} InsertChildKeeps(child: Child, children: seq<Child>)
    ensures forall c :: c in InsertChild(child, children) <==> c == child || c in children
  {
    if children != [] && !StringLess(child.name, children[0].name) {
      InsertChildKeeps(child, children[1..]);
      assert children == [children[0]] + children[1..];
    }
  }

  lemma {:induction false} SortByNameKeeps(children: seq<Child>)
    ensures forall c :: c in SortByName(children) <==> c in children
  {
    if children != [] {
      SortByNameKeeps(children[1..]);
      InsertChildKeeps(children[0], SortByName(children[1..]));
      assert children == [children[0]] + children[1..];
    }
  }

  ghost predicate InNameOrder(children: seq<Child>) {
    forall i, j :: 0 <= i < j < |children| ==> !StringLess(children[j].name, children[i].name)
  }

  lemma {:induction false} SortByNameOrders(children: seq<Child>)
    ensures InNameOrder(SortByName(children))
  {
    if children != [] {
      SortByNameOrders(children[1..]);
      InsertChildOrders(children[0], SortByName(children[1..]));
    }
  }

  lemma {:induction false} InsertChildOrders(child: Child, children: seq<Child>)
    requires InNameOrder(children)
    ensures InNameOrder(InsertChild(child, children))
  {
    if children != [] {
      StringLessTotal(child.name, children[0].name);
      if StringLess(child.name, children[0].name) {
        forall j | 0 <= j < |children|
          ensures !StringLess(children[j].name, child.name)
        {
          NotBefore(child.name, children[0].name, children[j].name);
        }
      } else {
        InsertChildOrders(child, children[1..]);
        var later := InsertChild(child, children[1..]);
        forall j | 0 <= j < |later|
          ensures !StringLess(later[j].name, children[0].name)
        {
          InsertChildKeeps(child, children[1..]);
          assert later[j] in later;
          assert later[j] == child || later[j] in children[1..];
        }
      }
    }
  }

  lemma NotBefore(a: string, b: string, c: string)
    requires StringLess(a, b) && (!StringLess(c, b) || c == b)
    ensures !StringLess(c, a)
  {
    if StringLess(c, a) {
      StringLessTransitive(c, a, b);
      StringLessTotal(b, b);
      assert false;
    }
  }

  // ---------- The walk ----------

  /** The vector all the calls of a walk push into. */
  class Results {
    var paths: seq<Path>

    constructor ()
      ensures paths == []
    {
      paths := [];
    }
  }

  /** Exactly the paths in `wanted` were added after `before`. */
  ghost predicate Added(before: seq<Path>, after: seq<Path>, wanted: iset<Path>) {
    |before| <= |after| && after[..|before|] == before && forall p :: p in after[|before|..] <==> p in wanted
  }

  lemma AddedBoth(a: seq<Path>, b: seq<Path>, c: seq<Path>, first: iset<Path>, second: iset<Path>)
    requires Added(a, b, first) && Added(b, c, second)
    ensures Added(a, c, first + second)
  {
    assert c[..|a|] == c[..|b|][..|a|];
    assert c[|a|..] == b[|a|..] + c[|b|..];
  }

  lemma AddedNothing(a: seq<Path>)
    ensures Added(a, a, iset{})
  {
  }

  lemma NoChildren(dir: Path, segments: seq<seq<string>>)
    ensures BelowChildren(dir, [], segments) == iset{}
  {
  }

  method Walk(dir: Path, node: Node, segments: seq<seq<string>>, index: nat, out: Results)
    requires index <= |segments| && ValidTree(node)
    modifies out
    ensures Added(old(out.paths), out.paths, Below(dir, node, segments[index..]))
    decreases |segments| - index, node, 1
  {
    if index == |segments| {
      out.paths := out.paths + [dir];
      assert forall p: Path :: dir <= p && p[|dir|..] == [] ==> p == dir;
      return;
    }
    ghost var rest := segments[index..];
    var alternatives := segments[index];
    for a := 0 to |alternatives|
      invariant Added(old(out.paths), out.paths, ThroughAny(dir, node, alternatives[..a], rest))
    {
      ghost var before := out.paths;
      if alternatives[a] == GLOBSTAR {
        WalkGlobstar(dir, node, segments, index, out);
      } else {
        WalkSegment(dir, node, alternatives[a], segments, index, out);
      }
      AddedBoth(old(out.paths), before, out.paths,
                ThroughAny(dir, node, alternatives[..a], rest), Through(dir, node, alternatives[a], rest));
      ThroughSnoc(dir, node, alternatives, a, rest);
    }
    assert alternatives[..|alternatives|] == rest[0];
    ThroughAll(dir, node, rest);
  }

  method WalkGlobstar(dir: Path, node: Node, segments: seq<seq<string>>, index: nat, out: Results)
    requires index < |segments| && ValidTree(node)
    modifies out
    ensures Added(old(out.paths), out.paths, Through(dir, node, GLOBSTAR, segments[index..]))
    decreases |segments| - index, node, 0
  {
    hide Added, Below, BelowChildren, Through;
    ghost var rest := segments[index..];
    assert rest[1..] == segments[index + 1..];
    ThroughGlobstar(dir, node, rest);
    Walk(dir, node, segments, index + 1, out);
    if node.File? {
      assert Below(dir, node, rest[1..]) + iset{} == Below(dir, node, rest[1..]);
      return;
    }
    ghost var here := out.paths;
    var entries := node.entries;
    AddedNothing(here);
    NoChildren(dir, rest);
    for e := 0 to |entries|
      invariant Added(here, out.paths, BelowChildren(dir, Subdirectories(entries[..e]), rest))
    {
      ghost var before := out.paths;
      SubdirectoriesSnoc(entries, e);
      if entries[e].node.Dir? {
        Walk(dir + [entries[e].name], entries[e].node, segments, index, out);
        ChildrenSnoc(dir, Subdirectories(entries[..e]), entries[e], rest);
        AddedBoth(here, before, out.paths, BelowChildren(dir, Subdirectories(entries[..e]), rest),
                  Below(dir + [entries[e].name], entries[e].node, rest));
      }
    }
    assert entries[..|entries|] == entries;
    AddedBoth(old(out.paths), here, out.paths, Below(dir, node, rest[1..]),
              BelowChildren(dir, Subdirectories(entries), rest));
  }

  method WalkSegment(
    dir: Path, node: Node, alternative: string, segments: seq<seq<string>>, index: nat, out: Results)
    requires index < |segments| && ValidTree(node) && alternative != GLOBSTAR
    modifies out
    ensures Added(old(out.paths), out.paths, Through(dir, node, alternative, segments[index..]))
    decreases |segments| - index, node, 0
  {
    ghost var rest := segments[index..];
    assert rest[1..] == segments[index + 1..];
    if node.File? {
      return;
    }
    var matches: seq<Child> := [];
    for e := 0 to |node.entries|
      invariant out.paths == old(out.paths)
      invariant forall child :: child in matches <==> child in node.entries[..e] && Wild(child.name, alternative)
    {
      var hit := SegmentMatches(node.entries[e].name, alternative);
      assert node.entries[..e + 1] == node.entries[..e] + [node.entries[e]];
      if hit {
        matches := matches + [node.entries[e]];
      }
    }
    assert node.entries[..|node.entries|] == node.entries;
    SortByNameKeeps(matches);
    matches := SortByName(matches);
    ThroughSegment(dir, node, alternative, rest, matches);
    for e := 0 to |matches|
      invariant Added(old(out.paths), out.paths, BelowChildren(dir, matches[..e], rest[1..]))
    {
      ghost var before := out.paths;
      assert matches[e] in matches && matches[e] in node.entries;
      Walk(dir + [matches[e].name], matches[e].node, segments, index + 1, out);
      ChildrenSnoc(dir, matches[..e], matches[e], rest[1..]);
      assert matches[..e + 1] == matches[..e] + [matches[e]];
      AddedBoth(old(out.paths), before, out.paths, BelowChildren(dir, matches[..e], rest[1..]),
                Below(dir + [matches[e].name], matches[e].node, rest[1..]));
    }
    assert matches[..|matches|] == matches;
  }

  // ---------- The scan ----------

  /** `PathBuf` order: component by component. */
  predicate PathLess(a: Path, b: Path) {
    b != [] && (a == [] || StringLess(a[0], b[0]) || (a[0] == b[0] && PathLess(a[1..], b[1..])))
  }

  ghost predicate Sorted(paths: seq<Path>) {
    forall i, j :: 0 <= i < j < |paths| ==> !PathLess(paths[j], paths[i])
  }

  lemma {:induction false} PathLessTransitive(a: Path, b: Path, c: Path)
    requires PathLess(a, b) && PathLess(b, c)
    ensures PathLess(a, c)
  {
    if a != [] {
      StringLessTotal(a[0], b[0]);
      StringLessTotal(b[0], c[0]);
      if a[0] == b[0] == c[0] {
        PathLessTransitive(a[1..], b[1..], c[1..]);
      } else if StringLess(a[0], b[0]) && StringLess(b[0], c[0]) {
        StringLessTransitive(a[0], b[0], c[0]);
      }
    }
  }

  lemma {:induction false} PathLessTotal(a: Path, b: Path)
    ensures PathLess(a, b) || a == b || PathLess(b, a)
    ensures !(PathLess(a, b) && PathLess(b, a))
    decreases |a|
  {
    if a != [] && b != [] {
      StringLessTotal(a[0], b[0]);
      PathLessTotal(a[1..], b[1..]);
      assert a == [a[0]] + a[1..] && b == [b[0]] + b[1..];
    }
  }

  function InsertPath(path: Path, paths: seq<Path>): seq<Path> {
    if paths == [] || PathLess(path, paths[0]) then [path] + paths else [paths[0]] + InsertPath(path, paths[1..])
  }

  /** `out.sort()` */
  function SortPaths(paths: seq<Path>): seq<Path> {
    if paths == [] then [] else InsertPath(paths[0], SortPaths(paths[1..]))
  }

  lemma {:induction false} InsertPathSorts(path: Path, paths: seq<Path>)
    requires Sorted(paths)
    ensures Sorted(InsertPath(path, paths))
    ensures multiset(InsertPath(path, paths)) == multiset{path} + multiset(paths)
  {
    if paths == [] {
    } else if PathLess(path, paths[0]) {
      forall j | 0 <= j < |paths|
        ensures !PathLess(paths[j], path)
      {
        PathLessTotal(path, paths[0]);
        if PathLess(paths[j], path) {
          PathLessTransitive(paths[j], path, paths[0]);
        }
        PathLessTotal(paths[j], paths[0]);
      }
    } else {
      assert paths == [paths[0]] + paths[1..];
      InsertPathSorts(path, paths[1..]);
      var r := InsertPath(path, paths[1..]);
      forall j | 0 <= j < |r|
        ensures !PathLess(r[j], paths[0])
      {
        assert r[j] in multiset(r);
        assert r[j] in multiset{path} + multiset(paths[1..]);
        assert r[j] == path || r[j] in paths[1..];
      }
    }
  }

  lemma {:induction false} SortPathsSorts(paths: seq<Path>)
    ensures Sorted(SortPaths(paths)) && multiset(SortPaths(paths)) == multiset(paths)
  {
    if paths != [] {
      SortPathsSorts(paths[1..]);
      InsertPathSorts(paths[0], SortPaths(paths[1..]));
      assert paths == [paths[0]] + paths[1..];
    }
  }

  /** The pattern's segments: the pieces between slashes, their brace groups expanded. */
  function Segments(parts: seq<string>): seq<seq<string>> {
    if parts == [] then [] else [Expand(parts[0])] + Segments(parts[1..])
  }

  /** What a pattern means, by its pieces alone: any number of directories for a piece with `**` among
      its alternatives, then one name or, for `**`, none. */
  ghost predicate PatternAccepts(parts: seq<string>, path: Path, isDir: bool)
    decreases |parts|
  {
    if parts == [] then path == []
    else
      exists k ::
        && TakesDirectories(parts[0], |path|, isDir, k)
        && (|| (Braces(parts[0], "**") && PatternAccepts(parts[1..], path[k..], isDir))
            || (k < |path| && SomeNameMatches(parts[0], path[k]) && PatternAccepts(parts[1..], path[k + 1..], isDir)))
  }

  /** The first `k` names of a path may be directories taken by `**`. */
  ghost predicate TakesDirectories(part: string, length: nat, isDir: bool, k: int) {
    0 <= k <= length && (k > 0 ==> Braces(part, "**") && (k < length || isDir))
  }

  ghost predicate SomeNameMatches(part: string, name: string) {
    exists alternative :: Braces(part, alternative) && alternative != "**" && Wild(name, alternative)
  }

  /** Walking segment by segment accepts what the pattern means. */
  lemma {:induction false} SegmentsMeanPattern(parts: seq<string>, path: Path, isDir: bool)
    ensures PathMatches(path, isDir, Segments(parts)) <==> PatternAccepts(parts, path, isDir)
    decreases |parts|, |path|
  {
    if parts != [] {
      PieceShifts(parts, path, isDir);
      SegmentsMeanPattern(parts[1..], path, isDir);
      if path != [] {
        SegmentsMeanPattern(parts[1..], path[1..], isDir);
        SegmentsMeanPattern(parts, path[1..], isDir);
      }
      MatchesSteps(parts, path, isDir);
    }
  }

  /** One step of the walk, through the pieces the segments were expanded from. */
  lemma MatchesSteps(parts: seq<string>, path: Path, isDir: bool)
    requires parts != []
    ensures PathMatches(path, isDir, Segments(parts)) <==>
      || (Braces(parts[0], GLOBSTAR) && PathMatches(path, isDir, Segments(parts[1..])))
      || (path != [] && SomeNameMatches(parts[0], path[0]) && PathMatches(path[1..], isDir, Segments(parts[1..])))
      || (path != [] && Braces(parts[0], GLOBSTAR) && (|path| > 1 || isDir)
          && PathMatches(path[1..], isDir, Segments(parts)))
  {
    var segments := Segments(parts);
    assert segments[1..] == Segments(parts[1..]);
    forall alternative
      ensures alternative in segments[0] <==> Braces(parts[0], alternative)
    {
      ExpandIsBraces(parts[0], alternative);
    }
    if PathMatches(path, isDir, segments) {
      var alternative :| alternative in segments[0] && StepMatches(alternative, path, isDir, segments);
    }
    if Braces(parts[0], GLOBSTAR) {
      assert GLOBSTAR in segments[0];
    }
    if path != [] && SomeNameMatches(parts[0], path[0]) && PathMatches(path[1..], isDir, segments[1..]) {
      var alternative :| Braces(parts[0], alternative) && alternative != GLOBSTAR && Wild(path[0], alternative);
      assert alternative in segments[0] && StepMatches(alternative, path, isDir, segments);
    }
  }

  /** The two ways a piece goes on after its directories. */
  ghost predicate GoesOn(parts: seq<string>, path: Path, isDir: bool)
    requires parts != []
  {
    || (Braces(parts[0], GLOBSTAR) && PatternAccepts(parts[1..], path, isDir))
    || (path != [] && SomeNameMatches(parts[0], path[0]) && PatternAccepts(parts[1..], path[1..], isDir))
  }

  lemma PieceShifts(parts: seq<string>, path: Path, isDir: bool)
    requires parts != []
    ensures PatternAccepts(parts, path, isDir) <==>
      || GoesOn(parts, path, isDir)
      || (path != [] && Braces(parts[0], GLOBSTAR) && (|path| > 1 || isDir) && PatternAccepts(parts, path[1..], isDir))
  {
    AcceptsAfter(parts, path, isDir);
    if path != [] {
      AcceptsAfter(parts, path[1..], isDir);
    }
    if PatternAccepts(parts, path, isDir) {
      var k :| TakesDirectories(parts[0], |path|, isDir, k) && GoesOn(parts, path[k..], isDir);
      if k == 0 {
        assert path[0..] == path;
      } else {
        assert path[1..][k - 1..] == path[k..];
        assert TakesDirectories(parts[0], |path[1..]|, isDir, k - 1);
      }
    }
    if GoesOn(parts, path, isDir) {
      assert path[0..] == path && TakesDirectories(parts[0], |path|, isDir, 0);
    }
    if path != [] && Braces(parts[0], GLOBSTAR) && (|path| > 1 || isDir) && PatternAccepts(parts, path[1..], isDir) {
      var k :| TakesDirectories(parts[0], |path[1..]|, isDir, k) && GoesOn(parts, path[1..][k..], isDir);
      assert path[1..][k..] == path[k + 1..];
      assert TakesDirectories(parts[0], |path|, isDir, k + 1);
    }
  }

  lemma AcceptsAfter(parts: seq<string>, path: Path, isDir: bool)
    requires parts != []
    ensures PatternAccepts(parts, path, isDir) <==>
      exists k :: TakesDirectories(parts[0], |path|, isDir, k) && GoesOn(parts, path[k..], isDir)
  {
    forall k | 0 <= k < |path|
      ensures path[k..][0] == path[k] && path[k..][1..] == path[k + 1..]
    {
    }
    if PatternAccepts(parts, path, isDir) {
      var k :| TakesDirectories(parts[0], |path|, isDir, k)
        && (|| (Braces(parts[0], GLOBSTAR) && PatternAccepts(parts[1..], path[k..], isDir))
            || (k < |path| && SomeNameMatches(parts[0], path[k]) && PatternAccepts(parts[1..], path[k + 1..], isDir)));
      assert GoesOn(parts, path[k..], isDir);
    }
  }

  /** The first `k` names match the pieces, and the names after them, if any, are directories. */
  ghost predicate MatchesUpTo(parts: seq<string>, path: Path, isDir: bool, k: int) {
    0 <= k <= |path| && PatternAccepts(parts, path[..k], k < |path| || isDir) && (k < |path| ==> isDir)
  }

  /** A final `**` adds to what the pieces before it accept any number of names, and these only when the
      path leads to a directory. */
  lemma {:induction false} FinalGlobstar(parts: seq<string>, path: Path, isDir: bool)
    ensures PatternAccepts(parts + [GLOBSTAR], path, isDir) <==> exists k :: MatchesUpTo(parts, path, isDir, k)
    decreases |parts|, 1
  {
    GlobstarAlone();
    if parts == [] {
      assert ([] + [GLOBSTAR])[1..] == [] && [] + [GLOBSTAR] == [GLOBSTAR];
      assert path[..0] == [] && path[|path|..] == [];
      if PatternAccepts([GLOBSTAR], path, isDir) {
        var k :| TakesDirectories(GLOBSTAR, |path|, isDir, k) && PatternAccepts([], path[k..], isDir);
        assert MatchesUpTo([], path, isDir, 0);
      }
      if path == [] || isDir {
        assert TakesDirectories(GLOBSTAR, |path|, isDir, |path|);
      }
    } else {
      var all, rest := parts + [GLOBSTAR], parts[1..];
      assert all[0] == parts[0] && all[1..] == rest + [GLOBSTAR];
      forall k | 0 <= k <= |path|
        ensures PatternAccepts(rest + [GLOBSTAR], path[k..], isDir) <==>
          exists m :: MatchesUpTo(rest, path[k..], isDir, m)
      {
        FinalGlobstar(rest, path[k..], isDir);
      }
      if PatternAccepts(all, path, isDir) {
        AcceptsAfter(all, path, isDir);
        var k :| TakesDirectories(parts[0], |path|, isDir, k) && GoesOn(all, path[k..], isDir);
        GoesOnUpTo(parts, path, isDir, k);
      }
      if m :| MatchesUpTo(parts, path, isDir, m) {
        AcceptsAfter(parts, path[..m], m < |path| || isDir);
        var k :| TakesDirectories(parts[0], m, m < |path| || isDir, k)
          && GoesOn(parts, path[..m][k..], m < |path| || isDir);
        UpToGoesOn(parts, path, isDir, m, k);
        AcceptsAfter(all, path, isDir);
      }
    }
  }

  lemma GlobstarAlone()
    ensures forall text :: Braces(GLOBSTAR, text) <==> text == GLOBSTAR
    ensures forall name :: !SomeNameMatches(GLOBSTAR, name)
  {
    forall i | 0 <= i
      ensures !OccursAt("{", GLOBSTAR, i)
    {
      assert i + 1 <= |GLOBSTAR| ==> GLOBSTAR[i..i + 1][0] == '*';
    }
    FindIsFirst(GLOBSTAR, "{", None);
  }

  lemma {:induction false} GoesOnUpTo(parts: seq<string>, path: Path, isDir: bool, k: nat)
    requires parts != [] && TakesDirectories(parts[0], |path|, isDir, k)
    requires GoesOn(parts + [GLOBSTAR], path[k..], isDir)
    ensures exists m :: MatchesUpTo(parts, path, isDir, m)
    decreases |parts|, 0
  {
    var all, rest, tail := parts + [GLOBSTAR], parts[1..], path[k..];
    assert all[0] == parts[0] && all[1..] == rest + [GLOBSTAR];
    var skip := if Braces(parts[0], GLOBSTAR) && PatternAccepts(all[1..], tail, isDir) then 0 else 1;
    FinalGlobstar(rest, tail[skip..], isDir);
    assert tail[0..] == tail;
    var n :| MatchesUpTo(rest, tail[skip..], isDir, n);
    var m := k + skip + n;
    assert path[..m][k..][skip..] == tail[skip..][..n];
    assert path[..m][k..][0..] == path[..m][k..];
    assert GoesOn(parts, path[..m][k..], m < |path| || isDir);
    AcceptsAfter(parts, path[..m], m < |path| || isDir);
    assert MatchesUpTo(parts, path, isDir, m);
  }

  lemma {:induction false} UpToGoesOn(parts: seq<string>, path: Path, isDir: bool, m: nat, k: nat)
    requires parts != [] && MatchesUpTo(parts, path, isDir, m)
    requires TakesDirectories(parts[0], m, m < |path| || isDir, k) && GoesOn(parts, path[..m][k..], m < |path| || isDir)
    ensures TakesDirectories(parts[0], |path|, isDir, k) && GoesOn(parts + [GLOBSTAR], path[k..], isDir)
    decreases |parts|, 0
  {
    var all, rest, tail, head := parts + [GLOBSTAR], parts[1..], path[k..], path[..m][k..];
    assert all[0] == parts[0] && all[1..] == rest + [GLOBSTAR];
    var skip := if Braces(parts[0], GLOBSTAR) && PatternAccepts(rest, head, m < |path| || isDir) then 0 else 1;
    assert head[0..] == head && tail[0..] == tail;
    assert head[skip..] == tail[skip..][..m - k - skip];
    assert MatchesUpTo(rest, tail[skip..], isDir, m - k - skip);
    FinalGlobstar(rest, tail[skip..], isDir);
  }

  /** `scan`: the paths under `cwd` the pattern accepts, in order. */
  method Scan(pattern: string, cwd: Path, root: Node) returns (paths: seq<Path>)
    requires ValidTree(root)
    ensures Sorted(paths)
    ensures forall p :: p in paths <==>
      && cwd <= p && Lookup(root, p[|cwd|..]).Some?
      && PatternAccepts(Split(pattern, '/'), p[|cwd|..], Lookup(root, p[|cwd|..]).value.Dir?)
  {
    var parts := Split(pattern, '/');
    var segments := Segments(parts);
    var out := new Results();
    Walk(cwd, root, segments, 0, out);
    paths := SortPaths(out.paths);
    SortPathsSorts(out.paths);
    assert segments[0..] == segments && out.paths[0..] == out.paths;
    forall p: Path
      ensures p in paths <==> IsBelow(cwd, root, segments, p)
      ensures IsBelow(cwd, root, segments, p) <==>
        && cwd <= p && Lookup(root, p[|cwd|..]).Some?
        && PatternAccepts(parts, p[|cwd|..], Lookup(root, p[|cwd|..]).value.Dir?)
    {
      assert p in paths <==> p in multiset(paths);
      assert p in out.paths <==> p in multiset(out.paths);
      if cwd <= p && Lookup(root, p[|cwd|..]).Some? {
        SegmentsMeanPattern(parts, p[|cwd|..], Lookup(root, p[|cwd|..]).value.Dir?);
      }
    }
  }
}
