/** The ZooKeeper data tree and its atomic operations, on paths as lists of node names. */
module ZkTree {
  import opened Text

  type Path = seq<string>

  datatype Znode = Znode(value: string, version: nat)

  type Tree = map<Path, Znode>

  predicate ValidName(name: string) {
    name != "" && '/' !in name
  }

  predicate ValidPath(p: Path) {
    forall i :: 0 <= i < |p| ==> ValidName(p[i])
  }

  function Parent(p: Path): Path
    requires p != []
  {
    p[..|p| - 1]
  }

  /** No path occurs twice. */
  ghost predicate Distinct(paths: seq<Path>) {
    forall i, j :: 0 <= i < j < |paths| ==> paths[i] != paths[j]
  }

  /** The textual form of a path below the root: `/a/b`. */
  function Render(p: Path): string {
    Join([""] + p, '/')
  }

  function Components(s: string): Path {
    Split(s, '/')[1..]
  }

  lemma ComponentsRender(p: Path)
    requires ValidPath(p)
    ensures Split(Render(p), '/') == [""] + p
    ensures Components(Render(p)) == p
  {
    SplitJoin([""] + p, '/');
  }

  /** The tree has a root, every other node hangs off a node, and every name is legal. */
  ghost predicate WellFormed(t: Tree) {
    && [] in t
    && (forall p :: p in t ==> ValidPath(p))
    && (forall p :: p in t && p != [] ==> Parent(p) in t)
  }

  function Children(t: Tree, p: Path): (names: set<string>)
    ensures forall c :: c in names <==> p + [c] in t
  {
    var names := set q | q in t && |q| == |p| + 1 && p <= q :: q[|p|];
    assert forall q :: q in t && |q| == |p| + 1 && p <= q ==> q == p + [q[|p|]];
    assert forall c :: p + [c] in t ==> (p + [c])[|p|] == c;
    names
  }

  /** With a node, a well-formed tree holds every ancestor of it. */
  lemma {:induction false} AncestorPresent(t: Tree, a: Path, p: Path)
    requires WellFormed(t) && p in t && a <= p
    ensures a in t
    decreases |p|
  {
    if |a| == |p| {
      assert a == p;
    } else {
      assert a <= Parent(p);
      AncestorPresent(t, a, Parent(p));
    }
  }

  lemma ChildTowards(t: Tree, a: Path, p: Path)
    requires WellFormed(t) && p in t && a <= p && a != p
    ensures p[|a|] in Children(t, a)
    ensures a + [p[|a|]] <= p
  {
    assert a + [p[|a|]] == p[..|a| + 1];
    AncestorPresent(t, p[..|a| + 1], p);
  }

  // ---------------------------------------------------------------- operations

  datatype Error = NodeExists | NoNode | NotEmpty | BadVersion | BadArguments | RolledBack | Inconsistent

  datatype Op =
    | Create(path: Path, value: string)
    | Delete(path: Path)
    | Set(path: Path, value: string)
    | Check(path: Path, version: nat)

  datatype Applied = Ok(tree: Tree) | Failed(error: Error)

  function Apply(t: Tree, op: Op): Applied {
    match op
    case Create(p, v) =>
      if p == [] then Failed(NodeExists)
      else if !ValidPath(p) then Failed(BadArguments)
      else if Parent(p) !in t then Failed(NoNode)
      else if p in t then Failed(NodeExists)
      else Ok(t[p := Znode(v, 0)])
    case Delete(p) =>
      if p == [] then Failed(BadArguments)
      else if p !in t then Failed(NoNode)
      else if Children(t, p) != {} then Failed(NotEmpty)
      else Ok(t - {p})
    case Set(p, v) =>
      if p !in t then Failed(NoNode) else Ok(t[p := Znode(v, t[p].version + 1)])
    case Check(p, version) =>
      if p !in t then Failed(NoNode)
      else if t[p].version != version then Failed(BadVersion)
      else Ok(t)
  }

  lemma ApplyKeepsWellFormed(t: Tree, op: Op)
    requires WellFormed(t)
    ensures Apply(t, op).Ok? ==> WellFormed(Apply(t, op).tree)
  {
    if Apply(t, op).Ok? && op.Delete? {
      forall q | q in t && q != op.path && q != [] ensures Parent(q) != op.path {
        assert q == Parent(q) + [q[|q| - 1]];
        assert q[|q| - 1] in Children(t, Parent(q));
      }
    }
  }

  /** A transaction either commits all its operations or stops at the first one that fails. */
  datatype Outcome = Committed(tree: Tree) | Aborted(at: nat, error: Error)

  function Multi(t: Tree, ops: seq<Op>): (r: Outcome)
    ensures r.Aborted? ==> r.at < |ops|
    decreases |ops|
  {
    if ops == [] then Committed(t)
    else match Apply(t, ops[0])
      case Failed(e) => Aborted(0, e)
      case Ok(t1) =>
        match Multi(t1, ops[1..])
        case Committed(t2) => Committed(t2)
        case Aborted(at, e) => Aborted(at + 1, e)
  }

  function After(t: Tree, ops: seq<Op>): Tree {
    match Multi(t, ops) case Committed(t1) => t1 case Aborted(_, _) => t
  }

  lemma {:induction false} MultiKeepsWellFormed(t: Tree, ops: seq<Op>)
    requires WellFormed(t)
    ensures WellFormed(After(t, ops))
    decreases |ops|
  {
    if ops != [] && Apply(t, ops[0]).Ok? {
      ApplyKeepsWellFormed(t, ops[0]);
      MultiKeepsWellFormed(Apply(t, ops[0]).tree, ops[1..]);
    }
  }

  lemma {:induction false} MultiConcat(t: Tree, a: seq<Op>, b: seq<Op>)
    requires Multi(t, a).Committed?
    ensures match Multi(Multi(t, a).tree, b)
            case Committed(t2) => Multi(t, a + b) == Committed(t2)
            case Aborted(at, e) => Multi(t, a + b) == Aborted(|a| + at, e)
    decreases |a|
  {
    if a == [] {
      assert a + b == b;
    } else {
      assert (a + b)[1..] == a[1..] + b;
      MultiConcat(Apply(t, a[0]).tree, a[1..], b);
    }
  }

  // ---------------------------------------------------------------- versions

  function SetsOf(ops: seq<Op>, p: Path): nat {
    if ops == [] then 0 else (if ops[0].Set? && ops[0].path == p then 1 else 0) + SetsOf(ops[1..], p)
  }

  /** While a node is not deleted its version counts the times it was set. */
  lemma {:induction false} VersionCountsSets(t: Tree, ops: seq<Op>, p: Path)
    requires p in t && Multi(t, ops).Committed? && forall i :: 0 <= i < |ops| ==> ops[i] != Delete(p)
    ensures p in After(t, ops) && After(t, ops)[p].version == t[p].version + SetsOf(ops, p)
    decreases |ops|
  {
    if ops != [] {
      var t1 := Apply(t, ops[0]).tree;
      assert p in t1 && ops[0] != Delete(p);
      VersionCountsSets(t1, ops[1..], p);
    }
  }

  /** The check of a version that was read tells whether the node has been set since, as long as it was not deleted. */
  lemma {:induction false} CheckTellsSets(t: Tree, ops: seq<Op>, p: Path)
    requires p in t && Multi(t, ops).Committed? && forall i :: 0 <= i < |ops| ==> ops[i] != Delete(p)
    ensures Apply(After(t, ops), Check(p, t[p].version)) ==
            if SetsOf(ops, p) == 0 then Ok(After(t, ops)) else Failed(BadVersion)
  {
    VersionCountsSets(t, ops, p);
  }

  /** It does not tell a node from one of that name created anew: both have version 0. */
  lemma {:induction false} CheckMissesNewNode(t: Tree, p: Path, value: string)
    requires WellFormed(t) && p != [] && p in t && Children(t, p) == {} && t[p].version == 0
    ensures var after := After(t, [Delete(p), Create(p, value)]);
            after == t[p := Znode(value, 0)] && Apply(after, Check(p, t[p].version)) == Ok(after)
  {
    var ops := [Delete(p), Create(p, value)];
    var t1 := t - {p};
    assert Parent(p) in t1;
    assert ops[1..] == [Create(p, value)] && ops[1..][1..] == [];
    assert Multi(t1, ops[1..]) == Committed(t1[p := Znode(value, 0)]);
    assert t1[p := Znode(value, 0)] == t[p := Znode(value, 0)];
  }

  /** The names of the children of `p`, in some order, each once. */
  ghost predicate Lists(names: seq<string>, t: Tree, p: Path) {
    && (forall c :: c in names <==> c in Children(t, p))
    && (forall i, j :: 0 <= i < j < |names| ==> names[i] != names[j])
  }

  function ChildPaths(p: Path, names: seq<string>): (r: seq<Path>)
    ensures |r| == |names|
  {
    seq(|names|, i requires 0 <= i < |names| => p + [names[i]])
  }

  // ---------------------------------------------------------------- deletions

  function Deletes(paths: seq<Path>): seq<Op> {
    seq(|paths|, i requires 0 <= i < |paths| => Delete(paths[i]))
  }

  function Members(paths: seq<Path>): set<Path> {
    set p | p in paths
  }

  function Below(t: Tree, p: Path): set<Path> {
    set q | q in t && p <= q
  }

  /** A delete that succeeds leaves nothing at or below its node. */
  lemma DeleteLeavesNothingBelow(t: Tree, p: Path)
    requires WellFormed(t) && Apply(t, Delete(p)).Ok?
    ensures WellFormed(Apply(t, Delete(p)).tree)
    ensures forall q :: q in Apply(t, Delete(p)).tree ==> !(p <= q)
  {
    ApplyKeepsWellFormed(t, Delete(p));
    var t1 := Apply(t, Delete(p)).tree;
    forall q | q in t1 ensures !(p <= q) {
      if p <= q {
        AncestorPresent(t1, p, q);
      }
    }
  }

  lemma {:induction false} FirstDelete(t: Tree, paths: seq<Path>)
    requires paths != [] && Multi(t, Deletes(paths)).Committed?
    ensures paths[0] in t && Apply(t, Delete(paths[0])) == Ok(t - {paths[0]})
    ensures Multi(t - {paths[0]}, Deletes(paths[1..])) == Multi(t, Deletes(paths))
  {
    assert Deletes(paths)[0] == Delete(paths[0]) && Deletes(paths)[1..] == Deletes(paths[1..]);
  }

  /** What a committed transaction of deletes does: those nodes are gone with nothing left below. */
  lemma {:induction false} DeletesCommitted(t: Tree, paths: seq<Path>)
    requires WellFormed(t) && Multi(t, Deletes(paths)).Committed?
    ensures Multi(t, Deletes(paths)).tree == t - Members(paths)
    ensures forall p, q :: p in paths && q in Multi(t, Deletes(paths)).tree ==> !(p <= q)
    decreases |paths|
  {
    if paths == [] {
      assert t - Members(paths) == t;
    } else {
      var first, rest := paths[0], paths[1..];
      FirstDelete(t, paths);
      DeleteLeavesNothingBelow(t, first);
      DeletesCommitted(t - {first}, rest);
      MembersSplit(paths);
      assert t - {first} - Members(rest) == t - Members(paths);
    }
  }

  lemma MembersSplit(paths: seq<Path>)
    requires paths != []
    ensures Members(paths) == {paths[0]} + Members(paths[1..])
    ensures forall p :: p in paths <==> p == paths[0] || p in paths[1..]
  {
    assert paths == [paths[0]] + paths[1..];
  }

  /** No node before its children, none twice, all present. */
  ghost predicate ChildrenFirst(t: Tree, paths: seq<Path>) {
    && (forall i :: 0 <= i < |paths| ==> paths[i] in t && paths[i] != [])
    && (forall i, j :: 0 <= i < j < |paths| ==> paths[i] != paths[j])
    && (forall i, c :: 0 <= i < |paths| && c in Children(t, paths[i]) ==> paths[i] + [c] in paths[..i])
  }

  lemma ChildrenFirstRest(t: Tree, paths: seq<Path>)
    requires paths != [] && ChildrenFirst(t, paths)
    ensures ChildrenFirst(t - {paths[0]}, paths[1..])
  {
    var t1, rest := t - {paths[0]}, paths[1..];
    forall i, c | 0 <= i < |rest| && c in Children(t1, rest[i]) ensures rest[i] + [c] in rest[..i] {
      assert rest[i] + [c] in t && c in Children(t, paths[i + 1]);
      EarlierInRest(paths, i, rest[i] + [c]);
    }
  }

  lemma EarlierInRest(paths: seq<Path>, i: nat, q: Path)
    requires i + 1 < |paths| && q != paths[0]
    requires q in paths[..i + 1]
    ensures q in paths[1..][..i]
  {
    assert paths[..i + 1] == [paths[0]] + paths[1..][..i];
  }

  /** Deletes that meet every node after all its children commit. */
  lemma {:induction false} ChildrenFirstCommits(t: Tree, paths: seq<Path>)
    requires WellFormed(t) && ChildrenFirst(t, paths)
    ensures Multi(t, Deletes(paths)).Committed?
    decreases |paths|
  {
    if paths != [] {
      var first, rest := paths[0], paths[1..];
      FirstIsChildless(t, paths);
      ApplyKeepsWellFormed(t, Delete(first));
      ChildrenFirstRest(t, paths);
      ChildrenFirstCommits(t - {first}, rest);
      assert Deletes(paths)[0] == Delete(first) && Deletes(paths)[1..] == Deletes(rest);
    }
  }

  lemma FirstIsChildless(t: Tree, paths: seq<Path>)
    requires paths != [] && ChildrenFirst(t, paths)
    ensures Apply(t, Delete(paths[0])) == Ok(t - {paths[0]})
  {
    assert paths[..0] == [];
    assert Children(t, paths[0]) == {};
  }
}
