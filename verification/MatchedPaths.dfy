/**
 * `find_leafs_and_nodes` and its consumer: a lazy post-order search for subtrees all of whose leaves
 * match, whose results are deleted in batches while the search is still suspended half way.
 */
module MatchedPaths {
  import opened ZkTree
  import opened ZooKeeper
  import opened DeleteRecursive

  ghost predicate Leaf(t: Tree, p: Path) {
    p in t && Children(t, p) == {}
  }

  /** The promise of the search: `p` exists and every leaf at or below it satisfies the predicate. */
  ghost predicate Matched(t: Tree, p: Path, matches: Path -> bool) {
    p in t && forall q :: Leaf(t, q) && p <= q ==> matches(q)
  }

  lemma LeafMatched(t: Tree, p: Path, matches: Path -> bool)
    requires WellFormed(t) && Leaf(t, p)
    ensures Matched(t, p, matches) <==> matches(p)
  {
    forall q | q in t && p <= q ensures q == p {
      if q != p {
        ChildTowards(t, p, q);
      }
    }
  }

  lemma InnerMatched(t: Tree, p: Path, matches: Path -> bool)
    requires WellFormed(t) && p in t && Children(t, p) != {}
    ensures Matched(t, p, matches) <==> forall c :: c in Children(t, p) ==> Matched(t, p + [c], matches)
  {
    if Matched(t, p, matches) {
      forall c | c in Children(t, p) ensures Matched(t, p + [c], matches) {
        forall q | Leaf(t, q) && p + [c] <= q ensures matches(q) {
          assert p <= q;
        }
      }
    }
    if forall c :: c in Children(t, p) ==> Matched(t, p + [c], matches) {
      forall q | Leaf(t, q) && p <= q ensures matches(q) {
        assert q != p;
        ChildTowards(t, p, q);
        assert Matched(t, p + [q[|p|]], matches);
      }
    }
  }

  /** Number of paths directly below `p`. */
  function CountDirect(s: seq<Path>, p: Path): nat {
    if s == [] then 0
    else (if s[0] != [] && Parent(s[0]) == p then 1 else 0) + CountDirect(s[1..], p)
  }

  /** A duplicate-free stream from the generator of one child counts that child at most once. */
  lemma {:induction false} CountOneChild(s: seq<Path>, p: Path, c: string)
    requires Distinct(s) && forall q :: q in s ==> p + [c] <= q
    ensures CountDirect(s, p) == if p + [c] in s then 1 else 0
  {
    if s != [] {
      assert s == [s[0]] + s[1..];
      assert s[0] !in s[1..];
      forall i, j | 0 <= i < j < |s[1..]| ensures s[1..][i] != s[1..][j] {
        assert s[1..][i] == s[i + 1] && s[1..][j] == s[j + 1];
      }
      forall q | q in s[1..] ensures p + [c] <= q {
        assert q in s;
      }
      CountOneChild(s[1..], p, c);
      assert s[0] in s && p + [c] <= s[0];
      assert Parent(p + [c]) == p;
      if Parent(s[0]) == p {
        assert s[0] == p + [c];
      }
    }
  }

  /** What is left of the original tree: all but the results that have been flushed. */
  function Remaining(original: Tree, yielded: seq<Path>, waiting: seq<Path>, root: Path): Tree {
    map q | q in original && !(q in yielded && q != root && q !in waiting) :: original[q]
  }

  /** With a node, everything below it has been yielded. */
  ghost predicate DownClosed(original: Tree, yielded: seq<Path>) {
    forall y, q :: y in yielded && q in original && y <= q ==> q in yielded
  }

  /** The search at `path` has dealt with all children but `todo`. */
  ghost predicate Progress(original: Tree, before: seq<Path>, yielded: seq<Path>, path: Path, todo: set<string>,
                           matches: Path -> bool) {
    && before <= yielded
    && (forall q :: q in yielded[|before|..] ==> path <= q && q != path)
    && (forall q :: q in original && path <= q && q != path ==>
          (q in yielded <==> q[|path|] !in todo && Matched(original, q, matches)))
  }

  class LockCleaner {
    const zk: Session
    const root: Path
    const matches: Path -> bool
    const batchSize: nat
    const dryRun: bool
    ghost const original: Tree

    var pathsToDelete: seq<Path>
    var yielded: seq<Path>

    ghost predicate Valid()
      reads this, zk
    {
      && zk.Valid() && zk.foreign == []
      && WellFormed(original) && ValidPath(root)
      && batchSize >= 1 && |pathsToDelete| < batchSize
      && BottomUp(yielded) && DownClosed(original, yielded)
      && (forall y :: y in yielded ==> root <= y && (y in original || y == root))
      && (forall y :: y in pathsToDelete ==> y in yielded && y != root)
      && zk.tree == (if dryRun then original else Remaining(original, yielded, pathsToDelete, root))
    }

    constructor (zk: Session, root: Path, matches: Path -> bool, batchSize: nat, dryRun: bool)
      requires zk.Valid() && zk.foreign == [] && ValidPath(root) && batchSize >= 1
      ensures Valid() && yielded == [] && pathsToDelete == []
      ensures this.zk == zk && this.root == root && this.matches == matches && this.dryRun == dryRun
      ensures original == zk.tree
    {
      this.zk, this.root, this.matches, this.batchSize, this.dryRun := zk, root, matches, batchSize, dryRun;
      this.original := zk.tree;
      this.pathsToDelete, this.yielded := [], [];
    }

    method Flush()
      requires zk.Valid() && zk.foreign == [] && WellFormed(original)
      requires DownClosed(original, yielded)
      requires forall y :: y in yielded ==> root <= y && (y in original || y == root)
      requires forall y :: y in pathsToDelete ==> y in yielded && y != root
      requires zk.tree == (if dryRun then original else Remaining(original, yielded, pathsToDelete, root))
      modifies this`pathsToDelete, zk
      ensures zk.Valid() && zk.foreign == [] && pathsToDelete == []
      ensures zk.tree == (if dryRun then original else Remaining(original, yielded, [], root))
    {
      ghost var t := zk.tree;
      forall y | y in pathsToDelete ensures y != [] && ValidPath(y) {
        assert root <= y && y != root;
      }
      DeleteRecursive.DeleteRecursive(zk, pathsToDelete, dryRun);
      assert zk.history == old(zk.history);
      if dryRun {
        UnchangedTree(t, zk.history, zk.tree, zk.history);
      } else {
        FlushedTree(original, yielded, pathsToDelete, root);
      }
      pathsToDelete := [];
    }

    /** The consumer's loop body, run at every `yield`. */
    method Yield(q: Path)
      requires Valid()
      requires root <= q && (q in original || q == root)
      requires forall y :: y in yielded ==> !(y <= q)
      requires forall z :: z in original && q <= z && z != q ==> z in yielded
      modifies this`pathsToDelete, this`yielded, zk
      ensures Valid() && yielded == old(yielded) + [q]
      ensures q == root ==> pathsToDelete == old(pathsToDelete) && zk.tree == old(zk.tree)
      ensures q != root && |old(pathsToDelete)| + 1 < batchSize ==>
                pathsToDelete == old(pathsToDelete) + [q] && zk.tree == old(zk.tree)
      ensures q != root && |old(pathsToDelete)| + 1 == batchSize ==> pathsToDelete == []
    {
      YieldStep(original, yielded, pathsToDelete, root, q);
      yielded := yielded + [q];
      if q == root {
        return;
      }
      pathsToDelete := pathsToDelete + [q];
      if |pathsToDelete| >= batchSize {
        Flush();
      }
    }

    /** `_gen_matched_paths`, with the consumer resumed at every yield. */
    method Generate(path: Path)
      requires Valid()
      requires root <= path && (path in original || path == root)
      requires forall y :: y in yielded ==> !(path <= y)
      modifies this`pathsToDelete, this`yielded, zk
      ensures Valid() && old(yielded) <= yielded
      ensures forall q :: q in yielded[|old(yielded)|..] ==> path <= q
      ensures path in original ==> forall q :: q in original && path <= q ==> (q in yielded <==> Matched(original, q, matches))
      ensures path !in original ==> forall q :: q in yielded[|old(yielded)|..] ==> q == path
      decreases |Below(original, path)|, 2
    {
      ghost var before := yielded;
      var children := ListedChildren(path);
      if children == {} {
        GenerateLeaf(path);
        return;
      }
      var matchedChildren := GenerateChildren(path, children);
      InnerMatched(original, path, matches);
      if matchedChildren == |children| {
        NoAncestorYieldedLater(original, before, yielded, root, path);
        StreamEnds(original, before, yielded, path, matches);
        Yield(path);
      }
    }

    /** A node without children, or a root that does not exist, is yielded if it matches itself. */
    method GenerateLeaf(path: Path)
      requires Valid() && root <= path && Children(original, path) == {}
      requires path in original || path == root
      requires forall y :: y in yielded ==> !(path <= y)
      modifies this`pathsToDelete, this`yielded, zk
      ensures Valid() && yielded == if matches(path) then old(yielded) + [path] else old(yielded)
      ensures forall q :: q in original && path <= q ==> q == path
      ensures path in original ==> (Matched(original, path, matches) <==> matches(path))
    {
      if path in original {
        LeafMatched(original, path, matches);
        NothingBelowLeaf(original, path);
      } else {
        AbsentRoot(original, path);
      }
      if matches(path) {
        NoAncestorYielded(original, yielded, root, path);
        Yield(path);
      }
    }

    /** The loop over the children: re-yield each child's stream and count the children in it. */
    method GenerateChildren(path: Path, children: set<string>) returns (matchedChildren: nat)
      requires Valid()
      requires root <= path && path in original && children == Children(original, path)
      requires forall y :: y in yielded ==> !(path <= y)
      modifies this`pathsToDelete, this`yielded, zk
      ensures Valid() && Progress(original, old(yielded), yielded, path, {}, matches)
      ensures matchedChildren == |children| <==> forall c :: c in children ==> Matched(original, path + [c], matches)
      decreases |Below(original, path)|, 1
    {
      ghost var before := yielded;
      var todo := children;
      matchedChildren := 0;
      forall q | q in original && path <= q && q != path ensures q[|path|] in todo {
        ChildTowards(original, path, q);
      }
      while todo != {}
        invariant todo <= children
        invariant Valid() && Progress(original, before, yielded, path, todo, matches)
        invariant matchedChildren == |MatchedNames(original, path, children - todo, matches)|
      {
        var c :| c in todo;
        var direct := ReYield(path, c, todo, before);
        matchedChildren := matchedChildren + direct;
        MatchedNamesGrow(original, path, children, todo, c, matches);
        todo := todo - {c};
      }
      assert children - todo == children;
      AllNamesMatched(original, path, children, matches);
    }

    /** One child: pass its stream on and count the direct children of `path` in it. */
    method ReYield(path: Path, c: string, ghost todo: set<string>, ghost before: seq<Path>) returns (direct: nat)
      requires Valid() && root <= path && path in original && c in Children(original, path) && c in todo
      requires Progress(original, before, yielded, path, todo, matches)
      requires forall y :: y in before ==> !(path <= y)
      modifies this`pathsToDelete, this`yielded, zk
      ensures Valid() && Progress(original, before, yielded, path, todo - {c}, matches)
      ensures direct == if Matched(original, path + [c], matches) then 1 else 0
      decreases |Below(original, path)|, 0
    {
      var start := yielded;
      UntouchedChild(original, yielded, before, path, c, todo, matches);
      BelowChildSmaller(original, path, c);
      Generate(path + [c]);
      assert path + [c] in original && path + [c] !in start && path + [c] <= path + [c];
      ChildStep(original, before, start, yielded, path, c, todo, matches);
      CountChildStream(original, start, yielded, path, c, matches);
      direct := CountDirect(yielded[|start|..], path);
    }

    method ListedChildren(path: Path) returns (names: set<string>)
      requires Valid()
      requires forall y :: y in yielded ==> !(path <= y)
      modifies zk`tree, zk`foreign, zk`history
      ensures Valid() && names == Children(original, path)
      ensures names != {} ==> path in original
    {
      ghost var t, h := zk.tree, zk.history;
      names := zk.GetChildren(path);
      assert zk.history == h;
      UnchangedTree(t, h, zk.tree, zk.history);
      forall c ensures path + [c] in zk.tree <==> path + [c] in original {
        assert path <= path + [c];
      }
      forall c | c in names ensures path in original {
        AncestorPresent(original, path, path + [c]);
      }
    }
  }

  lemma FlushedTree(original: Tree, yielded: seq<Path>, waiting: seq<Path>, root: Path)
    requires DownClosed(original, yielded)
    requires forall y :: y in yielded ==> root <= y
    requires forall y :: y in waiting ==> y in yielded && y != root
    ensures Without(Remaining(original, yielded, waiting, root), waiting) == Remaining(original, yielded, [], root)
  {
    var t := Remaining(original, yielded, waiting, root);
    forall q | q in t ensures Covered(Members(waiting), q) <==> q in yielded && q != root {
      if Covered(Members(waiting), q) {
        var y :| y in Members(waiting) && y <= q;
        assert root <= y && y != root;
      }
      if q in waiting {
        assert q in Members(waiting) && q <= q;
      }
    }
  }

  lemma YieldStep(original: Tree, yielded: seq<Path>, waiting: seq<Path>, root: Path, q: Path)
    requires BottomUp(yielded) && DownClosed(original, yielded)
    requires forall y :: y in yielded ==> !(y <= q)
    requires forall z :: z in original && q <= z && z != q ==> z in yielded
    ensures BottomUp(yielded + [q]) && DownClosed(original, yielded + [q])
    ensures q == root ==>
              Remaining(original, yielded + [q], waiting, root) == Remaining(original, yielded, waiting, root)
    ensures Remaining(original, yielded + [q], waiting + [q], root) == Remaining(original, yielded, waiting, root)
  {
    forall i | 0 <= i < |yielded| ensures !(yielded[i] <= q) {
      assert yielded[i] in yielded;
    }
    assert q !in yielded;
  }

  lemma NothingBelowLeaf(t: Tree, p: Path)
    requires WellFormed(t) && Leaf(t, p)
    ensures forall q :: q in t && p <= q ==> q == p
  {
    forall q | q in t && p <= q ensures q == p {
      if q != p {
        ChildTowards(t, p, q);
      }
    }
  }

  lemma AbsentRoot(t: Tree, p: Path)
    requires WellFormed(t) && p !in t
    ensures forall q :: q in t ==> !(p <= q)
  {
    forall q | q in t && p <= q ensures false {
      AncestorPresent(t, p, q);
    }
  }

  lemma NoAncestorYielded(original: Tree, yielded: seq<Path>, root: Path, path: Path)
    requires DownClosed(original, yielded) && (path in original || path == root)
    requires forall y :: y in yielded ==> root <= y && !(path <= y)
    ensures forall y :: y in yielded ==> !(y <= path)
  {
    forall y | y in yielded ensures !(y <= path) {
      assert path == root && y <= path ==> y == path;
    }
  }

  lemma NoAncestorYieldedLater(original: Tree, before: seq<Path>, yielded: seq<Path>, root: Path, path: Path)
    requires DownClosed(original, yielded) && before <= yielded && path in original
    requires forall y :: y in before ==> !(path <= y)
    requires forall q :: q in yielded[|before|..] ==> path <= q && q != path
    ensures forall y :: y in yielded ==> !(y <= path)
  {
    forall y | y in yielded ensures !(y <= path) {
      assert yielded == before + yielded[|before|..];
      assert y <= path ==> path in yielded;
    }
  }

  /** The stream of a node whose children all match ends with the node itself. */
  lemma StreamEnds(original: Tree, before: seq<Path>, yielded: seq<Path>, path: Path, matches: Path -> bool)
    requires Progress(original, before, yielded, path, {}, matches)
    ensures forall q :: q in (yielded + [path])[|before|..] ==> path <= q
    ensures forall q :: q in original && path <= q && q != path ==> (q in yielded <==> Matched(original, q, matches))
  {
    assert (yielded + [path])[|before|..] == yielded[|before|..] + [path];
  }

  ghost function MatchedNames(t: Tree, p: Path, names: set<string>, matches: Path -> bool): set<string> {
    set c | c in names && Matched(t, p + [c], matches)
  }

  lemma MatchedNamesGrow(t: Tree, p: Path, children: set<string>, todo: set<string>, c: string, matches: Path -> bool)
    requires todo <= children && c in todo
    ensures |MatchedNames(t, p, children - (todo - {c}), matches)| ==
            |MatchedNames(t, p, children - todo, matches)| + if Matched(t, p + [c], matches) then 1 else 0
  {
    var done := MatchedNames(t, p, children - todo, matches);
    assert MatchedNames(t, p, children - (todo - {c}), matches) ==
           if Matched(t, p + [c], matches) then done + {c} else done;
  }

  lemma AllNamesMatched(t: Tree, p: Path, names: set<string>, matches: Path -> bool)
    ensures |MatchedNames(t, p, names, matches)| == |names| <==> forall c :: c in names ==> Matched(t, p + [c], matches)
  {
    var m := MatchedNames(t, p, names, matches);
    if forall c :: c in names ==> Matched(t, p + [c], matches) {
      assert m == names;
    } else {
      var c :| c in names && !Matched(t, p + [c], matches);
      SubsetCardinality(m, names - {c});
    }
  }

  lemma BelowChildSmaller(t: Tree, p: Path, c: string)
    requires p in t
    ensures |Below(t, p + [c])| < |Below(t, p)|
  {
    assert Below(t, p + [c]) <= Below(t, p) - {p};
    SubsetCardinality(Below(t, p + [c]), Below(t, p) - {p});
  }

  /** Nothing of an unvisited child's subtree has been yielded. */
  lemma UntouchedChild(original: Tree, yielded: seq<Path>, before: seq<Path>, path: Path, c: string,
                       todo: set<string>, matches: Path -> bool)
    requires Progress(original, before, yielded, path, todo, matches) && c in todo
    requires forall y :: y in before ==> !(path <= y)
    requires forall y :: y in yielded ==> y in original || y <= path
    ensures forall y :: y in yielded ==> !(path + [c] <= y)
  {
    forall y | y in yielded ensures !(path + [c] <= y) {
      if path <= y && y != path {
        BelowOneChild(path, c, y);
      }
    }
  }

  /** What the child's generator adds to the facts about the parent's. */
  lemma ChildStep(original: Tree, before: seq<Path>, start: seq<Path>, yielded: seq<Path>, path: Path, c: string,
                  todo: set<string>, matches: Path -> bool)
    requires Progress(original, before, start, path, todo, matches) && start <= yielded && c in todo
    requires forall q :: q in yielded[|start|..] ==> path + [c] <= q
    requires forall q :: q in original && path + [c] <= q ==> (q in yielded <==> Matched(original, q, matches))
    ensures Progress(original, before, yielded, path, todo - {c}, matches)
  {
    var more := yielded[|start|..];
    assert yielded == start + more;
    assert yielded[|before|..] == start[|before|..] + more;
    forall q | q in original && path <= q && q != path
      ensures q in yielded <==> q[|path|] !in todo - {c} && Matched(original, q, matches)
    {
      BelowOneChild(path, c, q);
    }
  }

  lemma BelowOneChild(path: Path, c: string, q: Path)
    requires path <= q && q != path
    ensures path + [c] <= q <==> q[|path|] == c
  {
    assert q[..|path| + 1] == path + [q[|path|]];
    assert (path + [c])[|path|] == c;
  }

  /** The child's stream holds the child itself once, exactly when its whole subtree matches. */
  lemma {:induction false} CountChildStream(
      original: Tree, start: seq<Path>, yielded: seq<Path>, path: Path, c: string, matches: Path -> bool)
    requires start <= yielded && BottomUp(yielded) && path + [c] in original && path + [c] !in start
    requires forall q :: q in yielded[|start|..] ==> path + [c] <= q
    requires path + [c] in yielded <==> Matched(original, path + [c], matches)
    ensures CountDirect(yielded[|start|..], path) == if Matched(original, path + [c], matches) then 1 else 0
  {
    var more := yielded[|start|..];
    assert yielded == start + more;
    forall i, j | 0 <= i < j < |more| ensures more[i] != more[j] {
      assert yielded[|start| + i] == more[i] && yielded[|start| + j] == more[j];
      assert !(more[i] <= more[j]);
    }
    CountOneChild(more, path, c);
  }

  /**
   * Find the subtrees strictly below `root` all of whose leaves match and delete them, in batches,
   * while the search goes on.
   */
  method CleanLocks(zk: Session, root: Path, matches: Path -> bool, batchSize: nat, dryRun: bool)
    returns (yielded: seq<Path>)
    requires zk.Valid() && zk.foreign == [] && ValidPath(root) && batchSize >= 1
    modifies zk
    ensures zk.tree == if dryRun then old(zk.tree) else WithoutMatched(old(zk.tree), root, matches)
    ensures BottomUp(yielded)
    ensures forall q :: q in old(zk.tree) ==> (q in yielded <==> root <= q && Matched(old(zk.tree), q, matches))
    ensures forall q :: q in yielded ==> q in old(zk.tree) || q == root
  {
    var cleaner := new LockCleaner(zk, root, matches, batchSize, dryRun);
    cleaner.Generate(root);
    assert cleaner.yielded[0..] == cleaner.yielded;
    if root !in cleaner.original {
      AbsentRoot(cleaner.original, root);
    }
    cleaner.Flush();
    yielded := cleaner.yielded;
  }

  /** The tree a search on a frozen copy would ask for. */
  ghost function WithoutMatched(t: Tree, root: Path, matches: Path -> bool): Tree {
    map q | q in t && !(root <= q && q != root && Matched(t, q, matches)) :: t[q]
  }
}
