/** `delete_recursive`: collect a subtree level by level, delete it in transactions from the bottom. */
module DeleteRecursive {
  import opened ZkTree
  import opened ZooKeeper
  import opened Chunks
  import opened RS = RemoveSubpaths

  // ---------------------------------------------------------------- one transaction

  /** One transaction for all nodes; when it fails, the nodes one by one until each is gone. */
  method DeleteNodesTransaction(zk: Session, nodes: seq<Path>)
    requires zk.Valid() && [] !in nodes
    modifies zk
    ensures Evolves(old(zk.tree), old(zk.history), zk.tree, zk.history, Members(nodes))
    ensures Work(zk.history, zk.foreign) == old(Work(zk.history, zk.foreign))
    ensures forall p :: p in nodes ==> Cleared(zk.tree, zk.history, |old(zk.history)|, p)
    ensures |zk.sent| == |old(zk.sent)| + 1 && zk.sent[..|old(zk.sent)|] == old(zk.sent)
    ensures zk.sent[|old(zk.sent)|].nodes == nodes
    ensures zk.history == old(zk.history) && Multi(old(zk.tree), Deletes(nodes)).Committed? ==>
              zk.sent[|old(zk.sent)|].before == old(zk.tree) && zk.tree == old(zk.tree) - Members(nodes)
  {
    ghost var t0, h0, roots := zk.tree, zk.history, Members(nodes);
    zk.OthersAct();
    EvolvesWiden(t0, h0, zk.tree, zk.history, {}, roots);
    ghost var t1, h1 := zk.tree, zk.history;
    UnchangedTree(t0, h0, t1, h1);
    var result := Multi(zk.tree, Deletes(nodes));
    zk.sent := zk.sent + [Txn(nodes, zk.tree)];
    if result.Committed? {
      CommittedDeletes(zk.tree, zk.history, nodes);
      zk.tree := result.tree;
    } else {
      DeleteOneByOne(zk, nodes);
      ClearedEarlierAll(zk.tree, zk.history, |h0|, |h1|, nodes);
    }
    EvolvesTransitive(t0, h0, t1, h1, zk.tree, zk.history, roots);
  }

  lemma {:induction false} CommittedDeletes(t: Tree, h: History, nodes: seq<Path>)
    requires WellFormed(t) && Multi(t, Deletes(nodes)).Committed?
    ensures Evolves(t, h, Multi(t, Deletes(nodes)).tree, h, Members(nodes))
    ensures forall n: nat, p :: p in nodes ==> Cleared(Multi(t, Deletes(nodes)).tree, h, n, p)
    ensures Multi(t, Deletes(nodes)).tree == t - Members(nodes)
  {
    DeletesCommitted(t, nodes);
    MultiKeepsWellFormed(t, Deletes(nodes));
    MembersCovered(nodes);
  }

  method DeleteOneByOne(zk: Session, nodes: seq<Path>)
    requires zk.Valid() && [] !in nodes
    modifies zk`tree, zk`foreign, zk`history
    ensures Evolves(old(zk.tree), old(zk.history), zk.tree, zk.history, Members(nodes))
    ensures Work(zk.history, zk.foreign) == old(Work(zk.history, zk.foreign))
    ensures forall p :: p in nodes ==> Cleared(zk.tree, zk.history, |old(zk.history)|, p)
  {
    ghost var t0, h0, roots := zk.tree, zk.history, Members(nodes);
    var i := 0;
    while i < |nodes|
      invariant 0 <= i <= |nodes|
      invariant Evolves(t0, h0, zk.tree, zk.history, roots)
      invariant Work(zk.history, zk.foreign) == Work(h0, old(zk.foreign))
      invariant forall p :: p in nodes[..i] ==> Cleared(zk.tree, zk.history, |h0|, p)
    {
      ghost var t, h := zk.tree, zk.history;
      ghost var attempts := DeleteUntilGone(zk, nodes[i]);
      OneMoreGone(t0, h0, t, h, zk.tree, zk.history, nodes, i);
      i := i + 1;
    }
    assert nodes[..i] == nodes;
  }

  lemma OneMoreGone(t0: Tree, h0: History, t: Tree, h: History, t2: Tree, h2: History, nodes: seq<Path>, i: nat)
    requires i < |nodes| && Evolves(t0, h0, t, h, Members(nodes)) && Evolves(t, h, t2, h2, {nodes[i]})
    requires forall p :: p in nodes[..i] ==> Cleared(t, h, |h0|, p)
    requires Cleared(t2, h2, |h|, nodes[i])
    ensures Evolves(t0, h0, t2, h2, Members(nodes))
    ensures forall p :: p in nodes[..i + 1] ==> Cleared(t2, h2, |h0|, p)
  {
    var roots := Members(nodes);
    MemberCovered(nodes, i);
    EvolvesWiden(t, h, t2, h2, {nodes[i]}, roots);
    EvolvesTransitive(t0, h0, t, h, t2, h2, roots);
    ClearedEarlier(t2, h2, |h0|, |h|, nodes[i]);
    StillCleared(t, h, t2, h2, roots, |h0|, nodes[..i]);
    assert nodes[..i + 1] == nodes[..i] + [nodes[i]];
  }

  lemma ClearedEarlierAll(t: Tree, h: History, m: nat, n: nat, nodes: seq<Path>)
    requires m <= n && forall p :: p in nodes ==> Cleared(t, h, n, p)
    ensures forall p :: p in nodes ==> Cleared(t, h, m, p)
  {
    forall p | p in nodes ensures Cleared(t, h, m, p) {
      ClearedEarlier(t, h, m, n, p);
    }
  }

  /**
   * The retry loop. A not-empty error means that another client has just created a node below, so there are no more
   * failed attempts than such creates.
   */
  method DeleteUntilGone(zk: Session, node: Path) returns (ghost attempts: nat)
    requires zk.Valid() && node != []
    modifies zk`tree, zk`foreign, zk`history
    ensures Evolves(old(zk.tree), old(zk.history), zk.tree, zk.history, {node})
    ensures Work(zk.history, zk.foreign) == old(Work(zk.history, zk.foreign))
    ensures Cleared(zk.tree, zk.history, |old(zk.history)|, node)
    ensures 1 <= attempts <= 1 + CreatesBelow(zk.history, |old(zk.history)|, node)
  {
    ghost var t0, h0 := zk.tree, zk.history;
    var successfulDelete := false;
    attempts := 0;
    while !successfulDelete
      invariant Evolves(t0, h0, zk.tree, zk.history, {node})
      invariant Work(zk.history, zk.foreign) == Work(h0, old(zk.foreign))
      invariant successfulDelete ==> attempts >= 1 && Cleared(zk.tree, zk.history, |h0|, node)
      invariant attempts <= CreatesBelow(zk.history, |h0|, node) + if successfulDelete then 1 else 0
      decreases |zk.foreign|, !successfulDelete
    {
      ghost var t, h := zk.tree, zk.history;
      var r := zk.DeleteSubtree(node);
      attempts := attempts + 1;
      CreatesSplit(h, zk.history, |h0|, node);
      EvolvesTransitive(t0, h0, t, h, zk.tree, zk.history, {node});
      if !r.NotEmptyError? {
        ClearedEarlier(zk.tree, zk.history, |h0|, |h|, node);
        successfulDelete := true;
      } else {
        NewBelowCounts(zk.history, |h|, node);
      }
    }
  }

  /** Without foreign operations in between, the tree is the same. */
  lemma UnchangedTree(t0: Tree, h0: History, t1: Tree, h1: History)
    requires Evolves(t0, h0, t1, h1, {})
    ensures h1 == h0 ==> t1 == t0
  {
  }

  lemma MemberCovered(nodes: seq<Path>, i: nat)
    requires i < |nodes|
    ensures forall r :: r in {nodes[i]} ==> Covered(Members(nodes), r)
  {
    assert nodes[i] in Members(nodes) && nodes[i] <= nodes[i];
  }

  lemma MembersCovered(nodes: seq<Path>)
    ensures forall p :: p in nodes ==> Covered(Members(nodes), p)
  {
    forall p | p in nodes ensures Covered(Members(nodes), p) {
      assert p in Members(nodes) && p <= p;
    }
  }

  lemma StillCleared(t1: Tree, h1: History, t2: Tree, h2: History, roots: set<Path>, n: nat, done: seq<Path>)
    requires n <= |h1| && Evolves(t1, h1, t2, h2, roots)
    requires forall p :: p in done ==> Cleared(t1, h1, n, p)
    ensures forall p :: p in done ==> Cleared(t2, h2, n, p)
  {
    forall p | p in done ensures Cleared(t2, h2, n, p) {
      ClearedStays(t1, h1, t2, h2, roots, n, n, p);
    }
  }

  // ---------------------------------------------------------------- breadth-first collection

  /** The children of `p` in the order the server lists them. */
  method ListChildren(zk: Session, p: Path) returns (names: seq<string>)
    requires zk.Valid()
    modifies zk`tree, zk`foreign, zk`history
    ensures Evolves(old(zk.tree), old(zk.history), zk.tree, zk.history, {})
    ensures Work(zk.history, zk.foreign) == old(Work(zk.history, zk.foreign))
    ensures Lists(names, zk.tree, p)
  {
    var todo := zk.GetChildren(p);
    names := [];
    while todo != {}
      invariant todo <= Children(zk.tree, p)
      invariant forall c :: c in names <==> c in Children(zk.tree, p) - todo
      invariant forall i, j :: 0 <= i < j < |names| ==> names[i] != names[j]
    {
      var c :| c in todo;
      assert c !in names;
      names, todo := names + [c], todo - {c};
    }
  }

  /** Every node at or below a root is collected, still ahead of the queue, or foreign. */
  ghost predicate Reached(t: Tree, h: History, n: nat, roots: seq<Path>, nodes: seq<Path>, queue: seq<Path>) {
    forall r, q :: r in roots && q in t && r <= q ==> q in nodes || Ahead(queue, q) || CreatedSince(h, n, q)
  }

  ghost predicate Ahead(queue: seq<Path>, q: Path) {
    exists i :: 0 <= i < |queue| && queue[i] <= q
  }

  lemma ReachedLater(
      t1: Tree, h1: History, t2: Tree, h2: History, n: nat, roots: seq<Path>, nodes: seq<Path>, queue: seq<Path>)
    requires n <= |h1| && Evolves(t1, h1, t2, h2, {})
    requires Reached(t1, h1, n, roots, nodes, queue)
    ensures Reached(t2, h2, n, roots, nodes, queue)
  {
    EvolvesAccounts(t1, h1, t2, h2, {});
    forall r, q | r in roots && q in t2 && r <= q ensures q in nodes || Ahead(queue, q) || CreatedSince(h2, n, q) {
      assert AccountedAt(t1, t2, h2, |h1|, {}, q);
      CreatedLater(h1, h2, n, |h1|, q);
    }
  }

  lemma ReachedStep(
      t: Tree, h: History, n: nat, roots: seq<Path>, nodes: seq<Path>, queue: seq<Path>, names: seq<string>)
    requires WellFormed(t) && queue != []
    requires Reached(t, h, n, roots, nodes, queue) && Lists(names, t, queue[0])
    ensures Reached(t, h, n, roots, nodes + [queue[0]], queue[1..] + ChildPaths(queue[0], names))
  {
    var p := queue[0];
    var next := queue[1..] + ChildPaths(p, names);
    forall r, q | r in roots && q in t && r <= q
      ensures q in nodes + [p] || Ahead(next, q) || CreatedSince(h, n, q)
    {
      if Ahead(queue, q) && q != p {
        var i :| 0 <= i < |queue| && queue[i] <= q;
        if i > 0 {
          assert next[i - 1] <= q;
        } else {
          ChildTowards(t, p, q);
          var k :| 0 <= k < |names| && names[k] == q[|p|];
          assert next[|queue| - 1 + k] <= q;
        }
      }
    }
  }

  /** Bound on the work the queue still stands for. */
  ghost function Weight(t: Tree, queue: seq<Path>): nat {
    if queue == [] then 0
    else (if queue[0] in t then |Below(t, queue[0])| else 1) + Weight(t, queue[1..])
  }

  lemma {:induction false} WeightConcat(t: Tree, a: seq<Path>, b: seq<Path>)
    ensures Weight(t, a + b) == Weight(t, a) + Weight(t, b)
  {
    if a == [] {
      assert a + b == b;
    } else {
      assert (a + b)[1..] == a[1..] + b;
      WeightConcat(t, a[1..], b);
    }
  }

  /** What lies at or below a child is what lies below the parent on the child's side. */
  lemma BelowChild(t: Tree, p: Path, name: string)
    ensures forall q :: q in Below(t, p + [name]) <==> q in t && p < q && q[|p|] == name
  {
    forall q | q in Below(t, p + [name]) ensures p < q && q[|p|] == name {
      assert (p + [name])[|p|] == name;
    }
    forall q | q in t && p < q && q[|p|] == name ensures q in Below(t, p + [name]) {
      assert q[..|p| + 1] == p + [name];
    }
  }

  lemma {:induction false} FirstChildWeight(t: Tree, p: Path, names: seq<string>)
    requires names != [] && names[0] in Children(t, p)
    ensures Weight(t, ChildPaths(p, names)) == |Below(t, p + [names[0]])| + Weight(t, ChildPaths(p, names[1..]))
  {
    assert ChildPaths(p, names)[0] == p + [names[0]];
    assert ChildPaths(p, names)[1..] == ChildPaths(p, names[1..]);
  }

  /** The subtrees of distinct children are disjoint and leave out the parent. */
  lemma {:induction false} ChildrenWeight(t: Tree, p: Path, names: seq<string>) returns (union: set<Path>)
    requires forall c :: c in names ==> c in Children(t, p)
    requires forall i, j :: 0 <= i < j < |names| ==> names[i] != names[j]
    ensures Weight(t, ChildPaths(p, names)) == |union|
    ensures forall q :: q in union <==> q in t && p < q && q[|p|] in names
    decreases |names|
  {
    if names == [] {
      return {};
    }
    var rest := ChildrenWeight(t, p, names[1..]);
    var first := Below(t, p + [names[0]]);
    BelowChild(t, p, names[0]);
    assert names[0] in names && names[0] !in names[1..];
    FirstChildWeight(t, p, names);
    assert first !! rest;
    union := first + rest;
  }

  lemma {:induction false} WeightDrops(t: Tree, queue: seq<Path>, names: seq<string>)
    requires WellFormed(t) && queue != [] && Lists(names, t, queue[0])
    ensures Weight(t, queue[1..] + ChildPaths(queue[0], names)) < Weight(t, queue)
  {
    var p := queue[0];
    WeightConcat(t, queue[1..], ChildPaths(p, names));
    var union := ChildrenWeight(t, p, names);
    if p in t {
      SubsetCardinality(union, Below(t, p) - {p});
    } else {
      forall q | q in union ensures false {
        AncestorPresent(t, p, q);
      }
      assert union == {};
    }
  }

  /** No root lies at or below another one. */
  ghost predicate Antichain(roots: seq<Path>) {
    forall i, j :: 0 <= i < |roots| && 0 <= j < |roots| && i != j ==> !(roots[i] <= roots[j])
  }

  /** Everything listed exists, and is a root or the child of a node whose turn has come. */
  ghost predicate Rooted(t: Tree, roots: seq<Path>, nodes: seq<Path>, all: seq<Path>) {
    forall i :: 0 <= i < |all| ==> all[i] in t && all[i] != [] && (all[i] in roots || Parent(all[i]) in nodes)
  }

  ghost predicate ChildrenLater(t: Tree, nodes: seq<Path>, all: seq<Path>)
    requires |nodes| <= |all|
  {
    forall i, c :: 0 <= i < |nodes| && c in Children(t, nodes[i]) ==> nodes[i] + [c] in all[i + 1..]
  }

  /** Duplicate-free, present in `t`, and every child comes later than its parent. */
  ghost predicate LevelOrder(t: Tree, roots: seq<Path>, nodes: seq<Path>, queue: seq<Path>) {
    && Distinct(nodes + queue)
    && Rooted(t, roots, nodes, nodes + queue)
    && ChildrenLater(t, nodes, nodes + queue)
  }

  lemma LevelOrderStart(t: Tree, roots: seq<Path>)
    requires Antichain(roots) && forall r :: r in roots ==> r in t && r != []
    ensures LevelOrder(t, roots, [], roots)
  {
    forall i | 0 <= i < |roots| ensures roots[i] in t && roots[i] != [] && roots[i] in roots {
    }
    assert Distinct(roots) && Rooted(t, roots, [], roots) && ChildrenLater(t, [], roots);
    assert [] + roots == roots;
  }

  /** A child of the queue's head has not been listed before. */
  lemma KidsFresh(t: Tree, roots: seq<Path>, nodes: seq<Path>, queue: seq<Path>, kid: Path)
    requires Antichain(roots) && queue != [] && Covered(Members(roots), queue[0])
    requires Distinct(nodes + queue) && Rooted(t, roots, nodes, nodes + queue)
    requires kid != [] && Parent(kid) == queue[0]
    ensures kid !in nodes + queue
  {
    var all, p := nodes + queue, queue[0];
    assert all[|nodes|] == p;
    var r :| r in Members(roots) && r <= p;
    assert r <= kid && |r| < |kid|;
    assert kid !in roots;
    forall m | 0 <= m < |nodes| ensures nodes[m] != p {
      assert all[m] == nodes[m];
    }
  }

  lemma KidsLater(t: Tree, nodes: seq<Path>, queue: seq<Path>, names: seq<string>)
    requires queue != [] && Lists(names, t, queue[0])
    requires ChildrenLater(t, nodes, nodes + queue)
    ensures ChildrenLater(t, nodes + [queue[0]], (nodes + queue) + ChildPaths(queue[0], names))
  {
    var p, kids := queue[0], ChildPaths(queue[0], names);
    var all := nodes + queue;
    forall i, c | 0 <= i < |nodes + [p]| && c in Children(t, (nodes + [p])[i])
      ensures (nodes + [p])[i] + [c] in (all + kids)[i + 1..]
    {
      assert (all + kids)[i + 1..] == all[i + 1..] + kids;
      if i == |nodes| {
        var k :| 0 <= k < |names| && names[k] == c;
        assert kids[k] == p + [c];
      }
    }
  }

  lemma KidsDistinct(p: Path, names: seq<string>)
    requires forall i, j :: 0 <= i < j < |names| ==> names[i] != names[j]
    ensures Distinct(ChildPaths(p, names))
  {
    var kids := ChildPaths(p, names);
    forall j, k | 0 <= j < k < |kids| ensures kids[j] != kids[k] {
      assert kids[j][|p|] == names[j] && kids[k][|p|] == names[k];
    }
  }

  lemma LevelOrderStep(t: Tree, roots: seq<Path>, nodes: seq<Path>, queue: seq<Path>, names: seq<string>)
    requires WellFormed(t) && Antichain(roots) && queue != [] && Covered(Members(roots), queue[0])
    requires LevelOrder(t, roots, nodes, queue) && Lists(names, t, queue[0])
    ensures LevelOrder(t, roots, nodes + [queue[0]], queue[1..] + ChildPaths(queue[0], names))
  {
    var p, kids := queue[0], ChildPaths(queue[0], names);
    assert queue == [p] + queue[1..];
    assert (nodes + [p]) + (queue[1..] + kids) == (nodes + queue) + kids;
    forall k | 0 <= k < |kids|
      ensures kids[k] in t && kids[k] != [] && Parent(kids[k]) == p && kids[k] !in nodes + queue
    {
      assert names[k] in names;
      KidsFresh(t, roots, nodes, queue, kids[k]);
    }
    KidsDistinct(p, names);
    KidsLater(t, nodes, queue, names);
  }

  /** What the queue loop keeps; `h0` is the foreign history at its start. */
  ghost predicate Collecting(h0: History, t: Tree, h: History, roots: seq<Path>, nodes: seq<Path>, queue: seq<Path>) {
    && (forall q :: q in nodes || q in queue ==> q != [] && Covered(Members(roots), q))
    && Reached(t, h, |h0|, roots, nodes, queue)
    && (h == h0 && Antichain(roots) && (forall r :: r in roots ==> r in t) ==> LevelOrder(t, roots, nodes, queue))
  }

  lemma CollectingStart(h0: History, t: Tree, roots: seq<Path>)
    requires [] !in roots
    ensures Collecting(h0, t, h0, roots, [], roots)
  {
    MembersCovered(roots);
    if Antichain(roots) && forall r :: r in roots ==> r in t {
      LevelOrderStart(t, roots);
    }
    forall r, q | r in roots && q in t && r <= q ensures Ahead(roots, q) {
      var i :| 0 <= i < |roots| && roots[i] == r;
      assert roots[i] <= q;
    }
  }

  lemma {:induction false} CollectingStep(h0: History, t: Tree, h: History, t1: Tree, h1: History,
                       roots: seq<Path>, nodes: seq<Path>, queue: seq<Path>, names: seq<string>)
    requires h0 <= h && Evolves(t, h, t1, h1, {})
    requires queue != [] && Collecting(h0, t, h, roots, nodes, queue) && Lists(names, t1, queue[0])
    ensures Collecting(h0, t1, h1, roots, nodes + [queue[0]], queue[1..] + ChildPaths(queue[0], names))
    ensures h1 == h ==> Weight(t1, queue[1..] + ChildPaths(queue[0], names)) < Weight(t, queue)
  {
    assert queue[0] in queue;
    UnchangedTree(t, h, t1, h1);
    ReachedLater(t, h, t1, h1, |h0|, roots, nodes, queue);
    CollectingListed(h0, t1, h1, roots, nodes, queue, names);
    WeightDrops(t1, queue, names);
  }

  lemma CollectingListed(h0: History, t: Tree, h: History,
                         roots: seq<Path>, nodes: seq<Path>, queue: seq<Path>, names: seq<string>)
    requires WellFormed(t) && queue != [] && Lists(names, t, queue[0])
    requires Collecting(h0, t, h, roots, nodes, queue)
    ensures Collecting(h0, t, h, roots, nodes + [queue[0]], queue[1..] + ChildPaths(queue[0], names))
  {
    assert queue[0] in queue;
    ReachedStep(t, h, |h0|, roots, nodes, queue, names);
    ChildrenCovered(roots, queue[0], names);
    if h == h0 && Antichain(roots) && forall r :: r in roots ==> r in t {
      LevelOrderStep(t, roots, nodes, queue, names);
    }
  }

  /** The loop over the queue: take a node, list its children, queue them. */
  method CollectNodes(zk: Session, roots: seq<Path>) returns (nodes: seq<Path>)
    requires zk.Valid() && [] !in roots
    modifies zk`tree, zk`foreign, zk`history
    ensures Evolves(old(zk.tree), old(zk.history), zk.tree, zk.history, {})
    ensures Work(zk.history, zk.foreign) == old(Work(zk.history, zk.foreign))
    ensures Collecting(old(zk.history), zk.tree, zk.history, roots, nodes, [])
  {
    ghost var t0, h0 := zk.tree, zk.history;
    nodes := [];
    var queue := roots;
    CollectingStart(h0, zk.tree, roots);
    while queue != []
      invariant Evolves(t0, h0, zk.tree, zk.history, {})
      invariant Work(zk.history, zk.foreign) == Work(h0, old(zk.foreign))
      invariant Collecting(h0, zk.tree, zk.history, roots, nodes, queue)
      decreases |zk.foreign|, Weight(zk.tree, queue)
    {
      ghost var t, h := zk.tree, zk.history;
      var path := queue[0];
      var names := ListChildren(zk, path);
      EvolvesTransitive(t0, h0, t, h, zk.tree, zk.history, {});
      CollectingStep(h0, t, h, zk.tree, zk.history, roots, nodes, queue, names);
      nodes := nodes + [path];
      queue := queue[1..] + ChildPaths(path, names);
    }
  }

  lemma ChildrenCovered(roots: seq<Path>, p: Path, names: seq<string>)
    requires Covered(Members(roots), p)
    ensures forall q :: q in ChildPaths(p, names) ==> q != [] && Covered(Members(roots), q)
  {
    var r :| r in Members(roots) && r <= p;
    forall q | q in ChildPaths(p, names) ensures q != [] && Covered(Members(roots), q) {
      assert p <= q && r <= q;
    }
  }

  // ---------------------------------------------------------------- deletion from the bottom

  function Reverse(s: seq<Path>): (r: seq<Path>)
    ensures |r| == |s|
  {
    seq(|s|, i requires 0 <= i < |s| => s[|s| - 1 - i])
  }

  /** No entry is an ancestor of a later one, and none occurs twice. */
  ghost predicate BottomUp(s: seq<Path>) {
    forall i, j :: 0 <= i < j < |s| ==> !(s[i] <= s[j])
  }

  /** A complete level order, as the queue loop leaves it. */
  ghost predicate Complete(t: Tree, nodes: seq<Path>) {
    && WellFormed(t)
    && Distinct(nodes)
    && (forall i :: 0 <= i < |nodes| ==> nodes[i] in t && nodes[i] != [])
    && ChildrenLater(t, nodes, nodes)
  }

  /** Every descendant of a listed node is listed later. */
  lemma {:induction false} DescendantLater(t: Tree, nodes: seq<Path>, b: nat, q: Path) returns (k: nat)
    requires Complete(t, nodes) && b < |nodes|
    requires q in t && nodes[b] <= q && q != nodes[b]
    ensures b < k < |nodes| && nodes[k] == q
    decreases |q| - |nodes[b]|
  {
    ChildTowards(t, nodes[b], q);
    var child := nodes[b] + [q[|nodes[b]|]];
    assert child in nodes[b + 1..];
    k :| b < k < |nodes| && nodes[k] == child;
    if q != child {
      k := DescendantLater(t, nodes, k, q);
    }
  }

  lemma ReversedIsBottomUp(t: Tree, nodes: seq<Path>)
    requires Complete(t, nodes)
    ensures BottomUp(Reverse(nodes))
  {
    var rev := Reverse(nodes);
    forall i, j | 0 <= i < j < |rev| ensures !(rev[i] <= rev[j]) {
      var a, b := |nodes| - 1 - i, |nodes| - 1 - j;
      assert nodes[b] != nodes[a];
      if nodes[a] <= nodes[b] {
        var k := DescendantLater(t, nodes, a, nodes[b]);
      }
    }
  }

  /** In the reversed order every child of a node precedes it. */
  lemma ChildrenEarlier(t: Tree, nodes: seq<Path>, i: nat, c: string)
    requires ChildrenLater(t, nodes, nodes) && i < |nodes| && c in Children(t, nodes[|nodes| - 1 - i])
    ensures nodes[|nodes| - 1 - i] + [c] in Reverse(nodes)[..i]
  {
    InReverse(nodes, |nodes| - 1 - i, nodes[|nodes| - 1 - i] + [c]);
  }

  lemma InReverse(nodes: seq<Path>, a: nat, q: Path)
    requires a < |nodes| && q in nodes[a + 1..]
    ensures q in Reverse(nodes)[..|nodes| - 1 - a]
  {
    var k :| a < k < |nodes| && nodes[k] == q;
    assert Reverse(nodes)[|nodes| - 1 - k] == q;
  }

  lemma ChunkPresent(t0: Tree, rev: seq<Path>, done: seq<Path>, chunk: seq<Path>, rest: seq<Path>)
    requires rev == done + chunk + rest && BottomUp(rev)
    requires forall i :: 0 <= i < |rev| ==> rev[i] in t0 && rev[i] != []
    ensures forall i :: 0 <= i < |chunk| ==> chunk[i] in t0 - Members(done) && chunk[i] != []
    ensures Distinct(chunk)
  {
    forall i | 0 <= i < |chunk| ensures chunk[i] in t0 - Members(done) && chunk[i] != [] {
      assert rev[|done| + i] == chunk[i];
      forall k | 0 <= k < |done| ensures done[k] != chunk[i] {
        assert rev[k] == done[k];
      }
    }
    forall i, j | 0 <= i < j < |chunk| ensures chunk[i] != chunk[j] {
      assert rev[|done| + i] == chunk[i] && rev[|done| + j] == chunk[j];
      assert !(rev[|done| + i] <= rev[|done| + j]);
    }
  }

  lemma PartOf(all: seq<Path>, done: seq<Path>, chunk: seq<Path>, rest: seq<Path>, i: nat)
    requires all == done + chunk + rest && i < |chunk|
    ensures all[|done| + i] == chunk[i]
    ensures all[..|done| + i] == done + chunk[..i]
  {
  }

  lemma ChunkChildren(t0: Tree, nodes: seq<Path>, done: seq<Path>, chunk: seq<Path>, rest: seq<Path>, i: nat, c: string)
    requires ChildrenLater(t0, nodes, nodes) && Reverse(nodes) == done + chunk + rest
    requires i < |chunk| && chunk[i] + [c] in t0 && chunk[i] + [c] !in done
    ensures chunk[i] + [c] in chunk[..i]
  {
    var k := |done| + i;
    PartOf(Reverse(nodes), done, chunk, rest, i);
    assert chunk[i] == nodes[|nodes| - 1 - k];
    ChildrenEarlier(t0, nodes, k, c);
  }

  /** Once the nodes before a chunk are gone, its transaction commits. */
  lemma {:induction false} ChunkCommits(
      t0: Tree, nodes: seq<Path>, t: Tree, done: seq<Path>, chunk: seq<Path>, rest: seq<Path>)
    requires Complete(t0, nodes) && WellFormed(t)
    requires Reverse(nodes) == done + chunk + rest
    requires t == t0 - Members(done)
    ensures Multi(t, Deletes(chunk)).Committed?
    ensures t - Members(chunk) == t0 - Members(done + chunk)
  {
    ReversedIsBottomUp(t0, nodes);
    ChunkPresent(t0, Reverse(nodes), done, chunk, rest);
    forall i, c | 0 <= i < |chunk| && c in Children(t, chunk[i]) ensures chunk[i] + [c] in chunk[..i] {
      assert chunk[i] + [c] in t;
      ChunkChildren(t0, nodes, done, chunk, rest, i, c);
    }
    ChildrenFirstCommits(t, chunk);
  }

  function DeletedBy(txns: seq<Txn>): seq<Path> {
    if txns == [] then [] else txns[0].nodes + DeletedBy(txns[1..])
  }

  lemma {:induction false} DeletedByAppend(txns: seq<Txn>, last: Txn)
    ensures DeletedBy(txns + [last]) == DeletedBy(txns) + last.nodes
  {
    if txns == [] {
      assert txns + [last] == [last];
      assert DeletedBy([last]) == last.nodes + DeletedBy([]);
    } else {
      DeletedByAppend(txns[1..], last);
      assert (txns + [last])[1..] == txns[1..] + [last];
    }
  }

  /** The transactions lead from `t0` to `t`, each committed on the tree that the one before it left. */
  ghost predicate Sends(t0: Tree, txns: seq<Txn>, t: Tree)
    decreases |txns|
  {
    if txns == [] then t == t0
    else txns[0].before == t0 && txns[0].Committed() && Sends(t0 - Members(txns[0].nodes), txns[1..], t)
  }

  lemma {:induction false} SendsAppend(t0: Tree, txns: seq<Txn>, t: Tree, last: Txn)
    requires Sends(t0, txns, t) && last.before == t && last.Committed()
    ensures Sends(t0, txns + [last], t - Members(last.nodes))
  {
    if txns == [] {
      assert [last][1..] == [];
    } else {
      SendsAppend(t0 - Members(txns[0].nodes), txns[1..], t, last);
      assert (txns + [last])[1..] == txns[1..] + [last];
    }
  }

  /** The tree without the subtrees of the roots. */
  function Without(t: Tree, roots: seq<Path>): Tree {
    map p | p in t && !Covered(Members(roots), p) :: t[p]
  }

  /**
   * The deletion as it is meant to go: every transaction committed on what the one before it left, each node at or below a root
   * deleted exactly once and after everything below it, in at most isqrt(n) + 2 transactions of the size for n nodes.
   */
  ghost predicate OnePass(t0: Tree, roots: seq<Path>, txns: seq<Txn>) {
    && Sends(t0, txns, Without(t0, roots))
    && BottomUp(DeletedBy(txns))
    && (forall q :: q in DeletedBy(txns) <==> q in t0 && Covered(Members(roots), q))
    && |txns| <= Isqrt(|DeletedBy(txns)|) + 2
    && Sized(txns, |DeletedBy(txns)|)
  }

  /** Transactions of the square root of the number of nodes, and of 100 at least; only the last one may be smaller. */
  ghost predicate Sized(txns: seq<Txn>, total: nat) {
    forall i :: 0 <= i < |txns| ==>
      var size := if Isqrt(total) > 100 then Isqrt(total) else 100;
      1 <= |txns[i].nodes| <= size && (i < |txns| - 1 ==> |txns[i].nodes| == size)
  }

  lemma MulMonotone(k: nat, a: nat, b: nat)
    requires a <= b
    ensures k * a <= k * b
  {
  }

  lemma FewTransactions(total: nat, root: nat, size: nat, chunks: nat)
    requires total < (root + 1) * (root + 1)
    requires size >= root && size >= 1
    requires size * chunks < total + size
    ensures chunks <= root + 2
  {
    if chunks > root + 2 {
      MulMonotone(size, root + 3, chunks);
      MulMonotone(root + 2, root, size);
    }
  }

  // ---------------------------------------------------------------- the whole operation

  function Rendered(paths: seq<Path>): (r: seq<string>)
    ensures |r| == |paths|
  {
    seq(|paths|, i requires 0 <= i < |paths| => Render(paths[i]))
  }

  lemma RenderCovers(a: Path, b: Path)
    requires ValidPath(a) && ValidPath(b)
    ensures Covers(Render(a), Render(b)) <==> a <= b
  {
    SplitPrefixIffCovers(Render(a), Render(b));
    ComponentsRender(a);
    ComponentsRender(b);
    assert ([""] + a)[1..] == a && ([""] + b)[1..] == b;
    if a <= b {
      assert [""] + b == ([""] + a) + b[|a|..];
    }
  }

  /** Paths none of which lies below another one meet the condition under which no nesting survives. */
  lemma UnrelatedPathsDoNotSplit(paths: seq<Path>)
    requires forall p :: p in paths ==> ValidPath(p)
    requires forall p, q :: p in paths && q in paths && p <= q ==> p == q
    ensures !SiblingSplitsFamily(Rendered(paths))
  {
    var texts := Rendered(paths);
    forall a, b | a in texts && b in texts && Covers(a, b) ensures a == b {
      var i :| 0 <= i < |texts| && texts[i] == a;
      var j :| 0 <= j < |texts| && texts[j] == b;
      assert paths[i] in paths && paths[j] in paths;
      RenderCovers(paths[i], paths[j]);
    }
  }

  /** `remove_subpaths` on the textual form of the paths. */
  method TopmostPaths(paths: seq<Path>) returns (roots: seq<Path>)
    requires forall p :: p in paths ==> ValidPath(p)
    ensures Members(roots) <= Members(paths)
    ensures forall p :: p in paths ==> exists i :: 0 <= i < |roots| && roots[i] <= p
    ensures Antichain(roots) <==> !SiblingSplitsFamily(Rendered(paths))
  {
    var texts := Rendered(paths);
    var kept := RS.RemoveSubpaths(texts);
    roots := seq(|kept|, i requires 0 <= i < |kept| => Components(kept[i]));
    KeptAreRoots(paths, kept, roots);
    RootsCover(paths, kept, roots);
    AntichainOfRoots(kept, roots);
  }

  lemma AntichainOfRoots(kept: seq<string>, roots: seq<Path>)
    requires |roots| == |kept| && forall i :: 0 <= i < |roots| ==> ValidPath(roots[i]) && Render(roots[i]) == kept[i]
    ensures Antichain(roots) <==> NestedFree(kept)
  {
    forall i, j | 0 <= i < |roots| && 0 <= j < |roots|
      ensures roots[i] <= roots[j] <==> Covers(kept[i], kept[j])
    {
      RenderCovers(roots[i], roots[j]);
    }
  }

  lemma KeptAreRoots(paths: seq<Path>, kept: seq<string>, roots: seq<Path>)
    requires forall p :: p in paths ==> ValidPath(p)
    requires forall k :: k in kept ==> k in Rendered(paths)
    requires |roots| == |kept| && forall i :: 0 <= i < |kept| ==> roots[i] == Components(kept[i])
    ensures forall i :: 0 <= i < |roots| ==> ValidPath(roots[i]) && Render(roots[i]) == kept[i]
    ensures Members(roots) <= Members(paths)
  {
    forall i | 0 <= i < |kept|
      ensures roots[i] in paths && ValidPath(roots[i]) && Render(roots[i]) == kept[i]
    {
      assert kept[i] in kept;
      var k :| 0 <= k < |paths| && Rendered(paths)[k] == kept[i];
      assert paths[k] in paths;
      ComponentsRender(paths[k]);
    }
  }

  lemma RootsCover(paths: seq<Path>, kept: seq<string>, roots: seq<Path>)
    requires forall p :: p in paths ==> ValidPath(p)
    requires |roots| == |kept| && forall i :: 0 <= i < |roots| ==> ValidPath(roots[i]) && Render(roots[i]) == kept[i]
    requires forall t :: t in Rendered(paths) ==> exists i :: 0 <= i < |kept| && Covers(kept[i], t)
    ensures forall p :: p in paths ==> exists i :: 0 <= i < |roots| && roots[i] <= p
  {
    forall p | p in paths ensures exists i :: 0 <= i < |roots| && roots[i] <= p {
      var k :| 0 <= k < |paths| && paths[k] == p;
      assert Rendered(paths)[k] in Rendered(paths);
      var i :| 0 <= i < |kept| && Covers(kept[i], Rendered(paths)[k]);
      RenderCovers(roots[i], p);
    }
  }

  /** What the chunk loop keeps: `done` are the nodes whose chunks have been dealt with. */
  ghost predicate Deleting(t1: Tree, h1: History, t: Tree, h: History, roots: seq<Path>, done: seq<Path>) {
    && Evolves(t1, h1, t, h, Members(roots))
    && (forall p :: p in done ==> Cleared(t, h, |h1|, p))
  }

  /** As long as no other client acts, the chunks go through one after the other. */
  ghost predicate OnTrack(
      t1: Tree, h1: History, t: Tree, h: History, nodes: seq<Path>, done: seq<Path>, txns: seq<Txn>) {
    && DeletedBy(txns) == done
    && (h == h1 && Complete(t1, nodes) ==>
          && t == t1 - Members(done)
          && Sends(t1, txns, t))
  }

  lemma {:induction false} OnTrackStep(t1: Tree, h1: History, t: Tree, h: History, t2: Tree, h2: History,
                    nodes: seq<Path>, done: seq<Path>, chunk: seq<Path>, rest: seq<Path>, txns: seq<Txn>, txn: Txn)
    requires OnTrack(t1, h1, t, h, nodes, done, txns)
    requires WellFormed(t) && h1 <= h <= h2 && Reverse(nodes) == done + chunk + rest
    requires txn.nodes == chunk
    requires h2 == h && Multi(t, Deletes(chunk)).Committed? ==> txn.before == t && t2 == t - Members(chunk)
    ensures OnTrack(t1, h1, t2, h2, nodes, done + chunk, txns + [txn])
  {
    DeletedByAppend(txns, txn);
    if h2 == h1 && Complete(t1, nodes) {
      ChunkCommits(t1, nodes, t, done, chunk, rest);
      SendsAppend(t1, txns, t, txn);
    }
  }

  /** The reversed list in transactions of at least 100 operations. */
  method ChunksBottomUp(nodes: seq<Path>) returns (chunks: seq<seq<Path>>)
    ensures Flatten(chunks) == Reverse(nodes)
    ensures |chunks| <= Isqrt(|nodes|) + 2
    ensures IsChunking(chunks, Reverse(nodes), if Isqrt(|nodes|) > 100 then Isqrt(|nodes|) else 100)
  {
    var operations := if Isqrt(|nodes|) > 100 then Isqrt(|nodes|) else 100;
    chunks := Chunked(Reverse(nodes), operations);
    FewTransactions(|nodes|, Isqrt(|nodes|), operations, |chunks|);
  }

  method DeleteChunks(zk: Session, nodes: seq<Path>, roots: seq<Path>)
    requires zk.Valid()
    requires forall q :: q in nodes ==> q != [] && Covered(Members(roots), q)
    modifies zk
    ensures Evolves(old(zk.tree), old(zk.history), zk.tree, zk.history, Members(roots))
    ensures Work(zk.history, zk.foreign) == old(Work(zk.history, zk.foreign))
    ensures forall p :: p in nodes ==> Cleared(zk.tree, zk.history, |old(zk.history)|, p)
    ensures |zk.sent| >= |old(zk.sent)| && zk.sent[..|old(zk.sent)|] == old(zk.sent)
    ensures |zk.sent| - |old(zk.sent)| <= Isqrt(|nodes|) + 2
    ensures Sized(zk.sent[|old(zk.sent)|..], |nodes|)
    ensures OnTrack(old(zk.tree), old(zk.history), zk.tree, zk.history, nodes, Reverse(nodes),
                    zk.sent[|old(zk.sent)|..])
  {
    ghost var t1, h1, s1 := zk.tree, zk.history, zk.sent;
    ghost var rev := Reverse(nodes);
    var chunks := ChunksBottomUp(nodes);
    ghost var done, txns := [], [];
    assert t1 - Members(done) == t1;
    var k := 0;
    while k < |chunks|
      invariant 0 <= k <= |chunks|
      invariant Work(zk.history, zk.foreign) == Work(h1, old(zk.foreign))
      invariant Deleting(t1, h1, zk.tree, zk.history, roots, done)
      invariant rev == done + Flatten(chunks[k..])
      invariant zk.sent == s1 + txns && |txns| == k
      invariant forall i :: 0 <= i < k ==> txns[i].nodes == chunks[i]
      invariant OnTrack(t1, h1, zk.tree, zk.history, nodes, done, txns)
    {
      assert chunks[k..] == [chunks[k]] + chunks[k + 1..];
      ChunkOf(nodes, done, chunks[k], Flatten(chunks[k + 1..]));
      ghost var txn := DeleteChunk(zk, t1, h1, nodes, roots, done, chunks[k], Flatten(chunks[k + 1..]), txns);
      done, txns := done + chunks[k], txns + [txn];
      k := k + 1;
    }
    assert chunks[k..] == [] && rev == done;
    assert zk.sent[|s1|..] == txns && zk.sent[..|s1|] == s1;
    forall p | p in nodes ensures p in done {
      InBothOrders(nodes, p);
    }
  }

  method DeleteChunk(zk: Session, ghost t1: Tree, ghost h1: History, ghost nodes: seq<Path>, ghost roots: seq<Path>,
                     ghost done: seq<Path>, chunk: seq<Path>, ghost rest: seq<Path>, ghost txns: seq<Txn>)
    returns (ghost txn: Txn)
    requires zk.Valid()
    requires forall q :: q in nodes ==> q != [] && Covered(Members(roots), q)
    requires Reverse(nodes) == done + chunk + rest && forall q :: q in chunk ==> q in nodes
    requires Deleting(t1, h1, zk.tree, zk.history, roots, done)
    requires OnTrack(t1, h1, zk.tree, zk.history, nodes, done, txns)
    modifies zk
    ensures Work(zk.history, zk.foreign) == old(Work(zk.history, zk.foreign))
    ensures zk.sent == old(zk.sent) + [txn] && txn.nodes == chunk
    ensures Deleting(t1, h1, zk.tree, zk.history, roots, done + chunk)
    ensures OnTrack(t1, h1, zk.tree, zk.history, nodes, done + chunk, txns + [txn])
  {
    ghost var t, h := zk.tree, zk.history;
    DeleteNodesTransaction(zk, chunk);
    DeletingStep(t1, h1, t, h, zk.tree, zk.history, roots, nodes, done, chunk);
    txn := zk.sent[|old(zk.sent)|];
    OnTrackStep(t1, h1, t, h, zk.tree, zk.history, nodes, done, chunk, rest, txns, txn);
  }

  lemma ChunkOf(nodes: seq<Path>, done: seq<Path>, chunk: seq<Path>, rest: seq<Path>)
    requires Reverse(nodes) == done + (chunk + rest)
    ensures Reverse(nodes) == done + chunk + rest
    ensures forall q :: q in chunk ==> q in nodes
  {
    assert done + (chunk + rest) == done + chunk + rest;
    forall i | 0 <= i < |chunk| ensures chunk[i] in nodes {
      assert Reverse(nodes)[|done| + i] == chunk[i];
    }
  }

  lemma DeletingStep(t1: Tree, h1: History, t: Tree, h: History, t2: Tree, h2: History,
                     roots: seq<Path>, nodes: seq<Path>, done: seq<Path>, chunk: seq<Path>)
    requires Deleting(t1, h1, t, h, roots, done)
    requires forall q :: q in nodes ==> Covered(Members(roots), q)
    requires forall q :: q in chunk ==> q in nodes
    requires Evolves(t, h, t2, h2, Members(chunk))
    requires forall p :: p in chunk ==> Cleared(t2, h2, |h|, p)
    ensures Deleting(t1, h1, t2, h2, roots, done + chunk)
  {
    EvolvesWiden(t, h, t2, h2, Members(chunk), Members(roots));
    EvolvesTransitive(t1, h1, t, h, t2, h2, Members(roots));
    StillCleared(t, h, t2, h2, Members(roots), |h1|, done);
    ClearedEarlierAll(t2, h2, |h1|, |h|, chunk);
  }

  /**
   * Delete the given nodes with everything below them. Whatever other clients do meanwhile, nothing
   * outside these subtrees is lost to this client, and what remains inside them was created by others.
   */
  method DeleteRecursive(zk: Session, paths: seq<Path>, dryRun: bool)
    requires zk.Valid()
    requires forall p :: p in paths ==> p != [] && ValidPath(p)
    modifies zk
    ensures Evolves(old(zk.tree), old(zk.history), zk.tree, zk.history, if dryRun then {} else Members(paths))
    ensures Work(zk.history, zk.foreign) == old(Work(zk.history, zk.foreign))
    ensures |zk.sent| >= |old(zk.sent)| && zk.sent[..|old(zk.sent)|] == old(zk.sent)
    ensures dryRun ==> zk.sent == old(zk.sent)
    ensures !dryRun ==> forall p :: p in paths ==> Cleared(zk.tree, zk.history, |old(zk.history)|, p)
    ensures !dryRun && zk.history == old(zk.history) ==> zk.tree == Without(old(zk.tree), paths)
    ensures !dryRun && zk.history == old(zk.history) && !SiblingSplitsFamily(Rendered(paths)) &&
              (forall p :: p in paths ==> p in old(zk.tree)) ==>
              OnePass(old(zk.tree), paths, zk.sent[|old(zk.sent)|..])
  {
    ghost var t0, h0 := zk.tree, zk.history;
    if paths == [] {
      assert Without(t0, paths) == t0;
      return;
    }
    var roots := TopmostPaths(paths);
    assert [] !in roots by {
      assert [] !in Members(paths);
    }
    var nodes := CollectNodes(zk, roots);
    if dryRun {
      return;
    }
    DeleteCollected(zk, t0, h0, paths, roots, nodes);
  }

  /** The second half: `t0` and `h0` are the tree and the history before the collection. */
  method DeleteCollected(zk: Session, ghost t0: Tree, ghost h0: History, ghost paths: seq<Path>,
                         roots: seq<Path>, nodes: seq<Path>)
    requires Evolves(t0, h0, zk.tree, zk.history, {}) && CoverEachOther(paths, roots)
    requires Collecting(h0, zk.tree, zk.history, roots, nodes, [])
    modifies zk
    ensures Work(zk.history, zk.foreign) == old(Work(zk.history, zk.foreign))
    ensures |zk.sent| >= |old(zk.sent)| && zk.sent[..|old(zk.sent)|] == old(zk.sent)
    ensures Concluded(t0, h0, zk.tree, zk.history, paths, roots, zk.sent[|old(zk.sent)|..])
  {
    ghost var t1, h1 := zk.tree, zk.history;
    DeleteChunks(zk, nodes, roots);
    Conclude(t0, h0, t1, h1, zk.tree, zk.history, paths, roots, nodes, zk.sent[|old(zk.sent)|..]);
  }

  /** What the deletion has achieved, among other clients and without them. */
  ghost predicate Concluded(t0: Tree, h0: History, t2: Tree, h2: History,
                            paths: seq<Path>, roots: seq<Path>, txns: seq<Txn>) {
    && Evolves(t0, h0, t2, h2, Members(paths))
    && (forall p :: p in paths ==> Cleared(t2, h2, |h0|, p))
    && (h2 == h0 ==> t2 == Without(t0, paths))
    && (h2 == h0 && Antichain(roots) && (forall p :: p in paths ==> p in t0) ==> OnePass(t0, paths, txns))
  }

  lemma {:induction false} Conclude(t0: Tree, h0: History, t1: Tree, h1: History, t2: Tree, h2: History,
                 paths: seq<Path>, roots: seq<Path>, nodes: seq<Path>, txns: seq<Txn>)
    requires Evolves(t0, h0, t1, h1, {}) && Evolves(t1, h1, t2, h2, Members(roots))
    requires CoverEachOther(paths, roots) && Collecting(h0, t1, h1, roots, nodes, [])
    requires forall p :: p in nodes ==> Cleared(t2, h2, |h1|, p)
    requires OnTrack(t1, h1, t2, h2, nodes, Reverse(nodes), txns) && |txns| <= Isqrt(|nodes|) + 2 && Sized(txns, |nodes|)
    ensures Concluded(t0, h0, t2, h2, paths, roots, txns)
  {
    Finish(t0, h0, t1, h1, t2, h2, paths, roots, nodes);
    OnePassWhenQuiet(t0, h0, t1, h1, t2, h2, paths, roots, nodes, txns);
  }

  /** The roots are some of the paths and lie above all of them. */
  ghost predicate CoverEachOther(paths: seq<Path>, roots: seq<Path>) {
    && Members(roots) <= Members(paths)
    && (forall p :: p in paths ==> exists i :: 0 <= i < |roots| && roots[i] <= p)
  }

  lemma {:induction false} OnePassWhenQuiet(t0: Tree, h0: History, t1: Tree, h1: History, t2: Tree, h2: History,
                         paths: seq<Path>, roots: seq<Path>, nodes: seq<Path>, txns: seq<Txn>)
    requires Evolves(t0, h0, t1, h1, {}) && h1 <= h2
    requires CoverEachOther(paths, roots) && Collecting(h0, t1, h1, roots, nodes, [])
    requires OnTrack(t1, h1, t2, h2, nodes, Reverse(nodes), txns) && |txns| <= Isqrt(|nodes|) + 2 && Sized(txns, |nodes|)
    requires h2 == h0 ==> t2 == Without(t0, paths)
    ensures h2 == h0 && Antichain(roots) && (forall p :: p in paths ==> p in t0) ==> OnePass(t0, paths, txns)
  {
    if h2 == h0 && Antichain(roots) && forall p :: p in paths ==> p in t0 {
      UnchangedTree(t0, h0, t1, h1);
      CollectedExactly(t0, h0, paths, roots, nodes);
    }
  }

  /** Collected and deleted, the subtrees of all requested paths are cleared. */
  lemma Finish(t0: Tree, h0: History, t1: Tree, h1: History, t2: Tree, h2: History,
               paths: seq<Path>, roots: seq<Path>, nodes: seq<Path>)
    requires Evolves(t0, h0, t1, h1, {}) && Evolves(t1, h1, t2, h2, Members(roots))
    requires Members(roots) <= Members(paths)
    requires forall p :: p in paths ==> exists i :: 0 <= i < |roots| && roots[i] <= p
    requires Reached(t1, h1, |h0|, roots, nodes, [])
    requires forall p :: p in nodes ==> Cleared(t2, h2, |h1|, p)
    ensures Evolves(t0, h0, t2, h2, Members(paths))
    ensures forall p :: p in paths ==> Cleared(t2, h2, |h0|, p)
    ensures h2 == h0 ==> t2 == Without(t0, paths)
  {
    FinishEvolves(t0, h0, t1, h1, t2, h2, paths, roots);
    forall p | p in paths ensures Cleared(t2, h2, |h0|, p) {
      var i :| 0 <= i < |roots| && roots[i] <= p;
      forall q | q in t2 && p <= q ensures CreatedSince(h2, |h0|, q) {
        assert roots[i] in roots;
        FinishNode(h0, t1, h1, t2, h2, roots, nodes, roots[i], q);
      }
    }
    FinishQuiet(t0, h0, t2, h2, paths);
  }

  lemma FinishEvolves(t0: Tree, h0: History, t1: Tree, h1: History, t2: Tree, h2: History,
                      paths: seq<Path>, roots: seq<Path>)
    requires Evolves(t0, h0, t1, h1, {}) && Evolves(t1, h1, t2, h2, Members(roots))
    requires Members(roots) <= Members(paths)
    ensures Evolves(t0, h0, t2, h2, Members(paths))
  {
    MembersCovered(paths);
    EvolvesWiden(t1, h1, t2, h2, Members(roots), Members(paths));
    EvolvesWiden(t0, h0, t1, h1, {}, Members(paths));
    EvolvesTransitive(t0, h0, t1, h1, t2, h2, Members(paths));
  }

  lemma FinishNode(h0: History, t1: Tree, h1: History, t2: Tree, h2: History,
                   roots: seq<Path>, nodes: seq<Path>, r: Path, q: Path)
    requires h0 <= h1 && Evolves(t1, h1, t2, h2, Members(roots))
    requires Reached(t1, h1, |h0|, roots, nodes, [])
    requires forall p :: p in nodes ==> Cleared(t2, h2, |h1|, p)
    requires r in roots && r <= q && q in t2
    ensures CreatedSince(h2, |h0|, q)
  {
    EvolvesAccounts(t1, h1, t2, h2, Members(roots));
    assert AccountedAt(t1, t2, h2, |h1|, Members(roots), q);
    CreatedLater(h1, h2, |h0|, |h1|, q);
    if q in t1 && q in nodes {
      assert Cleared(t2, h2, |h1|, q) && q <= q;
    }
  }

  lemma FinishQuiet(t0: Tree, h0: History, t2: Tree, h2: History, paths: seq<Path>)
    requires Evolves(t0, h0, t2, h2, Members(paths))
    requires forall p :: p in paths ==> Cleared(t2, h2, |h0|, p)
    ensures h2 == h0 ==> t2 == Without(t0, paths)
  {
    if h2 == h0 {
      forall q, p | q in t2 && p in paths ensures !(p <= q) {
        assert Cleared(t2, h2, |h0|, p);
      }
    }
  }

  /** An undisturbed collection from existing roots that cover the requested paths. */
  ghost predicate Collected(t: Tree, h: History, paths: seq<Path>, roots: seq<Path>, nodes: seq<Path>) {
    && WellFormed(t) && Antichain(roots)
    && Members(roots) <= Members(paths)
    && (forall p :: p in paths ==> p in t)
    && (forall p :: p in paths ==> exists i :: 0 <= i < |roots| && roots[i] <= p)
    && Collecting(h, t, h, roots, nodes, [])
  }

  lemma RootsExist(t: Tree, h: History, paths: seq<Path>, roots: seq<Path>, nodes: seq<Path>)
    requires Collected(t, h, paths, roots, nodes)
    ensures LevelOrder(t, roots, nodes, [])
  {
    forall r | r in roots ensures r in t {
      assert r in Members(roots) && r in Members(paths);
    }
  }

  lemma CollectedInside(t: Tree, h: History, paths: seq<Path>, roots: seq<Path>, nodes: seq<Path>, k: nat)
    requires Collected(t, h, paths, roots, nodes) && k < |nodes|
    ensures nodes[k] in t && Covered(Members(paths), nodes[k])
  {
    assert nodes + [] == nodes;
    RootsExist(t, h, paths, roots, nodes);
    assert nodes[k] in nodes && nodes[k] in t && Covered(Members(roots), nodes[k]);
    var r :| r in Members(roots) && r <= nodes[k];
    assert r in Members(paths);
  }

  lemma CollectedAll(t: Tree, h: History, paths: seq<Path>, roots: seq<Path>, nodes: seq<Path>, q: Path)
    requires Collected(t, h, paths, roots, nodes) && q in t && Covered(Members(paths), q)
    ensures q in nodes
  {
    var p :| p in Members(paths) && p <= q;
    var i :| 0 <= i < |roots| && roots[i] <= p;
    assert roots[i] in roots && roots[i] <= q;
    assert nodes + [] == nodes && !CreatedSince(h, |h|, q);
  }

  lemma CollectedComplete(t: Tree, h: History, paths: seq<Path>, roots: seq<Path>, nodes: seq<Path>)
    requires Collected(t, h, paths, roots, nodes)
    ensures Complete(t, nodes)
  {
    assert nodes + [] == nodes;
    RootsExist(t, h, paths, roots, nodes);
  }

  lemma CollectedExactly(t: Tree, h: History, paths: seq<Path>, roots: seq<Path>, nodes: seq<Path>)
    requires Collected(t, h, paths, roots, nodes)
    ensures Complete(t, nodes) && BottomUp(Reverse(nodes))
    ensures forall q :: q in Reverse(nodes) <==> q in t && Covered(Members(paths), q)
  {
    CollectedComplete(t, h, paths, roots, nodes);
    ReversedIsBottomUp(t, nodes);
    forall q ensures q in Reverse(nodes) <==> q in t && Covered(Members(paths), q) {
      InBothOrders(nodes, q);
      if q in nodes {
        var k :| 0 <= k < |nodes| && nodes[k] == q;
        CollectedInside(t, h, paths, roots, nodes, k);
      }
      if q in t && Covered(Members(paths), q) {
        CollectedAll(t, h, paths, roots, nodes, q);
      }
    }
  }

  lemma InBothOrders(nodes: seq<Path>, q: Path)
    ensures q in Reverse(nodes) <==> q in nodes
  {
    if q in nodes {
      var i :| 0 <= i < |nodes| && nodes[i] == q;
      assert Reverse(nodes)[|nodes| - 1 - i] == q;
    }
  }
}
