/** The search for replicated tables and databases, and the replicas of removed hosts found in them. */
module ReplicatedObjects {
  import opened ZkTree
  import opened TreeInspector
  import opened Text

  const REPLICAS := "replicas"

  /** Every request is answered from one unchanging tree, in whatever order of names. */
  ghost predicate AnswersFrom(answer: (nat, Path) -> Reply, t: Tree) {
    forall id: nat, p {:trigger Fits(t, p, answer(id, p))} :: Fits(t, p, answer(id, p))
  }

  ghost predicate Fits(t: Tree, p: Path, reply: Reply) {
    if p in t then reply.Listed? && Lists(reply.children, t, p) else reply.Vanished?
  }

  ghost predicate IsObject(t: Tree, p: Path) {
    p in t && "replicas" in Children(t, p)
  }

  /** No ancestor from the root on is an object, and nothing below the root on the way is excluded. */
  ghost predicate Reachable(t: Tree, root: Path, excluded: Path -> bool, p: Path) {
    && p in t && root <= p
    && (forall a :: root <= a && a <= p && a != p ==> !IsObject(t, a))
    && (forall a :: root <= a && a <= p && a != root ==> !excluded(a))
  }

  function NodePaths(nodes: seq<Node>): (r: seq<Path>)
    ensures |r| == |nodes|
  {
    seq(|nodes|, i requires 0 <= i < |nodes| => nodes[i].path)
  }

  ghost predicate AllListed(t: Tree, nodes: seq<Node>) {
    forall i :: 0 <= i < |nodes| ==> nodes[i].path in t && Lists(nodes[i].children, t, nodes[i].path)
  }

  lemma {:induction false} DeliveredFromTree(answer: (nat, Path) -> Reply, t: Tree, paths: seq<Path>, first: nat)
    requires AnswersFrom(answer, t) && forall p :: p in paths ==> p in t
    ensures NodePaths(Delivered(answer, paths, first)) == paths
    ensures AllListed(t, Delivered(answer, paths, first))
  {
    if paths != [] {
      assert Fits(t, paths[0], answer(first, paths[0]));
      DeliveredFromTree(answer, t, paths[1..], first + 1);
      var rest := Delivered(answer, paths[1..], first + 1);
      var head := Node(paths[0], answer(first, paths[0]).children);
      assert Delivered(answer, paths, first) == [head] + rest;
      assert NodePaths([head] + rest) == [paths[0]] + NodePaths(rest);
    }
  }

  lemma {:induction false} AnswersAreClean(answer: (nat, Path) -> Reply, t: Tree, paths: seq<Path>, first: nat)
    requires AnswersFrom(answer, t)
    ensures Clean(answer, paths, first)
  {
    if paths != [] {
      assert Fits(t, paths[0], answer(first, paths[0]));
      AnswersAreClean(answer, t, paths[1..], first + 1);
    }
  }

  // ---------------------------------------------------------------- the traversal

  ghost predicate ByDepth(s: seq<Path>) {
    forall i, j :: 0 <= i < j < |s| ==> |s[i]| <= |s[j]|
  }

  /** Everything reachable has been visited or still lies at or below a queued path. */
  ghost predicate Exhaustive(t: Tree, root: Path, excluded: Path -> bool, visited: seq<Path>, queue: seq<Path>) {
    forall p :: Reachable(t, root, excluded, p) ==> p in visited || AheadOf(queue, p)
  }

  ghost predicate AheadOf(queue: seq<Path>, p: Path) {
    exists i :: 0 <= i < |queue| && queue[i] <= p
  }

  /** Each listed path is reachable, and is the root or the child of a visited path. */
  ghost predicate Sound(t: Tree, root: Path, excluded: Path -> bool, visited: seq<Path>, all: seq<Path>) {
    && (forall p :: p in all ==> Reachable(t, root, excluded, p))
    && (forall i :: 0 <= i < |all| ==> all[i] == root || (all[i] != [] && Parent(all[i]) in visited))
  }

  ghost predicate OneLevelAhead(queue: seq<Path>) {
    forall i, j :: 0 <= i < |queue| && 0 <= j < |queue| ==> |queue[j]| <= |queue[i]| + 1
  }

  ghost predicate Traversal(t: Tree, root: Path, excluded: Path -> bool, visited: seq<Path>, queue: seq<Path>) {
    && Distinct(visited + queue)
    && ByDepth(visited + queue)
    && OneLevelAhead(queue)
    && Sound(t, root, excluded, visited, visited + queue)
    && Exhaustive(t, root, excluded, visited, queue)
  }

  lemma RootIsReachable(t: Tree, root: Path, excluded: Path -> bool)
    requires root in t
    ensures Reachable(t, root, excluded, root)
  {
  }

  lemma TraversalStart(t: Tree, root: Path, excluded: Path -> bool)
    requires WellFormed(t)
    ensures Traversal(t, root, excluded, [], if root in t then [root] else [])
  {
    var queue := if root in t then [root] else [];
    assert [] + queue == queue;
    if root in t {
      RootIsReachable(t, root, excluded);
    }
    forall p | Reachable(t, root, excluded, p) ensures AheadOf(queue, p) {
      AncestorPresent(t, root, p);
      assert queue[0] <= p;
    }
  }

  /** The children of a node that is no object, without the excluded ones. */
  function Wanted(p: Path, children: seq<string>, excluded: Path -> bool): seq<Path> {
    if children == [] then []
    else
      var n := |children| - 1;
      Wanted(p, children[..n], excluded) + if excluded(p + [children[n]]) then [] else [p + [children[n]]]
  }

  predicate ChildOf(p: Path, q: Path) {
    q != [] && Parent(q) == p
  }

  lemma ChildByName(p: Path, q: Path)
    requires ChildOf(p, q)
    ensures q == p + [q[|q| - 1]]
  {
  }

  lemma {:induction false} WantedMembers(p: Path, children: seq<string>, excluded: Path -> bool, q: Path)
    ensures q in Wanted(p, children, excluded) <==> ChildOf(p, q) && q[|q| - 1] in children && !excluded(q)
  {
    if children != [] {
      var n := |children| - 1;
      WantedMembers(p, children[..n], excluded, q);
      assert children == children[..n] + [children[n]];
      if ChildOf(p, q) {
        ChildByName(p, q);
      }
      assert ChildOf(p, p + [children[n]]);
    }
  }

  lemma {:induction false} WantedDistinct(p: Path, children: seq<string>, excluded: Path -> bool)
    requires forall i, j :: 0 <= i < j < |children| ==> children[i] != children[j]
    ensures Distinct(Wanted(p, children, excluded))
  {
    if children != [] {
      var n := |children| - 1;
      var front := Wanted(p, children[..n], excluded);
      WantedDistinct(p, children[..n], excluded);
      WantedMembers(p, children[..n], excluded, p + [children[n]]);
      assert p + [children[n]] !in front;
    }
  }

  /** What visiting `p` adds to the queue: nothing for an object, else its children not excluded. */
  ghost predicate Layer(t: Tree, excluded: Path -> bool, p: Path, more: seq<Path>) {
    && Distinct(more)
    && (IsObject(t, p) ==> more == [])
    && (!IsObject(t, p) ==> forall q :: q in more <==> q in t && ChildOf(p, q) && !excluded(q))
  }

  lemma WantedIsLayer(t: Tree, node: Node, excluded: Path -> bool)
    requires node.path in t && Lists(node.children, t, node.path)
    ensures Layer(t, excluded, node.path, if REPLICAS in node.children then [] else Wanted(node.path, node.children, excluded))
    ensures forall q :: q in Wanted(node.path, node.children, excluded) ==> q in t
  {
    WantedDistinct(node.path, node.children, excluded);
    forall q ensures q in Wanted(node.path, node.children, excluded) <==> q in t && ChildOf(node.path, q) && !excluded(q) {
      WantedMembers(node.path, node.children, excluded, q);
      if ChildOf(node.path, q) {
        ChildByName(node.path, q);
      }
    }
  }

  lemma PrefixOfChild(a: Path, p: Path, q: Path)
    requires ChildOf(p, q) && a <= q
    ensures a <= p || a == q
  {
    if |a| < |q| {
      assert a <= q[..|q| - 1];
    } else {
      assert a == q;
    }
  }

  /** A node below a reachable one that is no object is reachable unless it is excluded. */
  lemma ReachableChild(t: Tree, root: Path, excluded: Path -> bool, p: Path, q: Path)
    requires Reachable(t, root, excluded, p) && !IsObject(t, p)
    requires ChildOf(p, q) && q in t && !excluded(q)
    ensures Reachable(t, root, excluded, q)
  {
    ChildByName(p, q);
    forall a | root <= a && a <= q && a != q ensures !IsObject(t, a) {
      PrefixOfChild(a, p, q);
    }
    forall a | root <= a && a <= q && a != root ensures !excluded(a) {
      PrefixOfChild(a, p, q);
    }
  }

  lemma VisitStep(t: Tree, root: Path, excluded: Path -> bool, visited: seq<Path>, queue: seq<Path>, more: seq<Path>)
    requires WellFormed(t) && queue != [] && Traversal(t, root, excluded, visited, queue)
    requires Layer(t, excluded, queue[0], more)
    ensures Traversal(t, root, excluded, visited + [queue[0]], queue[1..] + more)
  {
    assert (visited + [queue[0]]) + (queue[1..] + more) == (visited + queue) + more by {
      assert queue == [queue[0]] + queue[1..];
    }
    assert (visited + queue)[|visited|] == queue[0];
    assert queue[0] in visited + queue;
    MoreIsSound(t, root, excluded, visited, queue, more);
    MoreIsFresh(t, root, excluded, visited, queue, more);
    MoreIsDeeper(t, excluded, visited, queue, more);
    VisitExhaustive(t, root, excluded, visited, queue, more);
  }

  lemma MoreIsSound(t: Tree, root: Path, excluded: Path -> bool, visited: seq<Path>, queue: seq<Path>, more: seq<Path>)
    requires queue != [] && Sound(t, root, excluded, visited, visited + queue)
    requires Layer(t, excluded, queue[0], more)
    ensures Sound(t, root, excluded, visited + [queue[0]], (visited + queue) + more)
  {
    assert queue[0] in visited + queue;
    forall q | q in more ensures Reachable(t, root, excluded, q) && ChildOf(queue[0], q) {
      ReachableChild(t, root, excluded, queue[0], q);
    }
    forall i | 0 <= i < |more| ensures ChildOf(queue[0], more[i]) {
      assert more[i] in more;
    }
  }

  lemma MoreIsFresh(t: Tree, root: Path, excluded: Path -> bool, visited: seq<Path>, queue: seq<Path>, more: seq<Path>)
    requires queue != [] && Sound(t, root, excluded, visited, visited + queue) && Distinct(visited + queue)
    requires Layer(t, excluded, queue[0], more)
    ensures Distinct((visited + queue) + more)
  {
    var all := visited + queue;
    assert all[|visited|] == queue[0] && queue[0] in all;
    forall k | 0 <= k < |visited| ensures visited[k] != queue[0] {
      assert all[k] == visited[k];
    }
    forall j | 0 <= j < |more| ensures more[j] !in all {
      assert more[j] in more;
      ChildByName(queue[0], more[j]);
      assert root <= queue[0] && more[j] != root;
    }
  }

  lemma MoreIsDeeper(t: Tree, excluded: Path -> bool, visited: seq<Path>, queue: seq<Path>, more: seq<Path>)
    requires queue != [] && ByDepth(visited + queue) && OneLevelAhead(queue)
    requires Layer(t, excluded, queue[0], more)
    ensures ByDepth((visited + queue) + more) && OneLevelAhead(queue[1..] + more)
  {
    var all, next, d := visited + queue, queue[1..] + more, |queue[0]|;
    forall j | 0 <= j < |more| ensures |more[j]| == d + 1 {
      assert more[j] in more;
    }
    forall i | 0 <= i < |queue| ensures d <= |queue[i]| <= d + 1 {
      assert all[|visited|] == queue[0] && all[|visited| + i] == queue[i];
    }
    forall i | 0 <= i < |all| ensures |all[i]| <= d + 1 {
      assert i < |visited| ==> |all[i]| <= |all[|visited|]|;
      assert i >= |visited| ==> all[i] == queue[i - |visited|];
    }
    forall i | 0 <= i < |next| ensures d <= |next[i]| <= d + 1 {
      assert i < |queue| - 1 ==> next[i] == queue[i + 1];
    }
  }

  lemma VisitExhaustive(
      t: Tree, root: Path, excluded: Path -> bool, visited: seq<Path>, queue: seq<Path>, more: seq<Path>)
    requires WellFormed(t) && queue != [] && Exhaustive(t, root, excluded, visited, queue)
    requires Reachable(t, root, excluded, queue[0])
    requires Layer(t, excluded, queue[0], more)
    ensures Exhaustive(t, root, excluded, visited + [queue[0]], queue[1..] + more)
  {
    var next := queue[1..] + more;
    forall q | Reachable(t, root, excluded, q) ensures q in visited + [queue[0]] || AheadOf(next, q) {
      if q !in visited && q != queue[0] {
        StillAhead(t, root, excluded, queue, more, q);
      }
    }
  }

  /** On the way from a node to a reachable one below it, the next node is one to be queued. */
  lemma TowardsReachable(t: Tree, root: Path, excluded: Path -> bool, p: Path, q: Path) returns (child: Path)
    requires WellFormed(t) && root <= p && p < q && Reachable(t, root, excluded, q)
    ensures !IsObject(t, p) && child in t && ChildOf(p, child) && !excluded(child) && child <= q
  {
    ChildTowards(t, p, q);
    child := p + [q[|p|]];
    assert child != root;
  }

  lemma AheadInRest(queue: seq<Path>, more: seq<Path>, i: nat, q: Path)
    requires 0 < i < |queue| && queue[i] <= q
    ensures AheadOf(queue[1..] + more, q)
  {
    assert (queue[1..] + more)[i - 1] == queue[i];
  }

  lemma AheadInMore(rest: seq<Path>, more: seq<Path>, child: Path, q: Path)
    requires child in more && child <= q
    ensures AheadOf(rest + more, q)
  {
    var k :| 0 <= k < |more| && more[k] == child;
    assert (rest + more)[|rest| + k] == child;
  }

  lemma StillAhead(t: Tree, root: Path, excluded: Path -> bool, queue: seq<Path>, more: seq<Path>, q: Path)
    requires WellFormed(t) && queue != [] && Layer(t, excluded, queue[0], more)
    requires AheadOf(queue, q) && q != queue[0] && root <= queue[0] && Reachable(t, root, excluded, q)
    ensures AheadOf(queue[1..] + more, q)
  {
    var i :| 0 <= i < |queue| && queue[i] <= q;
    if i > 0 {
      AheadInRest(queue, more, i, q);
    } else {
      var child := TowardsReachable(t, root, excluded, queue[0], q);
      AheadInMore(queue[1..], more, child, q);
    }
  }

  /** The objects found so far are the visited ones, each once and in the order of the visits. */
  ghost predicate FoundIn(t: Tree, visited: seq<Path>, objects: seq<Node>) {
    && AllListed(t, objects)
    && Distinct(NodePaths(objects)) && ByDepth(NodePaths(objects))
    && (forall p :: p in NodePaths(objects) <==> p in visited && IsObject(t, p))
  }

  lemma FoundStep(t: Tree, visited: seq<Path>, objects: seq<Node>, node: Node)
    requires FoundIn(t, visited, objects) && node.path in t && Lists(node.children, t, node.path)
    requires node.path !in visited && forall p :: p in visited ==> |p| <= |node.path|
    ensures FoundIn(t, visited + [node.path], if REPLICAS in node.children then objects + [node] else objects)
  {
    if REPLICAS in node.children {
      var grown := objects + [node];
      assert NodePaths(grown) == NodePaths(objects) + [node.path];
      forall i | 0 <= i < |objects| ensures NodePaths(objects)[i] in visited {
        assert NodePaths(objects)[i] in NodePaths(objects);
      }
    }
  }

  /** What the loop knows between two nodes; `queue` is what the inspector will still hand out. */
  ghost predicate Searching(t: Tree, root: Path, excluded: Path -> bool,
                            visited: seq<Path>, queue: seq<Node>, objects: seq<Node>) {
    && AllListed(t, queue)
    && Traversal(t, root, excluded, visited, NodePaths(queue))
    && FoundIn(t, visited, objects)
  }

  /** Visiting the head of the queue and queueing `more` after the rest. */
  lemma SearchStep(t: Tree, root: Path, excluded: Path -> bool,
                   visited: seq<Path>, queue: seq<Node>, objects: seq<Node>, more: seq<Node>)
    requires WellFormed(t) && queue != [] && Searching(t, root, excluded, visited, queue, objects)
    requires AllListed(t, more) && Layer(t, excluded, queue[0].path, NodePaths(more))
    ensures Searching(t, root, excluded, visited + [queue[0].path], queue[1..] + more,
                      if REPLICAS in queue[0].children then objects + [queue[0]] else objects)
  {
    QueueStep(t, root, excluded, visited, queue, more);
    HeadIsNew(visited, NodePaths(queue));
    FoundStep(t, visited, objects, queue[0]);
  }

  lemma QueueMoves(t: Tree, queue: seq<Node>, more: seq<Node>)
    requires queue != [] && AllListed(t, queue) && AllListed(t, more)
    ensures AllListed(t, queue[1..] + more)
    ensures NodePaths(queue)[0] == queue[0].path
    ensures NodePaths(queue[1..] + more) == NodePaths(queue)[1..] + NodePaths(more)
  {
  }

  lemma QueueStep(t: Tree, root: Path, excluded: Path -> bool, visited: seq<Path>, queue: seq<Node>, more: seq<Node>)
    requires WellFormed(t) && queue != [] && AllListed(t, queue) && AllListed(t, more)
    requires Traversal(t, root, excluded, visited, NodePaths(queue))
    requires Layer(t, excluded, queue[0].path, NodePaths(more))
    ensures AllListed(t, queue[1..] + more)
    ensures Traversal(t, root, excluded, visited + [queue[0].path], NodePaths(queue[1..] + more))
  {
    QueueMoves(t, queue, more);
    VisitStep(t, root, excluded, visited, NodePaths(queue), NodePaths(more));
  }

  lemma HeadIsNew(visited: seq<Path>, queue: seq<Path>)
    requires queue != [] && Distinct(visited + queue) && ByDepth(visited + queue)
    ensures queue[0] !in visited && forall p :: p in visited ==> |p| <= |queue[0]|
  {
    var all := visited + queue;
    assert all[|visited|] == queue[0];
    forall i | 0 <= i < |visited| ensures visited[i] != queue[0] && |visited[i]| <= |queue[0]| {
      assert all[i] == visited[i];
    }
  }

  lemma SearchStart(answer: (nat, Path) -> Reply, t: Tree, root: Path, excluded: Path -> bool)
    requires AnswersFrom(answer, t) && WellFormed(t)
    ensures Searching(t, root, excluded, [], Delivered(answer, [root], 0), [])
  {
    assert Fits(t, root, answer(0, root));
    TraversalStart(t, root, excluded);
    var queue := Delivered(answer, [root], 0);
    assert Delivered(answer, [root][1..], 1) == [];
    assert NodePaths(queue) == if root in t then [root] else [];
  }

  /** With an empty queue the visited paths are exactly the reachable ones. */
  lemma SearchEnd(t: Tree, root: Path, excluded: Path -> bool, visited: seq<Path>, objects: seq<Node>)
    requires Searching(t, root, excluded, visited, [], objects)
    ensures forall p :: p in NodePaths(objects) <==> Reachable(t, root, excluded, p) && IsObject(t, p)
  {
    assert visited + NodePaths([]) == visited;
  }

  lemma VisitedShrinks(
      t: Tree, root: Path, excluded: Path -> bool, visited: seq<Path>, queue: seq<Node>, objects: seq<Node>)
    requires queue != [] && Searching(t, root, excluded, visited, queue, objects)
    ensures |t.Keys - Members(visited + [queue[0].path])| < |t.Keys - Members(visited)|
  {
    var p := queue[0].path;
    assert NodePaths(queue)[0] == p;
    HeadIsNew(visited, NodePaths(queue));
    assert t.Keys - Members(visited + [p]) == (t.Keys - Members(visited)) - {p};
    assert p in t.Keys - Members(visited);
  }

  method ChildrenToTraverse(node: Node, excluded: Path -> bool) returns (paths: seq<Path>)
    ensures paths == Wanted(node.path, node.children, excluded)
  {
    paths := [];
    for i := 0 to |node.children|
      invariant paths == Wanted(node.path, node.children[..i], excluded)
    {
      assert node.children[..i + 1][..i] == node.children[..i];
      var fullPath := node.path + [node.children[i]];
      if !excluded(fullPath) {
        paths := paths + [fullPath];
      }
    }
    assert node.children[..|node.children|] == node.children;
  }

  /** A new inspector that has been given the root. */
  method StartAt(
      answer: (nat, Path) -> Reply, ghost t: Tree, root: Path, maxWorkers: nat) returns (inspector: Inspector)
    requires AnswersFrom(answer, t) && maxWorkers >= 1
    ensures fresh(inspector) && inspector.answer == answer && inspector.Valid() && inspector.NoErrorAhead()
    ensures inspector.Queue() == Delivered(answer, [root], 0)
  {
    inspector := new Inspector(answer, maxWorkers);
    AnswersAreClean(answer, t, [root], 0);
    var error := inspector.Add([root]);
    assert [] + Delivered(answer, [root], 0) == Delivered(answer, [root], 0);
  }

  /** `_traverse_zk_tree_and_find_objects` against a server that answers from the tree `t`. */
  method FindObjects(answer: (nat, Path) -> Reply, ghost t: Tree, root: Path, excluded: Path -> bool, maxWorkers: nat)
    returns (objects: seq<Node>)
    requires AnswersFrom(answer, t) && WellFormed(t) && maxWorkers >= 1
    ensures AllListed(t, objects)
    ensures forall p :: p in NodePaths(objects) <==> Reachable(t, root, excluded, p) && "replicas" in Children(t, p)
    ensures Distinct(NodePaths(objects)) && ByDepth(NodePaths(objects))
  {
    var inspector := StartAt(answer, t, root, maxWorkers);
    SearchStart(answer, t, root, excluded);
    objects := [];
    ghost var visited: seq<Path> := [];
    while true
      invariant inspector.answer == answer && inspector.Valid() && inspector.NoErrorAhead()
      invariant fresh(inspector)
      invariant Searching(t, root, excluded, visited, inspector.Queue(), objects)
      decreases |t.Keys - Members(visited)|
    {
      ghost var queue := inspector.Queue();
      var next := inspector.Get();
      if !next.Got? {
        SearchEnd(t, root, excluded, visited, objects);
        return;
      }
      VisitedShrinks(t, root, excluded, visited, queue, objects);
      ghost var more := QueueChildren(inspector, t, next.node, excluded);
      SearchStep(t, root, excluded, visited, queue, objects, more);
      if REPLICAS in next.node.children {
        objects := objects + [next.node];
      }
      visited := visited + [next.node.path];
    }
  }

  /** The rest of the loop body: an object is not descended into, of other nodes the children are queued. */
  method QueueChildren(
      inspector: Inspector, ghost t: Tree, node: Node, excluded: Path -> bool) returns (ghost more: seq<Node>)
    requires inspector.Valid() && inspector.NoErrorAhead() && AnswersFrom(inspector.answer, t)
    requires node.path in t && Lists(node.children, t, node.path)
    modifies inspector
    ensures inspector.Valid() && inspector.NoErrorAhead()
    ensures inspector.Queue() == old(inspector.Queue()) + more
    ensures AllListed(t, more) && Layer(t, excluded, node.path, NodePaths(more))
  {
    var paths := LayerToTraverse(t, node, excluded);
    assert unchanged(inspector);
    assert inspector.Valid() && inspector.NoErrorAhead() && inspector.Queue() == old(inspector.Queue());
    ghost var first := inspector.First() + |inspector.Open()|;
    more := MoreDelivered(inspector.answer, t, paths, first);
    AddPaths(inspector, paths, REPLICAS in node.children, first, more);
  }

  /** Queue the paths, if the loop gets to it. */
  method AddPaths(inspector: Inspector, paths: seq<Path>, isObject: bool, ghost first: nat, ghost more: seq<Node>)
    requires inspector.Valid() && inspector.NoErrorAhead() && (isObject ==> paths == [])
    requires first == inspector.First() + |inspector.Open()|
    requires Clean(inspector.answer, paths, first) && more == Delivered(inspector.answer, paths, first)
    modifies inspector
    ensures inspector.Valid() && inspector.NoErrorAhead()
    ensures inspector.Queue() == old(inspector.Queue()) + more
  {
    if !isObject {
      var error := inspector.Add(paths);
    }
  }

  /** What is queued for a node; nothing for an object. */
  method LayerToTraverse(ghost t: Tree, node: Node, excluded: Path -> bool) returns (paths: seq<Path>)
    requires node.path in t && Lists(node.children, t, node.path)
    ensures Layer(t, excluded, node.path, paths) && forall q :: q in paths ==> q in t
    ensures REPLICAS in node.children ==> paths == []
  {
    WantedIsLayer(t, node, excluded);
    paths := [];
    if REPLICAS !in node.children {
      paths := ChildrenToTraverse(node, excluded);
    }
  }

  /** What requests for existing paths from number `first` on will deliver. */
  lemma MoreDelivered(answer: (nat, Path) -> Reply, t: Tree, paths: seq<Path>, first: nat) returns (more: seq<Node>)
    requires AnswersFrom(answer, t) && forall q :: q in paths ==> q in t
    ensures Clean(answer, paths, first) && more == Delivered(answer, paths, first)
    ensures AllListed(t, more) && NodePaths(more) == paths
    ensures paths == [] ==> more == []
  {
    AnswersAreClean(answer, t, paths, first);
    DeliveredFromTree(answer, t, paths, first);
    more := Delivered(answer, paths, first);
  }

  // ---------------------------------------------------------------- replicas of removed hosts

  const DATABASE_MARKER := "DatabaseReplicated"

  /** A database replica is listed as its shard and its host, a table replica as its host. */
  datatype Plan =
    | Plan(databases: map<Path, seq<(string, string)>>, tables: map<Path, seq<string>>)
    | MalformedReplica(name: string)

  ghost predicate IsDatabase(t: Tree, p: Path) {
    p in t && t[p].value == "DatabaseReplicated"
  }

  /** The names below the `replicas` node of an object. */
  ghost function ReplicaNames(t: Tree, p: Path): set<string> {
    Children(t, p + ["replicas"])
  }

  function Listed<T>(m: map<Path, seq<T>>, p: Path): seq<T> {
    if p in m then m[p] else []
  }

  /** The replicas of a table that run on removed hosts, in the order the server lists them. */
  function TableDrops(names: seq<string>, hosts: set<string>): seq<string> {
    if names == [] then []
    else
      var n := |names| - 1;
      TableDrops(names[..n], hosts) + if names[n] in hosts then [names[n]] else []
  }

  lemma {:induction false} TableDropsExact(names: seq<string>, hosts: set<string>)
    requires forall i, j :: 0 <= i < j < |names| ==> names[i] != names[j]
    ensures forall r :: r in TableDrops(names, hosts) <==> r in names && r in hosts
    ensures forall i, j :: 0 <= i < j < |TableDrops(names, hosts)| ==>
              TableDrops(names, hosts)[i] != TableDrops(names, hosts)[j]
  {
    if names != [] {
      var n := |names| - 1;
      TableDropsExact(names[..n], hosts);
      assert names == names[..n] + [names[n]];
      assert names[n] !in names[..n];
      var front := TableDrops(names[..n], hosts);
      forall i | 0 <= i < |front| ensures front[i] != names[n] {
        assert front[i] in front;
      }
    }
  }

  /** The same for a database, whose replicas are named `shard|host`. */
  function DatabaseDrops(names: seq<string>, hosts: set<string>): seq<(string, string)>
    requires forall r :: r in names ==> |Split(r, '|')| == 2
  {
    if names == [] then []
    else
      var n := |names| - 1;
      assert names[n] in names;
      var parts := Split(names[n], '|');
      DatabaseDrops(names[..n], hosts) + if parts[1] in hosts then [(parts[0], parts[1])] else []
  }

  lemma {:induction false} DatabaseDropsHas(names: seq<string>, hosts: set<string>, shard: string, host: string)
    requires forall r :: r in names ==> |Split(r, '|')| == 2
    ensures (shard, host) in DatabaseDrops(names, hosts) <==>
              host in hosts && exists r :: r in names && Split(r, '|') == [shard, host]
  {
    if names != [] {
      var n := |names| - 1;
      var last, parts := names[n], Split(names[n], '|');
      DatabaseDropsHas(names[..n], hosts, shard, host);
      assert names == names[..n] + [last] && last in names;
      assert parts == [parts[0], parts[1]];
    }
  }

  /** Different names give different pairs. */
  lemma {:induction false} PairsDiffer(names: seq<string>, hosts: set<string>, last: string, i: nat)
    requires last !in names && |Split(last, '|')| == 2 && forall r :: r in names ==> |Split(r, '|')| == 2
    requires i < |DatabaseDrops(names, hosts)|
    ensures DatabaseDrops(names, hosts)[i] != (Split(last, '|')[0], Split(last, '|')[1])
  {
    var pair, parts := DatabaseDrops(names, hosts)[i], Split(last, '|');
    DatabaseDropsHas(names, hosts, pair.0, pair.1);
    assert pair in DatabaseDrops(names, hosts) && pair == (pair.0, pair.1);
    var r :| r in names && Split(r, '|') == [pair.0, pair.1];
    JoinSplit(r, '|');
    JoinSplit(last, '|');
    assert parts == [parts[0], parts[1]];
  }

  lemma {:induction false} DatabaseDropsOnce(names: seq<string>, hosts: set<string>)
    requires forall r :: r in names ==> |Split(r, '|')| == 2
    requires forall i, j :: 0 <= i < j < |names| ==> names[i] != names[j]
    ensures forall i, j :: 0 <= i < j < |DatabaseDrops(names, hosts)| ==>
              DatabaseDrops(names, hosts)[i] != DatabaseDrops(names, hosts)[j]
  {
    if names != [] {
      var n := |names| - 1;
      DatabaseDropsOnce(names[..n], hosts);
      assert names[n] in names && names[n] !in names[..n];
      assert forall r :: r in names[..n] ==> r in names;
      forall i | 0 <= i < |DatabaseDrops(names[..n], hosts)|
        ensures DatabaseDrops(names[..n], hosts)[i] != (Split(names[n], '|')[0], Split(names[n], '|')[1])
      {
        PairsDiffer(names[..n], hosts, names[n], i);
      }
    }
  }

  lemma {:induction false} DatabaseDropsExact(names: seq<string>, hosts: set<string>)
    requires forall r :: r in names ==> |Split(r, '|')| == 2
    requires forall i, j :: 0 <= i < j < |names| ==> names[i] != names[j]
    ensures forall shard, host :: (shard, host) in DatabaseDrops(names, hosts) <==>
                                  host in hosts && exists r :: r in names && Split(r, '|') == [shard, host]
    ensures forall i, j :: 0 <= i < j < |DatabaseDrops(names, hosts)| ==>
              DatabaseDrops(names, hosts)[i] != DatabaseDrops(names, hosts)[j]
  {
    DatabaseDropsOnce(names, hosts);
    forall shard, host
      ensures (shard, host) in DatabaseDrops(names, hosts) <==>
              host in hosts && exists r :: r in names && Split(r, '|') == [shard, host]
    {
      DatabaseDropsHas(names, hosts, shard, host);
    }
  }

  /** What the clean-up has to drop for one object. */
  ghost predicate PlanFor(t: Tree, hosts: set<string>, collectTables: bool, collectDatabases: bool, p: Path,
                          databases: seq<(string, string)>, tables: seq<string>)
  {
    && (forall i, j :: 0 <= i < j < |tables| ==> tables[i] != tables[j])
    && (forall i, j :: 0 <= i < j < |databases| ==> databases[i] != databases[j])
    && (forall r :: r in tables <==>
          collectTables && !IsDatabase(t, p) && r in ReplicaNames(t, p) && r in hosts)
    && (forall shard, host :: (shard, host) in databases <==>
          && collectDatabases && IsDatabase(t, p) && host in hosts
          && exists r :: r in ReplicaNames(t, p) && Split(r, '|') == [shard, host])
  }

  /** The plan covers the objects in `done`, and nothing else. */
  ghost predicate PlanCovers(
      t: Tree, hosts: set<string>, collectTables: bool, collectDatabases: bool, done: seq<Path>, plan: Plan)
  {
    && plan.Plan?
    && (forall p :: p in done ==>
          PlanFor(t, hosts, collectTables, collectDatabases, p, Listed(plan.databases, p), Listed(plan.tables, p)))
    && (forall p :: p !in done ==> p !in plan.databases && p !in plan.tables)
  }

  /** Some collected database has a replica whose name is not `shard|host`. */
  ghost predicate Malformed(t: Tree, p: Path) {
    IsDatabase(t, p) && exists r :: r in ReplicaNames(t, p) && |Split(r, '|')| != 2
  }

  /**
   * `_collect_objects_for_cleanup`: `list` is the order in which the server lists children. Collecting
   * fails exactly when a collected database has a replica name that does not split in two.
   */
  method CollectObjects(answer: (nat, Path) -> Reply, t: Tree, list: Path -> seq<string>, root: Path,
                        hosts: set<string>, collectTables: bool, collectDatabases: bool,
                        excluded: Path -> bool, maxWorkers: nat)
    returns (plan: Plan)
    requires AnswersFrom(answer, t) && WellFormed(t) && maxWorkers >= 1
    requires forall p :: Lists(list(p), t, p)
    ensures plan.MalformedReplica? <==>
              collectDatabases && exists p :: Reachable(t, root, excluded, p) && "replicas" in Children(t, p) && Malformed(t, p)
    ensures plan.Plan? ==> forall p :: Reachable(t, root, excluded, p) && "replicas" in Children(t, p) ==>
              PlanFor(t, hosts, collectTables, collectDatabases, p, Listed(plan.databases, p), Listed(plan.tables, p))
    ensures plan.Plan? ==> forall p :: !(Reachable(t, root, excluded, p) && "replicas" in Children(t, p)) ==>
              p !in plan.databases && p !in plan.tables
  {
    var objects := FindObjects(answer, t, root, excluded, maxWorkers);
    ghost var paths := NodePaths(objects);
    plan := Plan(map[], map[]);
    var i := 0;
    while i < |objects|
      invariant 0 <= i <= |objects|
      invariant PlanCovers(t, hosts, collectTables, collectDatabases, paths[..i], plan)
      invariant collectDatabases ==> forall p :: p in paths[..i] ==> !Malformed(t, p)
    {
      var p := objects[i].path;
      assert paths[i] == p && p in paths;
      assert paths[..i + 1] == paths[..i] + [p];
      var next := CollectObject(t, list, p, hosts, collectTables, collectDatabases, paths[..i], plan);
      if next.MalformedReplica? {
        return next;
      }
      plan := next;
      i := i + 1;
    }
    assert paths[..i] == paths;
  }

  /** Setting the drops of one more object leaves those of the others as they are. */
  lemma PlanGrows(t: Tree, hosts: set<string>, collectTables: bool, collectDatabases: bool, done: seq<Path>, plan: Plan,
                  p: Path, next: Plan)
    requires PlanCovers(t, hosts, collectTables, collectDatabases, done, plan) && p !in done && next.Plan?
    requires next.databases == plan.databases || (p in next.databases && next.databases == plan.databases[p := next.databases[p]])
    requires next.tables == plan.tables || (p in next.tables && next.tables == plan.tables[p := next.tables[p]])
    requires PlanFor(t, hosts, collectTables, collectDatabases, p, Listed(next.databases, p), Listed(next.tables, p))
    ensures PlanCovers(t, hosts, collectTables, collectDatabases, done + [p], next)
  {
    forall q | q in done
      ensures PlanFor(t, hosts, collectTables, collectDatabases, q, Listed(next.databases, q), Listed(next.tables, q))
    {
      assert q != p && Listed(next.databases, q) == Listed(plan.databases, q) && Listed(next.tables, q) == Listed(plan.tables, q);
    }
  }

  /** One object: read its value, list its replicas, pick those of the removed hosts. */
  method CollectObject(t: Tree, list: Path -> seq<string>, p: Path, hosts: set<string>,
                       collectTables: bool, collectDatabases: bool, ghost done: seq<Path>, plan: Plan)
    returns (next: Plan)
    requires p in t && p !in done && Lists(list(p + [REPLICAS]), t, p + [REPLICAS])
    requires PlanCovers(t, hosts, collectTables, collectDatabases, done, plan)
    ensures next.MalformedReplica? <==> collectDatabases && Malformed(t, p)
    ensures next.Plan? ==> PlanCovers(t, hosts, collectTables, collectDatabases, done + [p], next)
  {
    var isDatabase := t[p].value == DATABASE_MARKER;
    if (isDatabase && !collectDatabases) || (!isDatabase && !collectTables) {
      PlanGrows(t, hosts, collectTables, collectDatabases, done, plan, p, plan);
      return plan;
    }
    var names := list(p + [REPLICAS]);
    if isDatabase {
      var bad := FindMalformed(names);
      if bad < |names| {
        assert names[bad] in names;
        return MalformedReplica(names[bad]);
      }
      DatabaseDropsExact(names, hosts);
      var drops := DatabaseDrops(names, hosts);
      next := if drops == [] then plan else plan.(databases := plan.databases[p := drops]);
    } else {
      TableDropsExact(names, hosts);
      var drops := TableDrops(names, hosts);
      next := if drops == [] then plan else plan.(tables := plan.tables[p := drops]);
    }
    PlanGrows(t, hosts, collectTables, collectDatabases, done, plan, p, next);
  }

  /** Unpacking a name that does not split in two raises at the first such name. */
  method FindMalformed(names: seq<string>) returns (k: nat)
    ensures k <= |names|
    ensures k < |names| ==> |Split(names[k], '|')| != 2
    ensures forall i :: 0 <= i < k ==> |Split(names[i], '|')| == 2
  {
    k := 0;
    while k < |names| && |Split(names[k], '|')| == 2
      invariant k <= |names|
      invariant forall i :: 0 <= i < k ==> |Split(names[i], '|')| == 2
    {
      k := k + 1;
    }
  }
}
