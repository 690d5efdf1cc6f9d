/** A client session on a tree that other clients may change between any two of its requests. */
module ZooKeeper {
  import opened ZkTree

  /** An operation of another client, and the tree it met. */
  datatype Deed = Deed(op: Op, before: Tree) {
    predicate Effective() {
      Apply(before, op).Ok?
    }

    function Result(): Tree {
      if Effective() then Apply(before, op).tree else before
    }
  }

  /** What the other clients have done so far. */
  type History = seq<Deed>

  function Ops(h: History): (ops: seq<Op>)
    ensures |ops| == |h|
  {
    seq(|h|, i requires 0 <= i < |h| => h[i].op)
  }

  /** All that the other clients do during the session: what they have done and what they are still going to do. */
  function Work(h: History, foreign: seq<Op>): (ops: seq<Op>)
    ensures |ops| == |h| + |foreign|
  {
    Ops(h) + foreign
  }

  /** Some operation of `h` from index `n` on created `p`. */
  ghost predicate CreatedSince(h: History, n: nat, p: Path) {
    exists i :: n <= i < |h| && h[i].op.Create? && h[i].op.path == p && h[i].Effective()
  }

  ghost predicate SetSince(h: History, n: nat, p: Path) {
    exists i :: n <= i < |h| && h[i].op.Set? && h[i].op.path == p && h[i].Effective()
  }

  ghost predicate DeletedSince(h: History, n: nat, p: Path) {
    exists i :: n <= i < |h| && h[i].op.Delete? && h[i].op.path == p && h[i].Effective()
  }

  predicate Covered(roots: set<Path>, p: Path) {
    exists r :: r in roots && r <= p
  }

  /** `t1` is `t` without some nodes at or below the roots. */
  ghost predicate Pruned(t: Tree, t1: Tree, roots: set<Path>) {
    && (forall p :: p in t1 ==> p in t && t1[p] == t[p])
    && (forall p :: p in t && p !in t1 ==> Covered(roots, p))
  }

  /** The deeds, in their order and each on the tree it met, lead from `t0` to `t1`; only prunings come between them. */
  ghost predicate Leads(t0: Tree, deeds: History, t1: Tree, roots: set<Path>)
    decreases |deeds|
  {
    if deeds == [] then Pruned(t0, t1, roots)
    else
      && Pruned(t0, deeds[0].before, roots) && WellFormed(deeds[0].before)
      && Leads(deeds[0].Result(), deeds[1..], t1, roots)
  }

  lemma {:induction false} PrunedLeads(t: Tree, t0: Tree, deeds: History, t1: Tree, roots: set<Path>)
    requires Pruned(t, t0, roots) && Leads(t0, deeds, t1, roots)
    ensures Leads(t, deeds, t1, roots)
  {
  }

  lemma {:induction false} LeadsConcat(t0: Tree, a: History, t1: Tree, b: History, t2: Tree, roots: set<Path>)
    requires Leads(t0, a, t1, roots) && Leads(t1, b, t2, roots)
    ensures Leads(t0, a + b, t2, roots)
    decreases |a|
  {
    if a == [] {
      assert a + b == b;
      PrunedLeads(t0, t1, b, t2, roots);
    } else {
      assert (a + b)[1..] == a[1..] + b;
      LeadsConcat(a[0].Result(), a[1..], t1, b, t2, roots);
    }
  }

  lemma {:induction false} LeadsWiden(t0: Tree, deeds: History, t1: Tree, roots: set<Path>, wider: set<Path>)
    requires Leads(t0, deeds, t1, roots)
    requires forall p :: Covered(roots, p) ==> Covered(wider, p)
    ensures Leads(t0, deeds, t1, wider)
    decreases |deeds|
  {
    if deeds != [] {
      LeadsWiden(deeds[0].Result(), deeds[1..], t1, roots, wider);
    }
  }

  /** New or changed nodes are the work of other clients; lost ones are theirs or lie at or below one of the roots. */
  ghost predicate AccountedAt(t0: Tree, t1: Tree, h: History, n: nat, roots: set<Path>, p: Path) {
    && (p in t1 && p !in t0 ==> CreatedSince(h, n, p))
    && (p in t1 && p in t0 && t1[p] != t0[p] ==> CreatedSince(h, n, p) || SetSince(h, n, p))
    && (p in t0 && p !in t1 ==> Covered(roots, p) || DeletedSince(h, n, p))
  }

  ghost predicate Accounted(t0: Tree, t1: Tree, h: History, n: nat, roots: set<Path>) {
    forall p :: AccountedAt(t0, t1, h, n, roots, p)
  }

  /**
   * From tree `t0` with foreign history `h0` to `t1` with `h1`, while this client only deletes at or below the
   * roots.
   */
  ghost predicate Evolves(t0: Tree, h0: History, t1: Tree, h1: History, roots: set<Path>) {
    && h0 <= h1
    && WellFormed(t1)
    && Leads(t0, h1[|h0|..], t1, roots)
  }

  /** What follows for single nodes. */
  lemma EvolvesAccounts(t0: Tree, h0: History, t1: Tree, h1: History, roots: set<Path>)
    requires Evolves(t0, h0, t1, h1, roots)
    ensures Accounted(t0, t1, h1, |h0|, roots)
  {
    LeadsAccounts(t0, t1, h1, |h0|, roots);
  }

  lemma {:induction false} LeadsAccounts(t0: Tree, t1: Tree, h: History, n: nat, roots: set<Path>)
    requires n <= |h| && Leads(t0, h[n..], t1, roots)
    ensures Accounted(t0, t1, h, n, roots)
    decreases |h| - n
  {
    if n < |h| {
      assert h[n..][0] == h[n] && h[n..][1..] == h[n + 1..];
      LeadsAccounts(h[n].Result(), t1, h, n + 1, roots);
      DeedAccounts(t0, t1, h, n, roots);
    }
  }

  lemma DeedAccounts(t0: Tree, t1: Tree, h: History, n: nat, roots: set<Path>)
    requires n < |h| && Pruned(t0, h[n].before, roots) && Accounted(h[n].Result(), t1, h, n + 1, roots)
    ensures Accounted(t0, t1, h, n, roots)
  {
    forall p ensures AccountedAt(t0, t1, h, n, roots, p) {
      assert AccountedAt(h[n].Result(), t1, h, n + 1, roots, p);
      CreatedLater(h, h, n, n + 1, p);
    }
  }

  lemma EvolvesAlone(t0: Tree, t1: Tree, h: History, roots: set<Path>)
    requires WellFormed(t1) && Pruned(t0, t1, roots)
    ensures Evolves(t0, h, t1, h, roots)
  {
    assert h[|h|..] == [];
  }

  lemma DeedEvolves(t: Tree, h: History, op: Op)
    requires WellFormed(t)
    ensures Evolves(t, h, Deed(op, t).Result(), h + [Deed(op, t)], {})
  {
    var deed := Deed(op, t);
    var h1 := h + [deed];
    ApplyKeepsWellFormed(t, op);
    assert h1[|h|..] == [deed] && [deed][1..] == [];
    assert h1[|h|] == deed;
  }

  lemma WorkMoves(h: History, foreign: seq<Op>, deed: Deed)
    requires foreign != [] && deed.op == foreign[0]
    ensures Work(h + [deed], foreign[1..]) == Work(h, foreign)
  {
    assert Ops(h + [deed]) == Ops(h) + [deed.op];
  }

  /** Whatever is left at or below `p` was created by other clients since history length `n`. */
  ghost predicate Cleared(t: Tree, h: History, n: nat, p: Path) {
    forall q :: q in t && p <= q ==> CreatedSince(h, n, q)
  }

  lemma CreatedLater(h1: History, h2: History, m: nat, n: nat, p: Path)
    requires h1 <= h2 && m <= n
    ensures CreatedSince(h1, m, p) ==> CreatedSince(h2, m, p)
    ensures CreatedSince(h2, n, p) ==> CreatedSince(h2, m, p)
    ensures SetSince(h1, m, p) ==> SetSince(h2, m, p)
    ensures SetSince(h2, n, p) ==> SetSince(h2, m, p)
    ensures DeletedSince(h1, m, p) ==> DeletedSince(h2, m, p)
    ensures DeletedSince(h2, n, p) ==> DeletedSince(h2, m, p)
  {
    if CreatedSince(h1, m, p) {
      var i :| m <= i < |h1| && h1[i].op.Create? && h1[i].op.path == p && h1[i].Effective();
      assert h2[i] == h1[i];
    }
    if SetSince(h1, m, p) {
      var i :| m <= i < |h1| && h1[i].op.Set? && h1[i].op.path == p && h1[i].Effective();
      assert h2[i] == h1[i];
    }
    if DeletedSince(h1, m, p) {
      var i :| m <= i < |h1| && h1[i].op.Delete? && h1[i].op.path == p && h1[i].Effective();
      assert h2[i] == h1[i];
    }
  }

  lemma {:induction false} LeadsTransitive(
      t0: Tree, t1: Tree, t2: Tree, h0: History, h1: History, h2: History, roots: set<Path>)
    requires h0 <= h1 && h1 <= h2
    requires Leads(t0, h1[|h0|..], t1, roots) && Leads(t1, h2[|h1|..], t2, roots)
    ensures Leads(t0, h2[|h0|..], t2, roots)
  {
    LeadsConcat(t0, h1[|h0|..], t1, h2[|h1|..], t2, roots);
    assert h2[|h0|..] == h1[|h0|..] + h2[|h1|..];
  }

  lemma EvolvesTransitive(t0: Tree, h0: History, t1: Tree, h1: History, t2: Tree, h2: History, roots: set<Path>)
    requires Evolves(t0, h0, t1, h1, roots) && Evolves(t1, h1, t2, h2, roots)
    ensures Evolves(t0, h0, t2, h2, roots)
  {
    LeadsTransitive(t0, t1, t2, h0, h1, h2, roots);
  }

  lemma EvolvesWiden(t0: Tree, h0: History, t1: Tree, h1: History, roots: set<Path>, wider: set<Path>)
    requires Evolves(t0, h0, t1, h1, roots)
    requires forall r :: r in roots ==> Covered(wider, r)
    ensures Evolves(t0, h0, t1, h1, wider)
  {
    forall p | Covered(roots, p) ensures Covered(wider, p) {
      var r :| r in roots && r <= p;
      var w :| w in wider && w <= r;
      assert w <= p;
    }
    LeadsWiden(t0, h1[|h0|..], t1, roots, wider);
  }

  /** What has been cleared stays so: anything that appears later is the work of others. */
  lemma ClearedStays(t1: Tree, h1: History, t2: Tree, h2: History, roots: set<Path>, m: nat, n: nat, p: Path)
    requires m <= n <= |h1|
    requires Cleared(t1, h1, n, p) && Evolves(t1, h1, t2, h2, roots)
    ensures Cleared(t2, h2, m, p)
  {
    EvolvesAccounts(t1, h1, t2, h2, roots);
    forall q | q in t2 && p <= q ensures CreatedSince(h2, m, q) {
      assert AccountedAt(t1, t2, h2, |h1|, roots, q);
      CreatedLater(h1, h2, n, |h1|, q);
      CreatedLater(h2, h2, m, n, q);
    }
  }

  // ---------------------------------------------------------------- creates below a node

  /** Another client has created a node strictly below `p` since history length `n`. */
  ghost predicate NewBelow(h: History, n: nat, p: Path) {
    exists q :: p < q && CreatedSince(h, n, q)
  }

  lemma NewBelowWider(h: History, m: nat, n: nat, p: Path, below: Path)
    requires m <= n && p <= below && NewBelow(h, n, below)
    ensures NewBelow(h, m, p)
  {
    var q :| below < q && CreatedSince(h, n, q);
    CreatedLater(h, h, m, n, q);
    assert p < q;
  }

  /** How many nodes strictly below `p` other clients have created since history length `n`. */
  ghost function CreatesBelow(h: History, n: nat, p: Path): nat
    decreases |h| - n
  {
    if n >= |h| then 0
    else (if h[n].op.Create? && p < h[n].op.path && h[n].Effective() then 1 else 0) + CreatesBelow(h, n + 1, p)
  }

  lemma {:induction false} CreatesSplit(h1: History, h2: History, n: nat, p: Path)
    requires h1 <= h2 && n <= |h1|
    ensures CreatesBelow(h2, n, p) == CreatesBelow(h1, n, p) + CreatesBelow(h2, |h1|, p)
    decreases |h1| - n
  {
    if n < |h1| {
      CreatesSplit(h1, h2, n + 1, p);
    }
  }

  lemma {:induction false} NewBelowCounts(h: History, n: nat, p: Path)
    requires NewBelow(h, n, p)
    ensures n < |h| && CreatesBelow(h, n, p) >= 1
  {
    var q :| p < q && CreatedSince(h, n, q);
    var i :| n <= i < |h| && h[i].op.Create? && h[i].op.path == q && h[i].Effective();
    CreatesSplit(h[..i], h, n, p);
  }

  datatype DeleteResult = Deleted | NoNodeError | NotEmptyError

  /** A delete transaction this session has sent, and the tree it met. */
  datatype Txn = Txn(nodes: seq<Path>, before: Tree) {
    predicate Committed() {
      Multi(before, Deletes(nodes)).Committed?
    }
  }

  class Session {
    var tree: Tree
    var foreign: seq<Op>
    ghost var history: History
    ghost var sent: seq<Txn>

    ghost predicate Valid()
      reads this
    {
      WellFormed(tree)
    }

    constructor (tree: Tree, foreign: seq<Op>)
      requires WellFormed(tree)
      ensures Valid() && this.tree == tree && this.foreign == foreign && history == [] && sent == []
    {
      this.tree, this.foreign, this.history, this.sent := tree, foreign, [], [];
    }

    /** Other clients get some of their operations in; those that fail change nothing. */
    method OthersAct()
      requires Valid()
      modifies this`tree, this`foreign, this`history
      ensures Evolves(old(tree), old(history), tree, history, {})
      ensures Work(history, foreign) == old(Work(history, foreign))
    {
      var n: nat :| n <= |foreign|;
      EvolvesAlone(tree, tree, history, {});
      while n > 0
        invariant n <= |foreign|
        invariant Evolves(old(tree), old(history), tree, history, {})
        invariant Work(history, foreign) == old(Work(history, foreign))
      {
        ghost var t, h := tree, history;
        var op := foreign[0];
        DeedEvolves(t, h, op);
        WorkMoves(h, foreign, Deed(op, t));
        match Apply(tree, op) {
          case Ok(t1) =>
            tree := t1;
          case Failed(_) =>
        }
        foreign := foreign[1..];
        history := history + [Deed(op, t)];
        EvolvesTransitive(old(tree), old(history), t, h, tree, history, {});
        n := n - 1;
      }
    }

    method Exists(p: Path) returns (present: bool)
      requires Valid()
      modifies this`tree, this`foreign, this`history
      ensures Evolves(old(tree), old(history), tree, history, {})
      ensures Work(history, foreign) == old(Work(history, foreign))
      ensures present == (p in tree)
    {
      OthersAct();
      present := p in tree;
    }

    /** Send a transaction; `before` is the tree the server applies it to. */
    method Commit(ops: seq<Op>) returns (outcome: Outcome, ghost before: Tree)
      requires Valid()
      modifies this`tree, this`foreign, this`history
      ensures Evolves(old(tree), old(history), before, history, {})
      ensures Work(history, foreign) == old(Work(history, foreign))
      ensures outcome == Multi(before, ops) && tree == After(before, ops) && Valid()
    {
      OthersAct();
      before := tree;
      outcome := Multi(tree, ops);
      MultiKeepsWellFormed(tree, ops);
      tree := After(tree, ops);
    }

    method GetChildren(p: Path) returns (names: set<string>)
      requires Valid()
      modifies this`tree, this`foreign, this`history
      ensures Evolves(old(tree), old(history), tree, history, {})
      ensures Work(history, foreign) == old(Work(history, foreign))
      ensures names == Children(tree, p)
    {
      OthersAct();
      names := Children(tree, p);
    }

    /** A single delete; a node that is already gone counts as deleted. */
    method DeleteNode(p: Path) returns (r: DeleteResult)
      requires Valid() && p != []
      modifies this`tree, this`foreign, this`history
      ensures Evolves(old(tree), old(history), tree, history, {p})
      ensures Work(history, foreign) == old(Work(history, foreign))
      ensures r.NotEmptyError? ==> Children(tree, p) != {}
      ensures !r.NotEmptyError? ==> Cleared(tree, history, |old(history)|, p)
    {
      OthersAct();
      ghost var t0, h0, t := old(tree), old(history), tree;
      EvolvesWiden(t0, h0, tree, history, {}, {p});
      match Apply(tree, Delete(p)) {
        case Ok(t1) =>
          DeleteLeavesNothingBelow(tree, p);
          tree := t1;
          assert Covered({p}, p) by { assert p in {p}; }
          EvolvesTransitive(t0, h0, t, history, tree, history, {p});
          return Deleted;
        case Failed(e) =>
          if e == NotEmpty {
            return NotEmptyError;
          }
          NothingBelowAbsent(tree, history, |h0|, p);
          return NoNodeError;
      }
    }

    /** The client library's `delete(path, recursive=True)`: children first, then the node. */
    method DeleteSubtree(p: Path) returns (r: DeleteResult)
      requires Valid() && p != []
      modifies this`tree, this`foreign, this`history
      ensures Evolves(old(tree), old(history), tree, history, {p})
      ensures Work(history, foreign) == old(Work(history, foreign))
      ensures !r.NotEmptyError? ==> Cleared(tree, history, |old(history)|, p)
      ensures r.NotEmptyError? ==> NewBelow(history, |old(history)|, p)
      decreases |foreign|, |Below(tree, p)|, 1
    {
      ghost var t0, h0 := tree, history;
      var names := GetChildren(p);
      EvolvesWiden(t0, h0, tree, history, {}, {p});
      ghost var t1, h1 := tree, history;
      if p !in tree {
        NothingBelowAbsent(tree, history, |h0|, p);
        return NoNodeError;
      }
      NoLargerBelow(t0, h0, t1, h1, p);
      r := DeleteChildren(p, names);
      EvolvesTransitive(t0, h0, t1, h1, tree, history, {p});
      if r.NotEmptyError? {
        NewBelowWider(history, |h0|, |h1|, p, p);
        return;
      }
      ghost var t2, h2 := tree, history;
      r := DeleteNode(p);
      EvolvesTransitive(t1, h1, t2, h2, tree, history, {p});
      EvolvesTransitive(t0, h0, t1, h1, tree, history, {p});
      if r.NotEmptyError? {
        StillClearedAll(t2, h2, tree, history, |h1|, p, names);
        ChildrenCleared(t1, h1, tree, history, {p}, |h1|, p);
        var c :| c in Children(tree, p);
        assert p < p + [c] && CreatedSince(history, |h1|, p + [c]);
        NewBelowWider(history, |h0|, |h1|, p, p);
      } else {
        ClearedEarlier(tree, history, |h0|, |h2|, p);
      }
    }

    method DeleteChildren(p: Path, names: set<string>) returns (r: DeleteResult)
      requires Valid() && p in tree
      modifies this`tree, this`foreign, this`history
      ensures Evolves(old(tree), old(history), tree, history, {p})
      ensures Work(history, foreign) == old(Work(history, foreign))
      ensures !r.NotEmptyError? ==> forall c :: c in names ==> Cleared(tree, history, |old(history)|, p + [c])
      ensures r.NotEmptyError? ==> NewBelow(history, |old(history)|, p)
      decreases |foreign|, |Below(tree, p)|, 0
    {
      ghost var t0, h0 := tree, history;
      var todo := names;
      while todo != {}
        invariant todo <= names
        invariant Evolves(t0, h0, tree, history, {p})
        invariant Work(history, foreign) == Work(h0, old(foreign))
        invariant forall c :: c in names - todo ==> Cleared(tree, history, |h0|, p + [c])
        decreases |todo|
      {
        var c :| c in todo;
        ghost var t, h := tree, history;
        SmallerBelow(t0, h0, tree, history, p, c);
        var inner := DeleteSubtree(p + [c]);
        ChildCovered(p, c);
        EvolvesWiden(t, h, tree, history, {p + [c]}, {p});
        EvolvesTransitive(t0, h0, t, h, tree, history, {p});
        if inner.NotEmptyError? {
          NewBelowWider(history, |h0|, |h|, p, p + [c]);
          return NotEmptyError;
        }
        ClearedEarlier(tree, history, |h0|, |h|, p + [c]);
        StillClearedAll(t, h, tree, history, |h0|, p, names - todo);
        todo := todo - {c};
      }
      return Deleted;
    }
  }

  lemma ChildCovered(p: Path, c: string)
    ensures forall r :: r in {p + [c]} ==> Covered({p}, r)
  {
    assert p in {p} && p <= p + [c];
  }

  lemma ClearedEarlier(t: Tree, h: History, m: nat, n: nat, p: Path)
    requires m <= n && Cleared(t, h, n, p)
    ensures Cleared(t, h, m, p)
  {
    forall q | q in t && p <= q ensures CreatedSince(h, m, q) {
      CreatedLater(h, h, m, n, q);
    }
  }

  lemma StillClearedAll(t1: Tree, h1: History, t2: Tree, h2: History, n: nat, p: Path, names: set<string>)
    requires n <= |h1| && Evolves(t1, h1, t2, h2, {p})
    requires forall c :: c in names ==> Cleared(t1, h1, n, p + [c])
    ensures forall c :: c in names ==> Cleared(t2, h2, n, p + [c])
  {
    forall c | c in names ensures Cleared(t2, h2, n, p + [c]) {
      ClearedStays(t1, h1, t2, h2, {p}, n, n, p + [c]);
    }
  }

  lemma NothingBelowAbsent(t: Tree, h: History, n: nat, p: Path)
    requires WellFormed(t) && p !in t
    ensures Cleared(t, h, n, p)
  {
    forall q | q in t ensures !(p <= q) {
      if p <= q {
        AncestorPresent(t, p, q);
      }
    }
  }

  /** Once the children listed at `t1` are cleared, everything strictly below `p` is. */
  lemma ChildrenCleared(t1: Tree, h1: History, t2: Tree, h2: History, roots: set<Path>, m: nat, p: Path)
    requires m <= |h1| && WellFormed(t1) && Evolves(t1, h1, t2, h2, roots)
    requires forall c :: c in Children(t1, p) ==> Cleared(t2, h2, m, p + [c])
    ensures forall q :: q in t2 && p <= q && q != p ==> CreatedSince(h2, m, q)
  {
    EvolvesAccounts(t1, h1, t2, h2, roots);
    forall q | q in t2 && p <= q && q != p ensures CreatedSince(h2, m, q) {
      assert AccountedAt(t1, t2, h2, |h1|, roots, q);
      if q in t1 {
        ChildTowards(t1, p, q);
      } else {
        CreatedLater(h2, h2, m, |h1|, q);
      }
    }
  }

  /** Unless others acted, a child has fewer nodes below it than its parent had. */
  lemma SmallerBelow(t0: Tree, h0: History, t: Tree, h: History, p: Path, c: string)
    requires p in t0 || |h| > |h0|
    requires Evolves(t0, h0, t, h, {p})
    ensures |h| > |h0| || |Below(t, p + [c])| < |Below(t0, p)|
  {
    if |h| == |h0| {
      assert Below(t, p + [c]) <= Below(t0, p) - {p};
      SubsetCardinality(Below(t, p + [c]), Below(t0, p) - {p});
    }
  }

  lemma NoLargerBelow(t0: Tree, h0: History, t: Tree, h: History, p: Path)
    requires Evolves(t0, h0, t, h, {p})
    ensures |h| > |h0| || |Below(t, p)| <= |Below(t0, p)|
  {
    if |h| == |h0| {
      SubsetCardinality(Below(t, p), Below(t0, p));
    }
  }

  lemma {:induction false} SubsetCardinality<T>(a: set<T>, b: set<T>)
    requires a <= b
    ensures |a| <= |b|
  {
    if a != {} {
      var x :| x in a;
      SubsetCardinality(a - {x}, b - {x});
    }
  }
}
