/** Creating the zero-copy locks of one part for several replicas in a single transaction. */
module ZeroCopy {
  import opened ZkTree
  import opened ZooKeeper
  import opened Text
  import opened Sorting
  import DR = DeleteRecursive

  datatype LockInfo = LockInfo(lockPath: Path, partPath: Path)

  datatype Attempt = NothingToDo | DryRun | Created | Raised(error: Error)

  // ---------------------------------------------------------------- a transaction of creates

  datatype New = New(path: Path, value: string)

  function Creates(news: seq<New>): (ops: seq<Op>)
    ensures |ops| == |news|
  {
    seq(|news|, i requires 0 <= i < |news| => Create(news[i].path, news[i].value))
  }

  /** Every node is absent, legal and listed once, and its parent exists or is listed before it. */
  ghost predicate Creatable(t: Tree, news: seq<New>) {
    && (forall i :: 0 <= i < |news| ==> news[i].path != [] && ValidPath(news[i].path) && news[i].path !in t)
    && (forall i, j :: 0 <= i < j < |news| ==> news[i].path != news[j].path)
    && (forall i :: 0 <= i < |news| ==> Parent(news[i].path) in t || ListedBefore(news, i, Parent(news[i].path)))
  }

  ghost predicate ListedBefore(news: seq<New>, i: nat, p: Path)
    requires i <= |news|
  {
    exists k :: 0 <= k < i && news[k].path == p
  }

  function Add(t: Tree, news: seq<New>): Tree
    decreases |news|
  {
    if news == [] then t else Add(t[news[0].path := Znode(news[0].value, 0)], news[1..])
  }

  lemma {:induction false} CreatableCommits(t: Tree, news: seq<New>)
    requires Creatable(t, news)
    ensures Multi(t, Creates(news)) == Committed(Add(t, news))
    decreases |news|
  {
    if news != [] {
      var t1 := t[news[0].path := Znode(news[0].value, 0)];
      assert Creates(news)[0] == Create(news[0].path, news[0].value);
      assert Creates(news)[1..] == Creates(news[1..]);
      assert !ListedBefore(news, 0, Parent(news[0].path));
      CreatableRest(t, news);
      CreatableCommits(t1, news[1..]);
    }
  }

  lemma CreatableRest(t: Tree, news: seq<New>)
    requires news != [] && Creatable(t, news)
    ensures Creatable(t[news[0].path := Znode(news[0].value, 0)], news[1..])
  {
    var t1, rest := t[news[0].path := Znode(news[0].value, 0)], news[1..];
    forall i | 0 <= i < |rest| ensures Parent(rest[i].path) in t1 || ListedBefore(rest, i, Parent(rest[i].path)) {
      assert rest[i] == news[i + 1];
      if Parent(news[i + 1].path) !in t1 {
        var k :| 0 <= k < i + 1 && news[k].path == Parent(news[i + 1].path);
        assert rest[k - 1].path == Parent(rest[i].path);
      }
    }
  }

  /** What adding the nodes amounts to. */
  lemma {:induction false} Added(t: Tree, news: seq<New>)
    requires forall i :: 0 <= i < |news| ==> news[i].path !in t
    requires forall i, j :: 0 <= i < j < |news| ==> news[i].path != news[j].path
    ensures forall p :: p in t ==> p in Add(t, news) && Add(t, news)[p] == t[p]
    ensures forall i :: 0 <= i < |news| ==> news[i].path in Add(t, news) && Add(t, news)[news[i].path] == Znode(news[i].value, 0)
    ensures forall p :: p in Add(t, news) && p !in t ==> ListedBefore(news, |news|, p)
    decreases |news|
  {
    if news != [] {
      var t1, rest := t[news[0].path := Znode(news[0].value, 0)], news[1..];
      Added(t1, rest);
      forall i | 0 <= i < |news| ensures news[i].path in Add(t, news) && Add(t, news)[news[i].path] == Znode(news[i].value, 0) {
        if i > 0 {
          assert news[i] == rest[i - 1];
        } else {
          assert news[0].path in t1;
        }
      }
      forall p | p in Add(t, news) && p !in t ensures ListedBefore(news, |news|, p) {
        if p != news[0].path {
          assert p !in t1 && ListedBefore(rest, |rest|, p);
          var k :| 0 <= k < |rest| && rest[k].path == p;
          assert news[k + 1].path == p;
        }
      }
    }
  }

  function Checks(parts: seq<(Path, nat)>): (ops: seq<Op>)
    ensures |ops| == |parts|
  {
    seq(|parts|, i requires 0 <= i < |parts| => Check(parts[i].0, parts[i].1))
  }

  /** The parts are there in the version seen before. */
  ghost predicate PartsHold(t: Tree, parts: seq<(Path, nat)>) {
    forall i :: 0 <= i < |parts| ==> parts[i].0 in t && t[parts[i].0].version == parts[i].1
  }

  lemma PartsHoldSplit(t: Tree, parts: seq<(Path, nat)>)
    requires parts != []
    ensures PartsHold(t, parts) <==>
            parts[0].0 in t && t[parts[0].0].version == parts[0].1 && PartsHold(t, parts[1..])
  {
    if parts[0].0 in t && t[parts[0].0].version == parts[0].1 && PartsHold(t, parts[1..]) {
      forall i | 0 <= i < |parts| ensures parts[i].0 in t && t[parts[i].0].version == parts[i].1 {
        assert i > 0 ==> parts[i] == parts[1..][i - 1];
      }
    }
    if PartsHold(t, parts) {
      forall i | 0 <= i < |parts[1..]| ensures parts[1..][i].0 in t && t[parts[1..][i].0].version == parts[1..][i].1 {
        assert parts[1..][i] == parts[i + 1];
      }
    }
  }

  /** An outcome, with the failing position moved back by the operations ahead. */
  function Shifted(outcome: Outcome, ahead: nat): Outcome {
    match outcome case Committed(t) => Committed(t) case Aborted(at, e) => Aborted(ahead + at, e)
  }

  /** Version checks guard the rest: the transaction can commit only if all of them hold. */
  lemma {:induction false} ChecksGuard(t: Tree, parts: seq<(Path, nat)>, rest: seq<Op>)
    ensures PartsHold(t, parts) ==> Multi(t, Checks(parts) + rest) == Shifted(Multi(t, rest), |parts|)
    ensures Multi(t, Checks(parts) + rest).Committed? ==> PartsHold(t, parts)
    decreases |parts|
  {
    var ops := Checks(parts) + rest;
    if parts == [] {
      assert ops == rest;
    } else {
      assert ops[0] == Check(parts[0].0, parts[0].1);
      assert ops[1..] == Checks(parts[1..]) + rest;
      ChecksGuard(t, parts[1..], rest);
      PartsHoldSplit(t, parts);
    }
  }

  // ---------------------------------------------------------------- missing ancestors

  /** The text of a parent path as the code joins it: without a leading separator. */
  function Relative(p: Path): string {
    Join(p, '/')
  }

  predicate TextLe(a: Path, b: Path) {
    StringLe(Relative(a), Relative(b))
  }

  lemma TextLeIsTotalPreorder()
    ensures TotalPreorder(TextLe)
  {
    forall a, b ensures TextLe(a, b) || TextLe(b, a) {
      StringLeTotal(Relative(a), Relative(b));
    }
    forall a, b, c | TextLe(a, b) && TextLe(b, c) ensures TextLe(a, c) {
      StringLeTransitive(Relative(a), Relative(b), Relative(c));
    }
  }

  /** A parent sorts before its children, and only before. */
  lemma ParentSortsFirst(p: Path)
    requires p != [] && ValidPath(p)
    ensures !TextLe(p, Parent(p))
  {
    var a := Parent(p);
    assert p == a + [p[|p| - 1]];
    if a == [] {
      assert Relative(p) == p[0];
    } else {
      JoinConcat(a, [p[|p| - 1]], '/');
      PrefixIsBelow(Relative(a), Relative(p));
      if TextLe(p, a) {
        StringLeAntisymmetric(Relative(a), Relative(p));
      }
    }
  }

  // ---------------------------------------------------------------- what was seen among other clients

  /** From `t0` on, with the deeds of `h` from index `n` on, the node has been there at some time. */
  ghost predicate WasThere(t0: Tree, h: History, n: nat, p: Path) {
    p in t0 || CreatedSince(h, n, p)
  }

  ghost predicate WasMissing(t0: Tree, h: History, n: nat, p: Path) {
    p !in t0 || DeletedSince(h, n, p)
  }

  ghost predicate HadVersion(t0: Tree, h: History, n: nat, p: Path, version: nat) {
    (p in t0 && t0[p].version == version) || CreatedSince(h, n, p) || SetSince(h, n, p)
  }

  /** What a look at tree `t` tells. */
  lemma Seen(t0: Tree, h0: History, t: Tree, h: History, p: Path)
    requires Evolves(t0, h0, t, h, {})
    ensures if p in t then WasThere(t0, h, |h0|, p) && HadVersion(t0, h, |h0|, p, t[p].version)
            else WasMissing(t0, h, |h0|, p)
  {
    EvolvesAccounts(t0, h0, t, h, {});
    assert AccountedAt(t0, t, h, |h0|, {}, p);
  }

  lemma WasLater(t0: Tree, h1: History, h2: History, n: nat, p: Path, version: nat)
    requires h1 <= h2
    ensures WasThere(t0, h1, n, p) ==> WasThere(t0, h2, n, p)
    ensures WasMissing(t0, h1, n, p) ==> WasMissing(t0, h2, n, p)
    ensures HadVersion(t0, h1, n, p, version) ==> HadVersion(t0, h2, n, p, version)
  {
    CreatedLater(h1, h2, n, n, p);
  }

  /** What happened from a later tree on happened from the beginning on. */
  lemma WasEarlier(t0: Tree, h0: History, t: Tree, h: History, h2: History, p: Path, version: nat)
    requires Evolves(t0, h0, t, h, {}) && h <= h2
    ensures WasThere(t, h2, |h|, p) ==> WasThere(t0, h2, |h0|, p)
    ensures WasMissing(t, h2, |h|, p) ==> WasMissing(t0, h2, |h0|, p)
    ensures HadVersion(t, h2, |h|, p, version) ==> HadVersion(t0, h2, |h0|, p, version)
  {
    Seen(t0, h0, t, h, p);
    WasLater(t0, h, h2, |h0|, p, if p in t then t[p].version else 0);
    CreatedLater(h2, h2, |h0|, |h|, p);
  }

  // ---------------------------------------------------------------- the ancestors to create

  /** A strict ancestor of one of the paths. */
  ghost predicate StrictlyAbove(below: seq<Path>, p: Path) {
    exists i :: 0 <= i < |below| && p < below[i]
  }

  /** Such an ancestor that does not exist yet. */
  ghost predicate MissingAncestor(t: Tree, below: seq<Path>, p: Path) {
    p !in t && StrictlyAbove(below, p)
  }

  /** The ancestors of `path` of depth `m` up to `k - 1`. */
  function AncestorsFrom(path: Path, m: nat, k: nat): (r: seq<Path>)
    requires m <= k <= |path|
    ensures |r| == k - m
  {
    seq(k - m, i requires 0 <= i < k - m => path[..m + i])
  }

  /** The ancestors above depth `m` were there; unless all asked for exist, the others were missing. */
  ghost predicate Asked(t0: Tree, h: History, n: nat, path: Path, m: nat, allExist: bool)
    requires m <= |path|
  {
    && (forall j :: 0 <= j < m ==> WasThere(t0, h, n, path[..j]))
    && (!allExist ==> forall j :: m <= j <= |path| ==> WasMissing(t0, h, n, path[..j]))
  }

  /** `_get_parent_paths_to_create`: after the first missing ancestor the deeper ones are not asked for. */
  method ParentPathsToCreate(zk: Session, path: Path) returns (paths: seq<Path>)
    requires zk.Valid()
    modifies zk`tree, zk`foreign, zk`history
    ensures Evolves(old(zk.tree), old(zk.history), zk.tree, zk.history, {})
    ensures Work(zk.history, zk.foreign) == old(Work(zk.history, zk.foreign))
    ensures forall p :: p in paths ==> p != [] && p < path && WasMissing(old(zk.tree), zk.history, |old(zk.history)|, p)
    ensures forall p :: p < path && p !in paths ==> WasThere(old(zk.tree), zk.history, |old(zk.history)|, p)
    ensures zk.history == old(zk.history) ==> forall p :: p in paths <==> p < path && p !in zk.tree
  {
    ghost var t0, h0 := zk.tree, zk.history;
    paths := [];
    EvolvesAlone(t0, t0, h0, {});
    var allExist := true;
    var k := 0;
    ghost var m := 0;
    while k < |path|
      invariant 0 <= m <= k <= |path|
      invariant Evolves(t0, h0, zk.tree, zk.history, {})
      invariant Work(zk.history, zk.foreign) == Work(h0, old(zk.foreign))
      invariant paths == AncestorsFrom(path, m, k)
      invariant if allExist then m == k else 0 < m < k
      invariant Asked(t0, zk.history, |h0|, path, m, allExist)
    {
      if allExist {
        var present := AskAncestor(zk, path, k, t0, h0);
        if present {
          k, m := k + 1, m + 1;
          continue;
        }
      }
      allExist := false;
      paths := paths + [path[..k]];
      k := k + 1;
      assert paths == AncestorsFrom(path, m, k);
    }
    AllAsked(t0, zk.history, |h0|, path, m, allExist);
    DR.UnchangedTree(t0, h0, zk.tree, zk.history);
  }

  /** One `exists` for the ancestor of depth `k`. */
  method AskAncestor(zk: Session, path: Path, k: nat, ghost t0: Tree, ghost h0: History) returns (present: bool)
    requires zk.Valid() && k < |path|
    requires Evolves(t0, h0, zk.tree, zk.history, {}) && Asked(t0, zk.history, |h0|, path, k, true)
    modifies zk`tree, zk`foreign, zk`history
    ensures Evolves(t0, h0, zk.tree, zk.history, {})
    ensures Work(zk.history, zk.foreign) == old(Work(zk.history, zk.foreign))
    ensures Asked(t0, zk.history, |h0|, path, if present then k + 1 else k, present)
    ensures k == 0 ==> present
  {
    ghost var t, h := zk.tree, zk.history;
    present := zk.Exists(path[..k]);
    EvolvesTransitive(t0, h0, t, h, zk.tree, zk.history, {});
    AncestorsSeen(t0, h0, zk.tree, h, zk.history, path, k);
  }

  /** Asking for the ancestor of depth `k` confirms it, or shows all from there on to be missing. */
  lemma AncestorsSeen(t0: Tree, h0: History, t: Tree, h: History, h1: History, path: Path, k: nat)
    requires Evolves(t0, h0, t, h1, {}) && h <= h1 && k < |path|
    requires Asked(t0, h, |h0|, path, k, true)
    ensures Asked(t0, h1, |h0|, path, if path[..k] in t then k + 1 else k, path[..k] in t)
  {
    forall j | 0 <= j < k ensures WasThere(t0, h1, |h0|, path[..j]) {
      WasLater(t0, h, h1, |h0|, path[..j], 0);
    }
    Seen(t0, h0, t, h1, path[..k]);
    forall j | k <= j <= |path| && path[..k] !in t ensures WasMissing(t0, h1, |h0|, path[..j]) {
      Seen(t0, h0, t, h1, path[..j]);
      if path[..j] in t {
        AncestorPresent(t, path[..k], path[..j]);
      }
    }
  }

  lemma AllAsked(t0: Tree, h: History, n: nat, path: Path, m: nat, allExist: bool)
    requires m <= |path| && (m == 0 ==> path == []) && (allExist ==> m == |path|)
    requires Asked(t0, h, n, path, m, allExist)
    ensures forall p :: p in AncestorsFrom(path, m, |path|) ==> p != [] && p < path && WasMissing(t0, h, n, p)
    ensures forall p :: p < path && p !in AncestorsFrom(path, m, |path|) ==> WasThere(t0, h, n, p)
  {
    var all := AncestorsFrom(path, m, |path|);
    forall p | p in all ensures p != [] && p < path && WasMissing(t0, h, n, p) {
      var i :| 0 <= i < |all| && all[i] == p;
      assert p == path[..m + i];
    }
    forall p | p < path && |p| >= m ensures p in all {
      assert all[|p| - m] == p;
    }
    forall p | p < path && p !in all ensures WasThere(t0, h, n, p) {
      assert p == path[..|p|];
    }
  }

  /** A parent is listed only if it was missing at some time, and left out only if it was there. */
  ghost predicate ParentsSeen(t0: Tree, h: History, n: nat, locks: seq<Path>, parents: set<Path>) {
    && (forall p :: p in parents ==> StrictlyAbove(locks, p) && WasMissing(t0, h, n, p))
    && (forall p :: StrictlyAbove(locks, p) && p !in parents ==> WasThere(t0, h, n, p))
  }

  lemma ParentsSeenMore(
      t0: Tree, h1: History, h2: History, n: nat, locks: seq<Path>, i: nat, all: set<Path>, more: set<Path>)
    requires h1 <= h2 && i < |locks| && ParentsSeen(t0, h1, n, locks[..i], all)
    requires forall p :: p in more ==> p < locks[i] && WasMissing(t0, h2, n, p)
    requires forall p :: p < locks[i] && p !in more ==> WasThere(t0, h2, n, p)
    ensures ParentsSeen(t0, h2, n, locks[..i + 1], all + more)
  {
    forall p ensures StrictlyAbove(locks[..i + 1], p) <==> StrictlyAbove(locks[..i], p) || p < locks[i] {
      AboveMore(locks, i, p);
    }
    forall p ensures (WasThere(t0, h1, n, p) ==> WasThere(t0, h2, n, p)) && (WasMissing(t0, h1, n, p) ==> WasMissing(t0, h2, n, p)) {
      WasLater(t0, h1, h2, n, p, 0);
    }
  }

  lemma AboveMore(locks: seq<Path>, i: nat, p: Path)
    requires i < |locks|
    ensures StrictlyAbove(locks[..i + 1], p) <==> StrictlyAbove(locks[..i], p) || p < locks[i]
  {
    if StrictlyAbove(locks[..i], p) {
      var k :| 0 <= k < i && p < locks[..i][k];
      assert locks[..i + 1][k] == locks[..i][k];
    }
    if p < locks[i] {
      assert locks[..i + 1][i] == locks[i];
    }
    if StrictlyAbove(locks[..i + 1], p) {
      var k :| 0 <= k < i + 1 && p < locks[..i + 1][k];
      assert k < i ==> locks[..i][k] == locks[..i + 1][k];
    }
  }

  lemma ParentsSeenEarlier(
      t0: Tree, h0: History, t: Tree, h: History, h2: History, locks: seq<Path>, parents: set<Path>)
    requires Evolves(t0, h0, t, h, {}) && h <= h2 && ParentsSeen(t, h2, |h|, locks, parents)
    ensures ParentsSeen(t0, h2, |h0|, locks, parents)
  {
    forall p ensures (WasThere(t, h2, |h|, p) ==> WasThere(t0, h2, |h0|, p)) && (WasMissing(t, h2, |h|, p) ==> WasMissing(t0, h2, |h0|, p)) {
      WasEarlier(t0, h0, t, h, h2, p, 0);
    }
  }

  lemma ParentsSeenLater(t0: Tree, h1: History, h2: History, n: nat, locks: seq<Path>, parents: set<Path>)
    requires h1 <= h2 && ParentsSeen(t0, h1, n, locks, parents)
    ensures ParentsSeen(t0, h2, n, locks, parents)
  {
    forall p ensures (WasThere(t0, h1, n, p) ==> WasThere(t0, h2, n, p)) && (WasMissing(t0, h1, n, p) ==> WasMissing(t0, h2, n, p)) {
      WasLater(t0, h1, h2, n, p, 0);
    }
  }

  method CollectParents(zk: Session, locks: seq<Path>) returns (all: set<Path>)
    requires zk.Valid()
    modifies zk`tree, zk`foreign, zk`history
    ensures Evolves(old(zk.tree), old(zk.history), zk.tree, zk.history, {})
    ensures Work(zk.history, zk.foreign) == old(Work(zk.history, zk.foreign))
    ensures ParentsSeen(old(zk.tree), zk.history, |old(zk.history)|, locks, all)
  {
    ghost var t0, h0 := zk.tree, zk.history;
    all := {};
    EvolvesAlone(t0, t0, h0, {});
    var i := 0;
    while i < |locks|
      invariant 0 <= i <= |locks|
      invariant Evolves(t0, h0, zk.tree, zk.history, {})
      invariant Work(zk.history, zk.foreign) == Work(h0, old(zk.foreign))
      invariant ParentsSeen(t0, zk.history, |h0|, locks[..i], all)
    {
      ghost var t, h := zk.tree, zk.history;
      var parents := ParentPathsToCreate(zk, locks[i]);
      EvolvesTransitive(t0, h0, t, h, zk.tree, zk.history, {});
      forall p ensures (WasThere(t, zk.history, |h|, p) ==> WasThere(t0, zk.history, |h0|, p)) &&
                       (WasMissing(t, zk.history, |h|, p) ==> WasMissing(t0, zk.history, |h0|, p)) {
        WasEarlier(t0, h0, t, h, zk.history, p, 0);
      }
      ParentsSeenMore(t0, h, zk.history, |h0|, locks, i, all, Members(parents));
      all := all + Members(parents);
      i := i + 1;
    }
    assert locks[..i] == locks;
  }

  /** Ascending as texts, no path twice. */
  ghost predicate InTextOrder(paths: seq<Path>) {
    SortedBy(paths, TextLe) && Distinct(paths)
  }

  /** `sorted(...)` of a set of paths. */
  method SortedPaths(all: set<Path>) returns (sorted: seq<Path>)
    ensures InTextOrder(sorted) && forall p :: p in sorted <==> p in all
  {
    var todo, listed := all, [];
    while todo != {}
      invariant todo <= all
      invariant forall p :: p in listed <==> p in all - todo
      invariant forall p :: multiset(listed)[p] <= 1
    {
      var p :| p in todo;
      assert p !in listed;
      listed, todo := listed + [p], todo - {p};
    }
    TextLeIsTotalPreorder();
    sorted := Sort(listed, TextLe);
    SortKeepsMembers(listed, TextLe);
    SortIsSorted(listed, TextLe);
    SameMembers(sorted, listed);
    OnceEach(sorted);
  }

  lemma OnceEach(s: seq<Path>)
    requires forall p :: multiset(s)[p] <= 1
    ensures forall i, j :: 0 <= i < j < |s| ==> s[i] != s[j]
  {
    forall i, j | 0 <= i < j < |s| ensures s[i] != s[j] {
      assert s == s[..j] + s[j..];
      assert s[i] in s[..j] && s[j] in s[j..];
      assert multiset(s) == multiset(s[..j]) + multiset(s[j..]);
      assert s[i] in multiset(s[..j]) && s[j] in multiset(s[j..]);
      assert multiset(s)[s[i]] == multiset(s[..j])[s[i]] + multiset(s[j..])[s[i]];
    }
  }

  // ---------------------------------------------------------------- one attempt

  /** Parents first, then the locks; one of the parents takes over the copied value. */
  function News(parents: seq<Path>, locks: seq<Path>, valuePath: Path, value: string): (r: seq<New>)
    ensures |r| == |parents| + |locks|
  {
    seq(|parents|, i requires 0 <= i < |parents| => New(parents[i], if parents[i] == valuePath then value else "")) +
    seq(|locks|, i requires 0 <= i < |locks| => New(locks[i], ""))
  }

  /** Distinct lock paths at one depth. */
  ghost predicate WellShaped(locks: seq<Path>) {
    && (forall i :: 0 <= i < |locks| ==> locks[i] != [] && ValidPath(locks[i]))
    && (forall i, j :: 0 <= i < j < |locks| ==> locks[i] != locks[j] && |locks[i]| == |locks[j]|)
  }

  ghost predicate ParentsOf(t: Tree, locks: seq<Path>, parents: seq<Path>) {
    InTextOrder(parents) && forall p :: p in parents <==> MissingAncestor(t, locks, p)
  }

  lemma ParentListedFirst(t: Tree, locks: seq<Path>, parents: seq<Path>, i: nat)
    requires WellFormed(t) && WellShaped(locks) && ParentsOf(t, locks, parents) && i < |parents|
    ensures parents[i] != [] && ValidPath(parents[i])
    ensures Parent(parents[i]) in t || exists k :: 0 <= k < i && parents[k] == Parent(parents[i])
  {
    var p := parents[i];
    assert p in parents;
    var l :| 0 <= l < |locks| && p < locks[l];
    assert p == locks[l][..|p|];
    if Parent(p) !in t {
      assert Parent(p) < locks[l] && MissingAncestor(t, locks, Parent(p));
      assert Parent(p) in parents;
      var k :| 0 <= k < |parents| && parents[k] == Parent(p);
      ParentSortsFirst(p);
    }
  }

  /** At one depth no lock is an ancestor of another one. */
  lemma ParentIsNoLock(t: Tree, locks: seq<Path>, parents: seq<Path>, i: nat)
    requires WellShaped(locks) && ParentsOf(t, locks, parents) && i < |parents|
    ensures parents[i] !in locks
  {
    assert parents[i] in parents;
    var l :| 0 <= l < |locks| && parents[i] < locks[l];
    forall j | 0 <= j < |locks| ensures |parents[i]| < |locks[j]| {
      assert |locks[l]| == |locks[j]|;
    }
  }

  lemma NewsCreatable(t: Tree, locks: seq<Path>, parents: seq<Path>, valuePath: Path, value: string)
    requires WellFormed(t) && WellShaped(locks) && ParentsOf(t, locks, parents)
    requires forall i :: 0 <= i < |locks| ==> locks[i] !in t
    ensures Creatable(t, News(parents, locks, valuePath, value))
  {
    var news, n := News(parents, locks, valuePath, value), |parents|;
    forall i | 0 <= i < |news|
      ensures news[i].path != [] && ValidPath(news[i].path) && news[i].path !in t
      ensures Parent(news[i].path) in t || ListedBefore(news, i, Parent(news[i].path))
    {
      if i < n {
        assert parents[i] in parents;
        ParentListedFirst(t, locks, parents, i);
        if Parent(parents[i]) !in t {
          var k :| 0 <= k < i && parents[k] == Parent(parents[i]);
          assert news[k].path == Parent(news[i].path);
        }
      } else {
        var l := locks[i - n];
        assert news[i].path == l && Parent(l) < l;
        if Parent(l) !in t {
          assert MissingAncestor(t, locks, Parent(l));
          assert Parent(l) in parents;
          var k :| 0 <= k < n && parents[k] == Parent(l);
          assert news[k].path == Parent(l);
        }
      }
    }
    forall i, j | 0 <= i < j < |news| ensures news[i].path != news[j].path {
      if i < n <= j {
        ParentIsNoLock(t, locks, parents, i);
      }
    }
  }

  /** The locks and their missing ancestors are new, everything else is as it was. */
  ghost predicate LocksCreated(t: Tree, t1: Tree, locks: seq<Path>, valuePath: Path, value: string) {
    && (forall p :: p in t ==> p in t1 && t1[p] == t[p])
    && (forall p :: p !in t ==> (p in t1 <==> p in locks || MissingAncestor(t, locks, p)))
    && (forall p :: p in t1 && p !in t ==>
          t1[p] == Znode(if p == valuePath && p !in locks then value else "", 0))
  }

  lemma {:induction false} NewsAdded(t: Tree, locks: seq<Path>, parents: seq<Path>, valuePath: Path, value: string)
    requires WellFormed(t) && WellShaped(locks) && ParentsOf(t, locks, parents)
    requires forall i :: 0 <= i < |locks| ==> locks[i] !in t
    ensures Multi(t, Creates(News(parents, locks, valuePath, value))).Committed?
    ensures LocksCreated(t, Multi(t, Creates(News(parents, locks, valuePath, value))).tree, locks, valuePath, value)
  {
    NewsCreatable(t, locks, parents, valuePath, value);
    CreatableCommits(t, News(parents, locks, valuePath, value));
    forall p | p in parents ensures StrictlyAbove(locks, p) {
      assert MissingAncestor(t, locks, p);
    }
    CommittedNews(t, locks, parents, valuePath, value);
  }

  /** Creates that commit found every node absent and none listed twice. */
  lemma {:induction false} CommittedCreates(t: Tree, news: seq<New>)
    requires Multi(t, Creates(news)).Committed?
    ensures Multi(t, Creates(news)).tree == Add(t, news)
    ensures forall i :: 0 <= i < |news| ==> news[i].path !in t
    ensures forall i, j :: 0 <= i < j < |news| ==> news[i].path != news[j].path
    decreases |news|
  {
    if news != [] {
      var t1 := t[news[0].path := Znode(news[0].value, 0)];
      assert Creates(news)[0] == Create(news[0].path, news[0].value) && Creates(news)[1..] == Creates(news[1..]);
      assert Apply(t, Creates(news)[0]) == Ok(t1);
      CommittedCreates(t1, news[1..]);
      forall i | 1 <= i < |news| ensures news[i].path !in t && news[i].path != news[0].path {
        assert news[1..][i - 1] == news[i];
      }
      forall i, j | 0 <= i < j < |news| ensures news[i].path != news[j].path {
        assert news[1..][j - 1] == news[j] && (i > 0 ==> news[1..][i - 1] == news[i]);
      }
    }
  }

  /** Whatever others did before: a committed creation adds exactly the locks and their missing ancestors. */
  lemma {:induction false} CommittedNews(t: Tree, locks: seq<Path>, parents: seq<Path>, valuePath: Path, value: string)
    requires WellFormed(t) && forall p :: p in parents ==> StrictlyAbove(locks, p)
    requires Multi(t, Creates(News(parents, locks, valuePath, value))).Committed?
    ensures LocksCreated(t, Multi(t, Creates(News(parents, locks, valuePath, value))).tree, locks, valuePath, value)
  {
    var news := News(parents, locks, valuePath, value);
    CommittedCreates(t, news);
    Added(t, news);
    MultiKeepsWellFormed(t, Creates(news));
    var t1 := Add(t, news);
    LocksAreNew(t, t1, news, parents, locks, valuePath, value);
    forall p | p !in t ensures p in t1 <==> p in locks || MissingAncestor(t, locks, p) {
      NewsListed(parents, locks, valuePath, value, p);
      if MissingAncestor(t, locks, p) {
        var i :| 0 <= i < |locks| && p < locks[i];
        AncestorPresent(t1, p, locks[i]);
      }
    }
    forall p | p in t1 && p !in t
      ensures t1[p] == Znode(if p == valuePath && p !in locks then value else "", 0)
    {
      var k :| 0 <= k < |news| && news[k].path == p;
      ParentNotAmongLocks(news, parents, locks, valuePath, value, k);
      NewsValue(parents, locks, valuePath, value, k);
    }
  }

  lemma LocksAreNew(
      t: Tree, t1: Tree, news: seq<New>, parents: seq<Path>, locks: seq<Path>, valuePath: Path, value: string)
    requires news == News(parents, locks, valuePath, value)
    requires forall i :: 0 <= i < |news| ==> news[i].path !in t && news[i].path in t1
    ensures forall i :: 0 <= i < |locks| ==> locks[i] !in t && locks[i] in t1
  {
    forall i | 0 <= i < |locks| ensures locks[i] !in t && locks[i] in t1 {
      assert news[|parents| + i].path == locks[i];
    }
  }

  lemma ParentNotAmongLocks(
    news: seq<New>, parents: seq<Path>, locks: seq<Path>, valuePath: Path, value: string, k: nat)
    requires news == News(parents, locks, valuePath, value)
    requires forall i, j :: 0 <= i < j < |news| ==> news[i].path != news[j].path
    ensures k < |parents| ==> parents[k] !in locks
  {
    if k < |parents| {
      forall m | 0 <= m < |locks| ensures locks[m] != parents[k] {
        assert news[k].path == parents[k] && news[|parents| + m].path == locks[m];
      }
    }
  }

  lemma NewsListed(parents: seq<Path>, locks: seq<Path>, valuePath: Path, value: string, p: Path)
    ensures var news := News(parents, locks, valuePath, value);
            ListedBefore(news, |news|, p) <==> p in locks || p in parents
  {
    var news, n := News(parents, locks, valuePath, value), |parents|;
    if p in locks {
      var k :| 0 <= k < |locks| && locks[k] == p;
      assert news[n + k].path == p;
    }
    if p in parents {
      var k :| 0 <= k < n && parents[k] == p;
      assert news[k].path == p;
    }
    if ListedBefore(news, |news|, p) {
      var k :| 0 <= k < |news| && news[k].path == p;
      assert if k < n then parents[k] == p else locks[k - n] == p;
    }
  }

  lemma NewsValue(parents: seq<Path>, locks: seq<Path>, valuePath: Path, value: string, k: nat)
    requires k < |parents| + |locks|
    requires k < |parents| ==> parents[k] !in locks
    ensures var made := News(parents, locks, valuePath, value)[k];
            made.value == if made.path == valuePath && made.path !in locks then value else ""
  {
    var made := News(parents, locks, valuePath, value)[k];
    if k >= |parents| {
      assert made.path == locks[k - |parents|];
    }
  }

  /** The locks an attempt on tree `t` has to create. */
  function Needed(t: Tree, infos: seq<LockInfo>, checkPartExist: bool): seq<Path> {
    if infos == [] then []
    else
      var n := |infos| - 1;
      Needed(t, infos[..n], checkPartExist) +
      if infos[n].lockPath !in t && (!checkPartExist || infos[n].partPath in t) then [infos[n].lockPath] else []
  }

  function LockPaths(infos: seq<LockInfo>): (r: seq<Path>)
    ensures |r| == |infos|
  {
    seq(|infos|, i requires 0 <= i < |infos| => infos[i].lockPath)
  }

  ghost predicate Wanted(t: Tree, infos: seq<LockInfo>, checkPartExist: bool, p: Path) {
    p !in t && exists i :: 0 <= i < |infos| && infos[i].lockPath == p && (!checkPartExist || infos[i].partPath in t)
  }

  /** Exactly the lock paths that are missing and whose part exists. */
  lemma {:induction false} NeededExact(t: Tree, infos: seq<LockInfo>, checkPartExist: bool, p: Path)
    ensures p in Needed(t, infos, checkPartExist) <==> Wanted(t, infos, checkPartExist, p)
  {
    if infos != [] {
      var n := |infos| - 1;
      NeededExact(t, infos[..n], checkPartExist, p);
      if Wanted(t, infos[..n], checkPartExist, p) {
        var i :| 0 <= i < n && infos[..n][i].lockPath == p && (!checkPartExist || infos[..n][i].partPath in t);
        assert infos[i] == infos[..n][i];
      }
      if Wanted(t, infos, checkPartExist, p) {
        var i :| 0 <= i < |infos| && infos[i].lockPath == p && (!checkPartExist || infos[i].partPath in t);
        assert i < n ==> infos[i] == infos[..n][i];
      }
    }
  }

  /** Selecting from distinct lock paths of one depth keeps them so. */
  lemma {:induction false} NeededShape(t: Tree, infos: seq<LockInfo>, checkPartExist: bool)
    requires WellShaped(LockPaths(infos))
    ensures WellShaped(Needed(t, infos, checkPartExist))
  {
    if infos != [] {
      var n := |infos| - 1;
      var front, last := Needed(t, infos[..n], checkPartExist), infos[n].lockPath;
      assert LockPaths(infos[..n]) == LockPaths(infos)[..n] && LockPaths(infos)[n] == last;
      NeededShape(t, infos[..n], checkPartExist);
      forall k | 0 <= k < |front| ensures front[k] != last && |front[k]| == |last| {
        assert front[k] in front;
        NeededExact(t, infos[..n], checkPartExist, front[k]);
        var i :| 0 <= i < n && infos[..n][i].lockPath == front[k];
        assert LockPaths(infos)[i] == front[k];
      }
    }
  }

  /** The version checks belong to the locks: one existing part for each lock, in the same order. */
  ghost predicate ChecksFor(infos: seq<LockInfo>, locks: seq<Path>, parts: seq<(Path, nat)>) {
    && |parts| == |locks|
    && forall k :: 0 <= k < |locks| ==>
         exists i :: 0 <= i < |infos| && infos[i] == LockInfo(locks[k], parts[k].0)
  }

  ghost predicate FromInfos(infos: seq<LockInfo>, locks: seq<Path>) {
    forall k :: 0 <= k < |locks| ==> exists i :: 0 <= i < |infos| && infos[i].lockPath == locks[k]
  }

  /** From `t0` on the lock has been there at some time, or its part has been missing. */
  ghost predicate Excused(t0: Tree, h: History, n: nat, info: LockInfo, checkPartExist: bool) {
    WasThere(t0, h, n, info.lockPath) || (checkPartExist && WasMissing(t0, h, n, info.partPath))
  }

  /** No lock is passed over without such a reason. */
  ghost predicate NoneForgotten(
      t0: Tree, h: History, n: nat, infos: seq<LockInfo>, locks: seq<Path>, checkPartExist: bool) {
    forall i :: 0 <= i < |infos| ==> infos[i].lockPath in locks || Excused(t0, h, n, infos[i], checkPartExist)
  }

  lemma ExcusedLater(t0: Tree, h1: History, h2: History, n: nat, info: LockInfo, checkPartExist: bool)
    requires h1 <= h2 && Excused(t0, h1, n, info, checkPartExist)
    ensures Excused(t0, h2, n, info, checkPartExist)
  {
    WasLater(t0, h1, h2, n, info.lockPath, 0);
    WasLater(t0, h1, h2, n, info.partPath, 0);
  }

  lemma NoneForgottenLater(t0: Tree, h1: History, h2: History, n: nat, infos: seq<LockInfo>, locks: seq<Path>,
                           checkPartExist: bool)
    requires h1 <= h2 && NoneForgotten(t0, h1, n, infos, locks, checkPartExist)
    ensures NoneForgotten(t0, h2, n, infos, locks, checkPartExist)
  {
    forall i | 0 <= i < |infos| && infos[i].lockPath !in locks
      ensures Excused(t0, h2, n, infos[i], checkPartExist)
    {
      ExcusedLater(t0, h1, h2, n, infos[i], checkPartExist);
    }
  }

  /** An excuse that holds from a later tree on holds from the beginning. */
  lemma ExcusedEarlier(t0: Tree, h0: History, t: Tree, h: History, h2: History, info: LockInfo, checkPartExist: bool)
    requires Evolves(t0, h0, t, h, {}) && h <= h2 && Excused(t, h2, |h|, info, checkPartExist)
    ensures Excused(t0, h2, |h0|, info, checkPartExist)
  {
    WasEarlier(t0, h0, t, h, h2, info.lockPath, 0);
    WasEarlier(t0, h0, t, h, h2, info.partPath, 0);
  }

  /** Each check names a version that its part has had. */
  ghost predicate PartsSeen(t0: Tree, h: History, n: nat, parts: seq<(Path, nat)>) {
    forall k :: 0 <= k < |parts| ==> HadVersion(t0, h, n, parts[k].0, parts[k].1)
  }

  lemma PartsSeenLater(t0: Tree, h1: History, h2: History, n: nat, parts: seq<(Path, nat)>)
    requires h1 <= h2 && PartsSeen(t0, h1, n, parts)
    ensures PartsSeen(t0, h2, n, parts)
  {
    forall k | 0 <= k < |parts| ensures HadVersion(t0, h2, n, parts[k].0, parts[k].1) {
      WasLater(t0, h1, h2, n, parts[k].0, parts[k].1);
    }
  }

  lemma PartsSeenEarlier(t0: Tree, h0: History, t: Tree, h: History, h2: History, parts: seq<(Path, nat)>)
    requires Evolves(t0, h0, t, h, {}) && h <= h2 && PartsSeen(t, h2, |h|, parts)
    ensures PartsSeen(t0, h2, |h0|, parts)
  {
    forall k | 0 <= k < |parts| ensures HadVersion(t0, h2, |h0|, parts[k].0, parts[k].1) {
      WasEarlier(t0, h0, t, h, h2, parts[k].0, parts[k].1);
    }
  }

  /** The version checks of an attempt: one for each lock, or none when parts are not to be checked. */
  ghost predicate ChecksOf(infos: seq<LockInfo>, locks: seq<Path>, parts: seq<(Path, nat)>, checkPartExist: bool) {
    if checkPartExist then ChecksFor(infos, locks, parts) else parts == []
  }

  /** What the first loop knows after `i` entries; `t` and `h` are the tree and the history by then. */
  ghost predicate Checking(h0: History, t0: Tree, t: Tree, h: History, infos: seq<LockInfo>, i: nat,
                           locks: seq<Path>, parts: seq<(Path, nat)>, checkPartExist: bool)
    requires i <= |infos|
  {
    && FromInfos(infos, locks)
    && ChecksOf(infos, locks, parts, checkPartExist) && PartsSeen(t0, h, |h0|, parts)
    && NoneForgotten(t0, h, |h0|, infos[..i], locks, checkPartExist)
    && (h == h0 ==> locks == Needed(t, infos[..i], checkPartExist) && PartsHold(t, parts))
  }

  /** The first loop: skip existing locks and vanished parts, remember the versions of the others. */
  method CheckLocks(zk: Session, infos: seq<LockInfo>, checkPartExist: bool)
    returns (locks: seq<Path>, parts: seq<(Path, nat)>)
    requires zk.Valid()
    modifies zk`tree, zk`foreign, zk`history
    ensures Evolves(old(zk.tree), old(zk.history), zk.tree, zk.history, {})
    ensures Work(zk.history, zk.foreign) == old(Work(zk.history, zk.foreign))
    ensures FromInfos(infos, locks)
    ensures ChecksOf(infos, locks, parts, checkPartExist)
    ensures PartsSeen(old(zk.tree), zk.history, |old(zk.history)|, parts)
    ensures NoneForgotten(old(zk.tree), zk.history, |old(zk.history)|, infos, locks, checkPartExist)
    ensures zk.history == old(zk.history) ==>
              locks == Needed(zk.tree, infos, checkPartExist) && PartsHold(zk.tree, parts)
  {
    ghost var t0, h0 := zk.tree, zk.history;
    locks, parts := [], [];
    EvolvesAlone(t0, t0, h0, {});
    var i := 0;
    while i < |infos|
      invariant 0 <= i <= |infos|
      invariant Evolves(t0, h0, zk.tree, zk.history, {})
      invariant Work(zk.history, zk.foreign) == Work(h0, old(zk.foreign))
      invariant Checking(h0, t0, zk.tree, zk.history, infos, i, locks, parts, checkPartExist)
    {
      ghost var t, h := zk.tree, zk.history;
      var wanted, version := CheckLock(zk, infos[i], checkPartExist, t0, h0);
      CheckingStep(h0, t0, t, h, zk.tree, zk.history, infos, i, locks, parts, checkPartExist, wanted, version);
      if wanted {
        locks := locks + [infos[i].lockPath];
        parts := if checkPartExist then parts + [(infos[i].partPath, version)] else parts;
      }
      i := i + 1;
    }
    assert infos[..i] == infos;
  }

  lemma CheckingStep(h0: History, t0: Tree, t: Tree, h: History, t1: Tree, h1: History, infos: seq<LockInfo>, i: nat,
                     locks: seq<Path>, parts: seq<(Path, nat)>, checkPartExist: bool, wanted: bool, version: nat)
    requires i < |infos| && h0 <= h <= h1 && Checking(h0, t0, t, h, infos, i, locks, parts, checkPartExist)
    requires !wanted ==> Excused(t0, h1, |h0|, infos[i], checkPartExist)
    requires wanted && checkPartExist ==> HadVersion(t0, h1, |h0|, infos[i].partPath, version)
    requires h1 == h ==> t1 == t
    requires h1 == h ==>
               (wanted <==> infos[i].lockPath !in t1 && (!checkPartExist || infos[i].partPath in t1))
    requires h1 == h && wanted && checkPartExist ==> t1[infos[i].partPath].version == version
    ensures var locks1 := if wanted then locks + [infos[i].lockPath] else locks;
            var parts1 := if wanted && checkPartExist then parts + [(infos[i].partPath, version)] else parts;
            Checking(h0, t0, t1, h1, infos, i + 1, locks1, parts1, checkPartExist)
  {
    var locks1 := if wanted then locks + [infos[i].lockPath] else locks;
    var parts1 := if wanted && checkPartExist then parts + [(infos[i].partPath, version)] else parts;
    OneMoreInfo(t0, h, h1, |h0|, infos, i, locks, locks1, checkPartExist);
    PartsSeenLater(t0, h, h1, |h0|, parts);
    if wanted {
      MoreFromInfos(infos, locks, i);
    }
    if wanted && checkPartExist {
      MoreChecks(infos, locks, parts, i, version);
    }
    if h1 == h0 {
      NeededStep(t, infos, i, locks, parts, checkPartExist, wanted, version);
    }
  }

  lemma {:induction false} NeededStep(t: Tree, infos: seq<LockInfo>, i: nat, locks: seq<Path>, parts: seq<(Path, nat)>,
                   checkPartExist: bool, wanted: bool, version: nat)
    requires i < |infos| && locks == Needed(t, infos[..i], checkPartExist) && PartsHold(t, parts)
    requires wanted <==> infos[i].lockPath !in t && (!checkPartExist || infos[i].partPath in t)
    requires wanted && checkPartExist ==> t[infos[i].partPath].version == version
    ensures Needed(t, infos[..i + 1], checkPartExist) == if wanted then locks + [infos[i].lockPath] else locks
    ensures PartsHold(t, if wanted && checkPartExist then parts + [(infos[i].partPath, version)] else parts)
  {
    assert infos[..i + 1][..i] == infos[..i];
    assert locks + [] == locks;
  }

  lemma MoreChecks(infos: seq<LockInfo>, locks: seq<Path>, parts: seq<(Path, nat)>, i: nat, version: nat)
    requires i < |infos| && ChecksFor(infos, locks, parts)
    ensures ChecksFor(infos, locks + [infos[i].lockPath], parts + [(infos[i].partPath, version)])
  {
    var locks1, parts1 := locks + [infos[i].lockPath], parts + [(infos[i].partPath, version)];
    assert infos[i] == LockInfo(locks1[|locks|], parts1[|locks|].0);
    forall k | 0 <= k < |locks| ensures exists j :: 0 <= j < |infos| && infos[j] == LockInfo(locks1[k], parts1[k].0) {
      var j :| 0 <= j < |infos| && infos[j] == LockInfo(locks[k], parts[k].0);
    }
  }

  lemma MoreFromInfos(infos: seq<LockInfo>, locks: seq<Path>, i: nat)
    requires i < |infos| && FromInfos(infos, locks)
    ensures FromInfos(infos, locks + [infos[i].lockPath])
  {
    assert infos[i].lockPath == (locks + [infos[i].lockPath])[|locks|];
  }

  lemma OneMoreInfo(t0: Tree, h1: History, h2: History, n: nat, infos: seq<LockInfo>, i: nat,
                    before: seq<Path>, locks: seq<Path>, checkPartExist: bool)
    requires i < |infos| && h1 <= h2 && before <= locks
    requires NoneForgotten(t0, h1, n, infos[..i], before, checkPartExist)
    requires infos[i].lockPath in locks || Excused(t0, h2, n, infos[i], checkPartExist)
    ensures NoneForgotten(t0, h2, n, infos[..i + 1], locks, checkPartExist)
  {
    forall k | 0 <= k < i && infos[k].lockPath !in locks ensures Excused(t0, h2, n, infos[k], checkPartExist) {
      assert infos[..i][k] == infos[k];
      ExcusedLater(t0, h1, h2, n, infos[k], checkPartExist);
    }
  }

  method CheckLock(zk: Session, info: LockInfo, checkPartExist: bool, ghost t0: Tree, ghost h0: History)
    returns (wanted: bool, version: nat)
    requires zk.Valid() && Evolves(t0, h0, zk.tree, zk.history, {})
    modifies zk`tree, zk`foreign, zk`history
    ensures Evolves(t0, h0, zk.tree, zk.history, {}) && old(zk.history) <= zk.history
    ensures Work(zk.history, zk.foreign) == old(Work(zk.history, zk.foreign))
    ensures !wanted ==> Excused(t0, zk.history, |h0|, info, checkPartExist)
    ensures wanted && checkPartExist ==> HadVersion(t0, zk.history, |h0|, info.partPath, version)
    ensures zk.history == old(zk.history) ==> zk.tree == old(zk.tree)
    ensures zk.history == old(zk.history) ==>
              (wanted <==> info.lockPath !in zk.tree && (!checkPartExist || info.partPath in zk.tree))
    ensures zk.history == old(zk.history) && wanted && checkPartExist ==> zk.tree[info.partPath].version == version
  {
    ghost var t, h := zk.tree, zk.history;
    version := 0;
    var present := zk.Exists(info.lockPath);
    EvolvesTransitive(t0, h0, t, h, zk.tree, zk.history, {});
    DR.UnchangedTree(t, h, zk.tree, zk.history);
    Seen(t0, h0, zk.tree, zk.history, info.lockPath);
    if present {
      return false, 0;
    }
    if checkPartExist {
      ghost var t1, h1 := zk.tree, zk.history;
      var partPresent := zk.Exists(info.partPath);
      EvolvesTransitive(t0, h0, t1, h1, zk.tree, zk.history, {});
      DR.UnchangedTree(t1, h1, zk.tree, zk.history);
      Seen(t0, h0, zk.tree, zk.history, info.partPath);
      if !partPresent {
        return false, 0;
      }
      version := zk.tree[info.partPath].version;
    }
    return true, version;
  }

  /** The value to copy; a node that vanishes between the two requests counts as having none. */
  method ReadValue(zk: Session, copyValues: bool, oldValuePath: Path) returns (value: string)
    requires zk.Valid()
    modifies zk`tree, zk`foreign, zk`history
    ensures Evolves(old(zk.tree), old(zk.history), zk.tree, zk.history, {})
    ensures Work(zk.history, zk.foreign) == old(Work(zk.history, zk.foreign))
    ensures copyValues && oldValuePath in zk.tree ==> value == zk.tree[oldValuePath].value
    ensures !copyValues || oldValuePath !in zk.tree ==> value == ""
  {
    value := "";
    EvolvesAlone(zk.tree, zk.tree, zk.history, {});
    if copyValues {
      ghost var t0, h0 := zk.tree, zk.history;
      var present := zk.Exists(oldValuePath);
      if present {
        ghost var t, h := zk.tree, zk.history;
        zk.OthersAct();
        EvolvesTransitive(t0, h0, t, h, zk.tree, zk.history, {});
        DR.UnchangedTree(t, h, zk.tree, zk.history);
        if oldValuePath in zk.tree {
          value := zk.tree[oldValuePath].value;
        }
      }
    }
  }

  /** The first result that is an exception other than "rolled back": the real failure. */
  function RealFailure(outcome: Outcome): Attempt {
    match outcome case Committed(_) => Created case Aborted(_, e) => Raised(e)
  }

  /**
   * The course of an attempt: the locks it set out to create with the version checks of their parts, the parents
   * it found missing, the value to copy and the tree and the history when it had been read, and the tree the
   * transaction met, if it came to that.
   */
  datatype Course = Course(
    locks: seq<Path>, parts: seq<(Path, nat)>, parents: seq<Path>, value: string, reading: Tree, readAt: History,
    before: Tree)

  /** Only other clients acted from the start to the reading and on to the end. */
  ghost predicate Took(t0: Tree, h0: History, course: Course, h: History) {
    && Evolves(t0, h0, course.reading, course.readAt, {})
    && Evolves(course.reading, course.readAt, course.before, h, {})
  }

  /**
   * What an attempt has done, whatever other clients did meanwhile. No lock is passed over without a reason, no
   * version or parent is part of the transaction that was not seen so, and how the attempt ends is the outcome of that
   * transaction on the tree it met. Created: the part of each lock was there in the very moment of the commit, and
   * exactly the locks and their ancestors missing in that moment are new, with the copied value. Otherwise nothing is
   * created.
   */
  ghost predicate Achieved(r: Attempt, course: Course, t0: Tree, n: nat, t1: Tree, h: History,
                          infos: seq<LockInfo>, valuePath: Path, oldValuePath: Path,
                          copyValues: bool, checkPartExist: bool, dryRun: bool) {
    && FromInfos(infos, course.locks) && ChecksOf(infos, course.locks, course.parts, checkPartExist)
    && NoneForgotten(t0, h, n, infos, course.locks, checkPartExist) && PartsSeen(t0, h, n, course.parts)
    && (course.locks != [] && copyValues && oldValuePath in course.reading ==>
          course.value == course.reading[oldValuePath].value)
    && (course.locks != [] && (!copyValues || oldValuePath !in course.reading) ==> course.value == "")
    && (course.locks == [] <==> r == NothingToDo) && (course.locks != [] && dryRun <==> r == DryRun)
    && (course.locks != [] && !dryRun ==>
          match Multi(course.before, Request(course.locks, course.parts, course.parents, valuePath, course.value))
          case Committed(_) => r == Created
          case Aborted(_, error) => r == Raised(error))
    && (r.Created? || r.Raised? ==>
          InTextOrder(course.parents) && ParentsSeen(t0, h, n, course.locks, Members(course.parents)))
    && (r == Created ==>
          && LocksCreated(course.before, t1, course.locks, valuePath, course.value)
          && (checkPartExist ==> Vouched(infos, course.locks, course.before)))
    && (r != Created ==> t1 == course.before)
  }

  /**
   * `_create_locks_in_transaction`. If no other client acts, the attempt does not fail and creates exactly the
   * missing locks whose parts are there.
   */
  method CreateLocks(zk: Session, infos: seq<LockInfo>, valuePath: Path, oldValuePath: Path,
                     copyValues: bool, checkPartExist: bool, dryRun: bool)
    returns (r: Attempt, ghost course: Course)
    requires zk.Valid()
    modifies zk`tree, zk`foreign, zk`history
    ensures zk.Valid() && Took(old(zk.tree), old(zk.history), course, zk.history)
    ensures Work(zk.history, zk.foreign) == old(Work(zk.history, zk.foreign))
    ensures Achieved(r, course, old(zk.tree), |old(zk.history)|, zk.tree, zk.history,
                    infos, valuePath, oldValuePath, copyValues, checkPartExist, dryRun)
    ensures zk.history == old(zk.history) && WellShaped(LockPaths(infos)) ==>
              Settled(r, course, old(zk.tree), infos, checkPartExist, dryRun)
  {
    ghost var t0, h0 := zk.tree, zk.history;
    var locks, parts := CheckLocks(zk, infos, checkPartExist);
    ghost var t1, h1 := zk.tree, zk.history;
    course := Course(locks, parts, [], "", t1, h1, t1);
    EvolvesAlone(t1, t1, h1, {});
    DR.UnchangedTree(t0, h0, t1, h1);
    if locks == [] {
      return NothingToDo, course;
    }
    var value := ReadValue(zk, copyValues, oldValuePath);
    EvolvesTransitive(t0, h0, t1, h1, zk.tree, zk.history, {});
    NoneForgottenLater(t0, h1, zk.history, |h0|, infos, locks, checkPartExist);
    PartsSeenLater(t0, h1, zk.history, |h0|, parts);
    DR.UnchangedTree(t1, h1, zk.tree, zk.history);
    ghost var t2, h2 := zk.tree, zk.history;
    course := Course(locks, parts, [], value, t2, h2, t2);
    EvolvesAlone(t2, t2, h2, {});
    if dryRun {
      return DryRun, course;
    }
    ghost var parents, before;
    r, parents, before := SendTransaction(zk, locks, parts, valuePath, value);
    course := Course(locks, parts, parents, value, t2, h2, before);
    NoneForgottenLater(t0, h2, zk.history, |h0|, infos, locks, checkPartExist);
    PartsSeenLater(t0, h2, zk.history, |h0|, parts);
    ParentsSeenEarlier(t0, h0, t2, h2, zk.history, locks, Members(parents));
    Sent(before, infos, locks, parts, parents, valuePath, value, checkPartExist);
    if zk.history == h0 && WellShaped(LockPaths(infos)) {
      NeededFacts(t0, infos, checkPartExist);
      DR.UnchangedTree(t2, h2, before, zk.history);
    }
  }

  /** Each of the locks belongs to a part that is there. */
  ghost predicate Vouched(infos: seq<LockInfo>, locks: seq<Path>, t: Tree) {
    forall p :: p in locks ==> exists i :: 0 <= i < |infos| && infos[i].lockPath == p && infos[i].partPath in t
  }

  /** How an undisturbed attempt ends: with the locks that were needed, never with an error. */
  ghost predicate Settled(
      r: Attempt, course: Course, t: Tree, infos: seq<LockInfo>, checkPartExist: bool, dryRun: bool) {
    && course.reading == t && course.before == t
    && course.locks == Needed(t, infos, checkPartExist)
    && r == (if course.locks == [] then NothingToDo else if dryRun then DryRun else Created)
  }

  /** The transaction as it is sent. */
  function Request(
      locks: seq<Path>, parts: seq<(Path, nat)>, parents: seq<Path>, valuePath: Path, value: string): seq<Op> {
    Checks(parts) + Creates(News(parents, locks, valuePath, value))
  }

  lemma {:induction false} Sent(
      t: Tree, infos: seq<LockInfo>, locks: seq<Path>, parts: seq<(Path, nat)>, parents: seq<Path>,
             valuePath: Path, value: string, checkPartExist: bool)
    requires WellFormed(t) && (forall p :: p in parents ==> StrictlyAbove(locks, p))
    requires ChecksOf(infos, locks, parts, checkPartExist)
    ensures var ops := Request(locks, parts, parents, valuePath, value);
            Multi(t, ops).Committed? ==>
              LocksCreated(t, After(t, ops), locks, valuePath, value) && (checkPartExist ==> Vouched(infos, locks, t))
  {
    var creates := Creates(News(parents, locks, valuePath, value));
    ChecksGuard(t, parts, creates);
    if Multi(t, Checks(parts) + creates).Committed? {
      CommittedNews(t, locks, parents, valuePath, value);
      if checkPartExist {
        PartsPresent(t, infos, locks, parts);
      }
    }
  }

  lemma {:induction false} NeededFacts(t: Tree, infos: seq<LockInfo>, checkPartExist: bool)
    requires WellShaped(LockPaths(infos))
    ensures WellShaped(Needed(t, infos, checkPartExist))
    ensures forall i :: 0 <= i < |Needed(t, infos, checkPartExist)| ==> Needed(t, infos, checkPartExist)[i] !in t
  {
    NeededShape(t, infos, checkPartExist);
    var needed := Needed(t, infos, checkPartExist);
    forall i | 0 <= i < |needed| ensures needed[i] !in t {
      assert needed[i] in needed;
      NeededExact(t, infos, checkPartExist, needed[i]);
    }
  }

  lemma PartsPresent(t: Tree, infos: seq<LockInfo>, locks: seq<Path>, parts: seq<(Path, nat)>)
    requires ChecksFor(infos, locks, parts) && PartsHold(t, parts)
    ensures Vouched(infos, locks, t)
  {
    forall p | p in locks ensures exists i :: 0 <= i < |infos| && infos[i].lockPath == p && infos[i].partPath in t {
      var k :| 0 <= k < |locks| && locks[k] == p;
      var i :| 0 <= i < |infos| && infos[i] == LockInfo(locks[k], parts[k].0);
      assert infos[i].partPath in t;
    }
  }

  /** The second half: collect the parents, build the transaction, commit it. */
  method SendTransaction(zk: Session, locks: seq<Path>, parts: seq<(Path, nat)>, valuePath: Path, value: string)
    returns (r: Attempt, ghost parents: seq<Path>, ghost before: Tree)
    requires zk.Valid()
    modifies zk`tree, zk`foreign, zk`history
    ensures zk.Valid() && Evolves(old(zk.tree), old(zk.history), before, zk.history, {})
    ensures Work(zk.history, zk.foreign) == old(Work(zk.history, zk.foreign))
    ensures InTextOrder(parents) && ParentsSeen(old(zk.tree), zk.history, |old(zk.history)|, locks, Members(parents))
    ensures var ops := Request(locks, parts, parents, valuePath, value);
            r == RealFailure(Multi(before, ops)) && zk.tree == After(before, ops)
    ensures zk.history == old(zk.history) && WellShaped(locks) && PartsHold(old(zk.tree), parts) &&
              (forall i :: 0 <= i < |locks| ==> locks[i] !in old(zk.tree)) ==>
              r == Created
  {
    ghost var t0, h0 := zk.tree, zk.history;
    var all := CollectParents(zk, locks);
    DR.UnchangedTree(t0, h0, zk.tree, zk.history);
    var sorted := SortedPaths(all);
    parents := sorted;
    assert Members(parents) == all;
    ghost var t1, h1 := zk.tree, zk.history;
    var outcome;
    outcome, before := zk.Commit(Request(locks, parts, sorted, valuePath, value));
    ParentsSeenLater(t0, h1, zk.history, |h0|, locks, all);
    EvolvesTransitive(t0, h0, t1, h1, before, zk.history, {});
    DR.UnchangedTree(t1, h1, before, zk.history);
    ChecksGuard(before, parts, Creates(News(sorted, locks, valuePath, value)));
    r := RealFailure(outcome);
    if zk.history == h0 && WellShaped(locks) && PartsHold(t0, parts) && forall i :: 0 <= i < |locks| ==> locks[i] !in t0 {
      NewsAdded(t0, locks, sorted, valuePath, value);
    }
  }

  lemma TookLater(t0: Tree, h0: History, t: Tree, h: History, course: Course, h2: History)
    requires Evolves(t0, h0, t, h, {}) && Took(t, h, course, h2)
    ensures Took(t0, h0, course, h2)
  {
    EvolvesTransitive(t0, h0, t, h, course.reading, course.readAt, {});
  }

  lemma AchievedLater(t0: Tree, h0: History, t: Tree, h: History, r: Attempt, course: Course, t1: Tree, h1: History,
                     infos: seq<LockInfo>, valuePath: Path, oldValuePath: Path,
                     copyValues: bool, checkPartExist: bool, dryRun: bool)
    requires Evolves(t0, h0, t, h, {}) && h <= h1
    requires Achieved(r, course, t, |h|, t1, h1, infos, valuePath, oldValuePath, copyValues, checkPartExist, dryRun)
    ensures Achieved(r, course, t0, |h0|, t1, h1, infos, valuePath, oldValuePath, copyValues, checkPartExist, dryRun)
  {
    forall i | 0 <= i < |infos| && infos[i].lockPath !in course.locks
      ensures Excused(t0, h1, |h0|, infos[i], checkPartExist)
    {
      ExcusedEarlier(t0, h0, t, h, h1, infos[i], checkPartExist);
    }
    PartsSeenEarlier(t0, h0, t, h, h1, course.parts);
    if r.Created? || r.Raised? {
      ParentsSeenEarlier(t0, h0, t, h, h1, course.locks, Members(course.parents));
    }
  }

  /** One attempt of several, accounted for from the first one on. */
  method Attempted(zk: Session, infos: seq<LockInfo>, valuePath: Path, oldValuePath: Path,
                   copyValues: bool, checkPartExist: bool, dryRun: bool, ghost t0: Tree, ghost h0: History)
    returns (r: Attempt, ghost course: Course)
    requires zk.Valid() && Evolves(t0, h0, zk.tree, zk.history, {})
    modifies zk`tree, zk`foreign, zk`history
    ensures zk.Valid() && Took(t0, h0, course, zk.history)
    ensures r != Created ==> Evolves(t0, h0, zk.tree, zk.history, {})
    ensures Work(zk.history, zk.foreign) == old(Work(zk.history, zk.foreign))
    ensures Achieved(r, course, t0, |h0|, zk.tree, zk.history,
                    infos, valuePath, oldValuePath, copyValues, checkPartExist, dryRun)
    ensures zk.history == h0 && WellShaped(LockPaths(infos)) ==> Settled(r, course, t0, infos, checkPartExist, dryRun)
  {
    ghost var t, h := zk.tree, zk.history;
    DR.UnchangedTree(t0, h0, t, h);
    r, course := CreateLocks(zk, infos, valuePath, oldValuePath, copyValues, checkPartExist, dryRun);
    TookLater(t0, h0, t, h, course, zk.history);
    AchievedLater(t0, h0, t, h, r, course, zk.tree, zk.history,
                 infos, valuePath, oldValuePath, copyValues, checkPartExist, dryRun);
    EvolvesTransitive(t0, h0, course.reading, course.readAt, course.before, zk.history, {});
  }

  /** Attempts that failed because a parent had vanished or appeared. */
  ghost predicate RetriedFor(earlier: seq<Attempt>) {
    forall i :: 0 <= i < |earlier| ==> earlier[i] == Raised(NoNode) || earlier[i] == Raised(NodeExists)
  }

  lemma OneEarlier(failed: Attempt, earlier: seq<Attempt>)
    requires RetriedFor(earlier) && (failed == Raised(NoNode) || failed == Raised(NodeExists))
    ensures RetriedFor([failed] + earlier)
  {
  }

  /** What `@retry` does: while a parent appears or vanishes it tries again, as often as is left. */
  method Retried(zk: Session, infos: seq<LockInfo>, valuePath: Path, oldValuePath: Path,
                 copyValues: bool, checkPartExist: bool, dryRun: bool, left: nat, ghost t0: Tree, ghost h0: History)
    returns (r: Attempt, ghost course: Course, ghost earlier: seq<Attempt>)
    requires zk.Valid() && Evolves(t0, h0, zk.tree, zk.history, {}) && left > 0
    modifies zk`tree, zk`foreign, zk`history
    ensures zk.Valid() && Took(t0, h0, course, zk.history)
    ensures Work(zk.history, zk.foreign) == old(Work(zk.history, zk.foreign))
    ensures Achieved(r, course, t0, |h0|, zk.tree, zk.history,
                    infos, valuePath, oldValuePath, copyValues, checkPartExist, dryRun)
    ensures zk.history == h0 && WellShaped(LockPaths(infos)) ==> Settled(r, course, t0, infos, checkPartExist, dryRun)
    ensures |earlier| < left && RetriedFor(earlier)
    ensures r == Raised(NoNode) || r == Raised(NodeExists) ==> |earlier| == left - 1
    decreases left
  {
    r, course := Attempted(zk, infos, valuePath, oldValuePath, copyValues, checkPartExist, dryRun, t0, h0);
    earlier := [];
    if left > 1 && (r == Raised(NoNode) || r == Raised(NodeExists)) {
      ghost var failed := r;
      r, course, earlier :=
        Retried(zk, infos, valuePath, oldValuePath, copyValues, checkPartExist, dryRun, left - 1, t0, h0);
      OneEarlier(failed, earlier);
      earlier := [failed] + earlier;
    }
  }

  /** `_create_locks_in_transaction` under `@retry`: up to three attempts; the course is that of the last one. */
  method CreateWithRetry(zk: Session, infos: seq<LockInfo>, valuePath: Path, oldValuePath: Path,
                         copyValues: bool, checkPartExist: bool, dryRun: bool)
    returns (r: Attempt, ghost course: Course, ghost earlier: seq<Attempt>)
    requires zk.Valid()
    modifies zk`tree, zk`foreign, zk`history
    ensures zk.Valid() && Took(old(zk.tree), old(zk.history), course, zk.history)
    ensures Work(zk.history, zk.foreign) == old(Work(zk.history, zk.foreign))
    ensures Achieved(r, course, old(zk.tree), |old(zk.history)|, zk.tree, zk.history,
                    infos, valuePath, oldValuePath, copyValues, checkPartExist, dryRun)
    ensures zk.history == old(zk.history) && WellShaped(LockPaths(infos)) ==>
              Settled(r, course, old(zk.tree), infos, checkPartExist, dryRun)
    ensures |earlier| <= 2 && RetriedFor(earlier)
    ensures r == Raised(NoNode) || r == Raised(NodeExists) ==> |earlier| == 2
  {
    EvolvesAlone(zk.tree, zk.tree, zk.history, {});
    r, course, earlier :=
      Retried(zk, infos, valuePath, oldValuePath, copyValues, checkPartExist, dryRun, 3, zk.tree, zk.history);
  }
}
