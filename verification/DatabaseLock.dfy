/**
 * `DatabaseLockManager`: the election of the first replica of a database, as the steps of any number
 * of participants on one ZooKeeper tree. Every step is one request or one local decision.
 */
module DatabaseLock {
  import opened ZkTree
  import opened Transaction

  datatype Config = Config(db: Path, lock: Path, ensureDbParent: bool) {
    /** The database root and the lock are different nodes, neither below the other. */
    ghost predicate Valid() {
      && db != [] && lock != [] && ValidPath(db) && ValidPath(lock)
      && !(db <= lock) && !(lock <= db)
    }
  }

  datatype Phase =
    | EnsureLockRoot
    | CreateLockRoot
    | EnsureDbParent
    | CreateDbParent
    | Acquire
    | CheckDb(cause: Error)
    | CheckLock(cause: Error, dbExists: bool)
    | Enter
    | Wait
    | Follow
    | Hold
    | Exit(normal: bool)
    | Release(normal: bool)
    | Completed(first: bool, normal: bool)
    | GaveUp(raise: Raise)
    | Crashed

  type Pid = nat

  datatype State = State(tree: Tree, procs: map<Pid, Phase>)

  /** The transaction of `_try_acquire_first_replica_lock`. */
  function AcquireOps(c: Config): seq<Op>
  {
    [Create(c.db, "DatabaseReplicated"), Delete(c.db), Create(c.lock, "")]
  }

  predicate Running(p: Phase) {
    !p.Completed? && !p.GaveUp? && !p.Crashed?
  }

  /** Between a successful acquire and the end of the release. */
  predicate InCriticalSection(p: Phase) {
    p.Hold? || p.Exit? || p.Release?
  }

  predicate CompletedAsFirst(p: Phase) {
    p == Completed(true, true)
  }

  // ---------------------------------------------------------------- the acquiring transaction

  lemma {:induction false} AcquireByCases(c: Config, t: Tree)
    requires c.Valid() && WellFormed(t)
    ensures Multi(t, AcquireOps(c)) ==
            if Parent(c.db) !in t then Aborted(0, NoNode)
            else if c.db in t then Aborted(0, NodeExists)
            else if Parent(c.lock) !in t then Aborted(2, NoNode)
            else if c.lock in t then Aborted(2, NodeExists)
            else Committed(t[c.lock := Znode("", 0)])
  {
    var ops := AcquireOps(c);
    if Parent(c.db) in t && c.db !in t {
      var t1 := t[c.db := Znode("DatabaseReplicated", 0)];
      assert Apply(t, ops[0]) == Ok(t1);
      assert Children(t1, c.db) == {} by {
        forall name ensures c.db + [name] !in t1 {
          assert Parent(c.db + [name]) == c.db;
        }
      }
      assert t1 - {c.db} == t;
      assert Apply(t1, ops[1]) == Ok(t);
      assert ops[1..][1..] == [ops[2]];
      MultiOne(t, ops[2]);
      assert Multi(t1, ops[1..]) == match Multi(t, ops[1..][1..])
        case Committed(t2) => Committed(t2)
        case Aborted(at, e) => Aborted(at + 1, e);
    }
  }

  lemma {:induction false} MultiOne(t: Tree, op: Op)
    ensures Multi(t, [op]) == match Apply(t, op) case Ok(t1) => Committed(t1) case Failed(e) => Aborted(0, e)
  {
    assert [op][1..] == [];
  }

  /**
   * What becomes of a contender whose parent paths exist. It wins iff neither node exists; it ends
   * with an exception nobody catches iff only the lock exists and the result list is padded.
   */
  lemma ContenderOutcome(c: Config, t: Tree, padded: bool)
    requires c.Valid() && WellFormed(t) && Parent(c.db) in t && Parent(c.lock) in t
    ensures Raised(t, AcquireOps(c), padded) == Nothing <==> c.db !in t && c.lock !in t
    ensures Raised(t, AcquireOps(c), padded) == Zk(NodeExists) <==> c.db in t || (c.lock in t && !padded)
    ensures Raised(t, AcquireOps(c), padded) == Zk(RolledBack) <==> c.db !in t && c.lock in t && padded
  {
    AcquireByCases(c, t);
  }

  // ---------------------------------------------------------------- steps

  /** The phase after `_try_acquire_first_replica_lock` has sent its transaction. */
  function AfterAcquire(raise: Raise): Phase {
    match raise
    case Nothing => Hold
    case Zk(NodeExists) => CheckDb(NodeExists)
    case Zk(NoNode) => CheckDb(NoNode)
    case other => GaveUp(other)
  }

  /** `create(..., makepath=True)`: the missing ancestors and the node. */
  ghost predicate PathCreated(t: Tree, path: Path, t1: Tree) {
    && WellFormed(t1)
    && (forall p :: p in t ==> p in t1 && t1[p] == t[p])
    && (forall p :: p in t1 && p !in t ==> p <= path)
    && path in t1
  }

  /** The step a participant in phase `p` takes from tree `t` to phase `p1` and tree `t1`. */
  ghost predicate Step(c: Config, t: Tree, p: Phase, t1: Tree, p1: Phase)
    requires c.Valid()
  {
    match p
    case EnsureLockRoot => t1 == t && p1 == if Parent(c.lock) in t then EnsureDbParent else CreateLockRoot
    case CreateLockRoot =>
      // a concurrent creation of the same node is ignored
      p1 == EnsureDbParent && (if Parent(c.lock) in t then t1 == t else PathCreated(t, Parent(c.lock), t1))
    case EnsureDbParent =>
      t1 == t && p1 == if !c.ensureDbParent || Parent(c.db) in t then Acquire else CreateDbParent
    case CreateDbParent =>
      p1 == Acquire && (if Parent(c.db) in t then t1 == t else PathCreated(t, Parent(c.db), t1))
    case Acquire =>
      && t1 == After(t, AcquireOps(c))
      && exists padded :: p1 == AfterAcquire(Raised(t, AcquireOps(c), padded))
    case CheckDb(e) => t1 == t && p1 == CheckLock(e, c.db in t)
    case CheckLock(e, dbExists) =>
      t1 == t && p1 == if e == NoNode || (!dbExists && c.lock !in t) then GaveUp(RuntimeError) else Enter
    case Enter => t1 == t && p1 == if c.lock in t then Wait else Follow
    case Wait =>
      // a poll: go on waiting, run into the timeout, or see the lock gone
      t1 == t && (if c.lock in t then p1 == Wait || p1 == GaveUp(RuntimeError) else p1 == Follow)
    case Follow => t1 == t && exists normal :: p1 == Completed(false, normal)
    case Hold =>
      // the end of the body of the `with` statement
      t1 == t && exists normal :: p1 == Exit(normal)
    case Exit(normal) =>
      // the lock is looked up; errors of `_remove_lock` are swallowed
      t1 == t && (p1 == Completed(true, normal) || (p1 == Release(normal) && c.lock in t))
    case Release(normal) =>
      // the delete succeeds, finds nothing, or is lost with or without effect
      p1 == Completed(true, normal) && (t1 == t || (Apply(t, Delete(c.lock)).Ok? && t1 == t - {c.lock}))
    case _ => false
  }

  /** Anything else that happens to the tree, only not to the lock. */
  ghost predicate World(c: Config, t: Tree, t1: Tree) {
    WellFormed(t1) && (c.lock in t1 <==> c.lock in t)
  }

  ghost predicate Next(c: Config, s: State, s1: State)
    requires c.Valid()
  {
    || (s1.procs == s.procs && World(c, s.tree, s1.tree))
    || (exists i :: ProcessStep(c, s, s1, i))
  }

  ghost predicate ProcessStep(c: Config, s: State, s1: State, i: Pid)
    requires c.Valid()
  {
    && i in s.procs && i in s1.procs
    && s1.procs == s.procs[i := s1.procs[i]]
    && (Step(c, s.tree, s.procs[i], s1.tree, s1.procs[i]) ||
        // the process dies; the lock is no ephemeral node
        (s1.tree == s.tree && Running(s.procs[i]) && s1.procs[i].Crashed?))
  }

  /** Any tree, any participants, all about to enter; a lock may be left over from the past. */
  ghost predicate Init(s: State) {
    WellFormed(s.tree) && forall i :: i in s.procs ==> s.procs[i].EnsureLockRoot?
  }

  // ---------------------------------------------------------------- safety

  ghost predicate MutualExclusion(s: State) {
    forall i, j :: i in s.procs && j in s.procs && i != j ==>
      !(InCriticalSection(s.procs[i]) && InCriticalSection(s.procs[j]))
  }

  ghost predicate LockHeld(c: Config, s: State) {
    forall i :: i in s.procs && InCriticalSection(s.procs[i]) ==> c.lock in s.tree
  }

  predicate EndedNormally(p: Phase) {
    p == Exit(true) || p == Release(true) || CompletedAsFirst(p)
  }

  /** A normal end as first replica leaves the database root behind. */
  ghost predicate RootCreated(c: Config, s: State) {
    forall i :: i in s.procs && EndedNormally(s.procs[i]) ==> c.db in s.tree
  }

  ghost predicate OneWinner(s: State) {
    forall i, j :: i in s.procs && j in s.procs && i != j && CompletedAsFirst(s.procs[i]) ==>
      !CompletedAsFirst(s.procs[j]) && !InCriticalSection(s.procs[j])
  }

  /** What every step keeps, whatever becomes of the database root. */
  ghost predicate Exclusive(c: Config, s: State) {
    WellFormed(s.tree) && MutualExclusion(s) && LockHeld(c, s)
  }

  /** What holds besides as long as the root is created by whoever ends normally, and stays. */
  ghost predicate Decided(c: Config, s: State) {
    RootCreated(c, s) && OneWinner(s)
  }

  /** The only way into the critical section: no lock and no root before, only the lock added. */
  lemma AcquireStep(c: Config, t: Tree, t1: Tree, p1: Phase)
    requires c.Valid() && WellFormed(t) && Step(c, t, Acquire, t1, p1)
    ensures WellFormed(t1)
    ensures p1.Hold? ==> c.lock !in t && c.db !in t && t1 == t[c.lock := Znode("", 0)] && c.db !in t1
    ensures !p1.Hold? ==> t1 == t && !InCriticalSection(p1) && !p1.Completed?
  {
    AcquireByCases(c, t);
    MultiKeepsWellFormed(t, AcquireOps(c));
  }

  /** What a single step may do to the two nodes that matter. */
  lemma StepEffect(c: Config, t: Tree, p: Phase, t1: Tree, p1: Phase)
    requires c.Valid() && WellFormed(t) && Step(c, t, p, t1, p1)
    ensures WellFormed(t1)
    ensures c.db in t ==> c.db in t1
    ensures c.lock in t && c.lock !in t1 ==> p.Release?
    ensures InCriticalSection(p1) ==> InCriticalSection(p) || (c.lock !in t && c.lock in t1 && c.db !in t)
    ensures CompletedAsFirst(p1) ==> p == Exit(true) || p == Release(true)
    ensures p1 == Exit(true) ==> p == Hold && t1 == t
    ensures p1 == Release(true) ==> p == Exit(true)
    ensures !p.Completed?
  {
    match p
    case Acquire => AcquireStep(c, t, t1, p1);
    case Release(_) =>
      ApplyKeepsWellFormed(t, Delete(c.lock));
    case _ =>
  }

  /** What the invariants need to know about a step, whoever takes it. */
  ghost predicate StepFacts(c: Config, t: Tree, p: Phase, t1: Tree, p1: Phase) {
    && (c.lock in t && c.lock !in t1 ==> p.Release? && !InCriticalSection(p1))
    && (InCriticalSection(p1) ==> InCriticalSection(p) || (c.lock !in t && c.lock in t1 && c.db !in t))
    && (CompletedAsFirst(p1) ==> InCriticalSection(p))
    && (EndedNormally(p1) ==> EndedNormally(p) || (p == Hold && p1 == Exit(true)))
    && !CompletedAsFirst(p)
  }

  lemma StepHasFacts(c: Config, s: State, s1: State, i: Pid)
    requires c.Valid() && WellFormed(s.tree) && ProcessStep(c, s, s1, i)
    ensures WellFormed(s1.tree) && StepFacts(c, s.tree, s.procs[i], s1.tree, s1.procs[i])
  {
    if Step(c, s.tree, s.procs[i], s1.tree, s1.procs[i]) {
      StepEffect(c, s.tree, s.procs[i], s1.tree, s1.procs[i]);
    }
  }

  /** One participant moves, the others stay. */
  ghost predicate OneMoves(s: State, s1: State, i: Pid) {
    i in s.procs && i in s1.procs && s1.procs == s.procs[i := s1.procs[i]]
  }

  lemma ExclusionStep(c: Config, s: State, s1: State, i: Pid)
    requires Exclusive(c, s) && OneMoves(s, s1, i)
    requires StepFacts(c, s.tree, s.procs[i], s1.tree, s1.procs[i])
    ensures MutualExclusion(s1) && LockHeld(c, s1)
  {
  }

  /** Exclusion and the presence of the lock are kept by every participant and by the rest of the world. */
  lemma ExclusiveNext(c: Config, s: State, s1: State)
    requires c.Valid() && Exclusive(c, s) && Next(c, s, s1)
    ensures Exclusive(c, s1)
  {
    if i :| ProcessStep(c, s, s1, i) {
      StepHasFacts(c, s, s1, i);
      ExclusionStep(c, s, s1, i);
    }
  }

  /** Nobody deletes the database root, and whoever ends normally as first replica has created it. */
  ghost predicate RootStays(c: Config, s: State, s1: State) {
    && (c.db in s.tree ==> c.db in s1.tree)
    && (forall i :: i in s.procs && i in s1.procs && s.procs[i] == Hold && s1.procs[i] == Exit(true) ==> c.db in s1.tree)
  }

  lemma WinnerStep(c: Config, s: State, s1: State, i: Pid)
    requires Exclusive(c, s) && Decided(c, s) && OneMoves(s, s1, i) && RootStays(c, s, s1)
    requires StepFacts(c, s.tree, s.procs[i], s1.tree, s1.procs[i])
    ensures Decided(c, s1)
  {
  }

  lemma DecidedNext(c: Config, s: State, s1: State)
    requires c.Valid() && Exclusive(c, s) && Decided(c, s) && Next(c, s, s1) && RootStays(c, s, s1)
    ensures Decided(c, s1)
  {
    if i :| ProcessStep(c, s, s1, i) {
      StepHasFacts(c, s, s1, i);
      WinnerStep(c, s, s1, i);
    }
  }

  ghost predicate IsRun(c: Config, run: seq<State>)
    requires c.Valid()
  {
    run != [] && Init(run[0]) && forall k :: 0 <= k < |run| - 1 ==> Next(c, run[k], run[k + 1])
  }

  lemma {:induction false} ExclusiveAlways(c: Config, run: seq<State>, k: nat)
    requires c.Valid() && IsRun(c, run) && k < |run|
    ensures Exclusive(c, run[k])
  {
    if k > 0 {
      ExclusiveAlways(c, run, k - 1);
      ExclusiveNext(c, run[k - 1], run[k]);
    }
  }

  ghost predicate RootAlwaysStays(c: Config, run: seq<State>) {
    forall k :: 0 <= k < |run| - 1 ==> RootStays(c, run[k], run[k + 1])
  }

  lemma {:induction false} DecidedAlways(c: Config, run: seq<State>, k: nat)
    requires c.Valid() && IsRun(c, run) && RootAlwaysStays(c, run) && k < |run|
    ensures Decided(c, run[k])
  {
    if k > 0 {
      DecidedAlways(c, run, k - 1);
      ExclusiveAlways(c, run, k - 1);
      assert Next(c, run[k - 1], run[k]) && RootStays(c, run[k - 1], run[k]);
      DecidedNext(c, run[k - 1], run[k]);
    }
  }

  /** Participant `i` is done as first replica at point `k` of the run. */
  ghost predicate HasCompleted(run: seq<State>, k: nat, i: Pid) {
    k < |run| && i in run[k].procs && CompletedAsFirst(run[k].procs[i])
  }

  /**
   * In every interleaving at most one participant is between acquire and release, and the lock node exists all
   * that time. If besides nobody deletes the database root and whoever ends normally has created it, at most one
   * participant ever completes as first replica.
   */
  lemma Election(c: Config, run: seq<State>)
    requires c.Valid() && IsRun(c, run)
    ensures forall k :: 0 <= k < |run| ==> MutualExclusion(run[k]) && LockHeld(c, run[k])
    ensures RootAlwaysStays(c, run) ==>
              forall k, m, i, j :: HasCompleted(run, k, i) && HasCompleted(run, m, j) ==> i == j
  {
    forall k | 0 <= k < |run| ensures Exclusive(c, run[k]) {
      ExclusiveAlways(c, run, k);
    }
    if RootAlwaysStays(c, run) {
      forall k, m, i, j | HasCompleted(run, k, i) && HasCompleted(run, m, j) ensures i == j {
        OnlyOneCompletes(c, run, k, m, i, j);
      }
    }
  }

  lemma OnlyOneCompletes(c: Config, run: seq<State>, k: nat, m: nat, i: Pid, j: Pid)
    requires c.Valid() && IsRun(c, run) && RootAlwaysStays(c, run)
    requires HasCompleted(run, k, i) && HasCompleted(run, m, j)
    ensures i == j
  {
    var last := if k < m then m else k;
    CompletedStays(c, run, k, last, i);
    CompletedStays(c, run, m, last, j);
    DecidedAlways(c, run, last);
  }

  lemma {:induction false} CompletedStays(c: Config, run: seq<State>, k: nat, m: nat, i: Pid)
    requires c.Valid() && IsRun(c, run) && k <= m < |run| && HasCompleted(run, k, i)
    ensures HasCompleted(run, m, i)
    decreases m - k
  {
    if k < m {
      CompletedStays(c, run, k, m - 1, i);
      var s, s1 := run[m - 1], run[m];
      assert Next(c, s, s1);
      if j :| ProcessStep(c, s, s1, j) {
        assert !Running(s.procs[i]);
      }
    }
  }

  /** While a participant is inside, no acquiring transaction of another one can commit. */
  lemma NobodyGetsInMeanwhile(c: Config, s: State, i: Pid, s1: State, j: Pid)
    requires c.Valid() && Exclusive(c, s) && i in s.procs && InCriticalSection(s.procs[i])
    requires ProcessStep(c, s, s1, j) && j != i && s.procs[j].Acquire?
    ensures !InCriticalSection(s1.procs[j])
    ensures s1.tree == s.tree
  {
    if Step(c, s.tree, s.procs[j], s1.tree, s1.procs[j]) {
      AcquireStep(c, s.tree, s1.tree, s1.procs[j]);
    }
  }

  // ---------------------------------------------------------------- forced removal

  /** `--force-remove-lock`: delete the lock before trying to acquire it. */
  ghost predicate ForcedStart(c: Config, s: State, s1: State, i: Pid) {
    && i in s.procs && s.procs[i].EnsureLockRoot?
    && s1.procs == s.procs
    && Apply(s.tree, Delete(c.lock)).Ok? && s1.tree == s.tree - {c.lock}
  }

  /**
   * With the flag exclusion fails whenever a second participant starts while the first one is inside
   * and has not created the database root yet: four steps later both are inside.
   */
  lemma ForcedRemovalBreaksExclusion(c: Config, s: State, i: Pid, j: Pid)
    returns (forced: State, rooted: State, ready: State, both: State)
    requires c.Valid() && Exclusive(c, s) && i in s.procs && j in s.procs && i != j
    requires s.procs[i] == Hold && s.procs[j] == EnsureLockRoot
    requires c.db !in s.tree && Parent(c.db) in s.tree && Parent(c.lock) in s.tree
    requires Children(s.tree, c.lock) == {}
    ensures ForcedStart(c, s, forced, j) && Next(c, forced, rooted) && Next(c, rooted, ready) && Next(c, ready, both)
    ensures !MutualExclusion(both)
  {
    var t := s.tree - {c.lock};
    ApplyKeepsWellFormed(s.tree, Delete(c.lock));
    FreeAcquire(c, t);
    forced := State(t, s.procs);
    rooted := State(t, s.procs[j := EnsureDbParent]);
    ready := State(t, rooted.procs[j := Acquire]);
    both := State(t[c.lock := Znode("", 0)], ready.procs[j := Hold]);
    assert ProcessStep(c, forced, rooted, j);
    assert ProcessStep(c, rooted, ready, j);
    assert ProcessStep(c, ready, both, j);
    assert InCriticalSection(both.procs[i]) && InCriticalSection(both.procs[j]);
  }

  /** On a tree where both parents exist and neither node does, the transaction commits. */
  lemma FreeAcquire(c: Config, t: Tree)
    requires c.Valid() && WellFormed(t) && Parent(c.db) in t && Parent(c.lock) in t
    requires c.db !in t && c.lock !in t
    ensures Step(c, t, Acquire, t[c.lock := Znode("", 0)], Hold)
  {
    AcquireByCases(c, t);
    assert AfterAcquire(Raised(t, AcquireOps(c), true)) == Hold;
  }

  // ---------------------------------------------------------------- one participant's way in

  /** The trees that the requests of one participant's `__enter__` meet; between them others may act. */
  datatype Met = Met(acquire: Tree, checkDb: Tree, checkLock: Tree, enter: Tree, padded: bool)

  function Outcome(c: Config, met: Met): Raise {
    Raised(met.acquire, AcquireOps(c), met.padded)
  }

  /** The phase in which `__enter__` has decided: holding the lock, waiting for it, following, or given up. */
  function Elected(c: Config, met: Met): Phase {
    match AfterAcquire(Outcome(c, met))
    case CheckDb(cause) =>
      if cause == NoNode || (c.db !in met.checkDb && c.lock !in met.checkLock) then GaveUp(RuntimeError)
      else if c.lock in met.enter then Wait
      else Follow
    case other => other
  }

  /** The decision is reached by steps of the state machine, each on the tree that its request meets. */
  lemma ElectedBySteps(c: Config, met: Met)
    requires c.Valid()
    ensures var first := AfterAcquire(Outcome(c, met));
            && Step(c, met.acquire, Acquire, After(met.acquire, AcquireOps(c)), first)
            && (first.CheckDb? ==>
                  var second := CheckLock(first.cause, c.db in met.checkDb);
                  && Step(c, met.checkDb, first, met.checkDb, second)
                  && if Elected(c, met).GaveUp? then
                       Step(c, met.checkLock, second, met.checkLock, Elected(c, met))
                     else
                       && Step(c, met.checkLock, second, met.checkLock, Enter)
                       && Step(c, met.enter, Enter, met.enter, Elected(c, met)))
            && (!first.CheckDb? ==> Elected(c, met) == first)
  {
  }

  /**
   * The decision by the trees: the first replica finds neither node. A participant that found one gives up if it
   * is told of rolled-back operations, or if both nodes are gone when it looks again: the holder it lost to
   * has released the lock without creating the root.
   */
  lemma ElectedIff(c: Config, met: Met)
    requires c.Valid() && WellFormed(met.acquire) && Parent(c.db) in met.acquire && Parent(c.lock) in met.acquire
    ensures Elected(c, met).Hold? <==> c.db !in met.acquire && c.lock !in met.acquire
    ensures Elected(c, met).GaveUp? <==>
              if c.db in met.acquire || (c.lock in met.acquire && !met.padded) then
                c.db !in met.checkDb && c.lock !in met.checkLock
              else c.lock in met.acquire
    ensures Elected(c, met).Wait? <==> !Elected(c, met).Hold? && !Elected(c, met).GaveUp? && c.lock in met.enter
    ensures Elected(c, met).Follow? <==> !Elected(c, met).Hold? && !Elected(c, met).GaveUp? && c.lock !in met.enter
    ensures Elected(c, met).GaveUp? ==>
              Elected(c, met).raise == if c.db !in met.acquire && met.padded then Zk(RolledBack) else RuntimeError
  {
    ContenderOutcome(c, met.acquire, met.padded);
  }

  /** Without a parent that one of its creates needs, a participant gives up, whatever it meets later. */
  lemma GivesUpWithoutParents(c: Config, met: Met)
    requires c.Valid() && WellFormed(met.acquire)
    requires Parent(c.db) !in met.acquire || (c.db !in met.acquire && Parent(c.lock) !in met.acquire)
    ensures Elected(c, met) ==
            GaveUp(if Parent(c.db) in met.acquire && met.padded then Zk(RolledBack) else RuntimeError)
  {
    AcquireByCases(c, met.acquire);
  }

  /**
   * The two ways to give up on existing parents: told of rolled-back operations while another one holds the lock,
   * and told the plain error when that one has released the lock by the time it looks again.
   */
  lemma ContenderGivesUp(c: Config, held: Tree, free: Tree)
    requires c.Valid() && WellFormed(held) && Parent(c.db) in held && Parent(c.lock) in held
    requires c.lock in held && c.db !in held && c.lock !in free && c.db !in free
    ensures Elected(c, Met(held, held, held, held, true)) == GaveUp(Zk(RolledBack))
    ensures Elected(c, Met(held, free, free, free, false)) == GaveUp(RuntimeError)
  {
    ContenderOutcome(c, held, true);
    ContenderOutcome(c, held, false);
  }

  const SAMPLE := Config(["clickhouse", "db"], ["lock", "db"], false)
  const FREE: Tree := map[[] := Znode("", 0), ["clickhouse"] := Znode("", 0), ["lock"] := Znode("", 0)]

  lemma ContenderGivesUpSample()
    ensures SAMPLE.Valid() && WellFormed(FREE[SAMPLE.lock := Znode("", 0)])
    ensures var held := FREE[SAMPLE.lock := Znode("", 0)];
            && Elected(SAMPLE, Met(held, held, held, held, true)) == GaveUp(Zk(RolledBack))
            && Elected(SAMPLE, Met(held, FREE, FREE, FREE, false)) == GaveUp(RuntimeError)
  {
    var held := FREE[SAMPLE.lock := Znode("", 0)];
    assert SAMPLE.db[0] != SAMPLE.lock[0];
    assert Parent(SAMPLE.db) == ["clickhouse"] && Parent(SAMPLE.lock) == ["lock"];
    assert Parent(["clickhouse"]) == [] && Parent(["lock"]) == [];
    ContenderGivesUp(SAMPLE, held, FREE);
  }

  // ---------------------------------------------------------------- the code behind a step

  /** `_try_acquire_first_replica_lock` after its path checks: the builder's `with` block is one step. */
  method TryAcquire(server: Server, c: Config) returns (p: Phase)
    requires c.Valid()
    modifies server
    ensures Step(c, old(server.tree), Acquire, server.tree, p)
  {
    var builder := new Builder(server);
    var r1 := builder.CreateNode(c.db, "DatabaseReplicated");
    var r2 := builder.DeleteNode(c.db);
    var r3 := builder.CreateNode(c.lock, "");
    assert builder.txn == AcquireOps(c);
    var raised: Raise;
    ghost var padded: bool;
    raised, padded := builder.Exit(false);
    p := AfterAcquire(raised);
    assert p == AfterAcquire(Raised(old(server.tree), AcquireOps(c), padded));
  }
}
