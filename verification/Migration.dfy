/**
 * `_migrate_to_replicated`: what a participant does to its server and to the lock, in which order,
 * on every normal and exceptional path.
 */
module Migration {
  import opened TableUuid
  import opened Wrappers
  import Lock = DatabaseLock

  /** What the metadata file of the database says; a write that fails may leave it unreadable. */
  datatype Engine = Atomic | Replicated | Unreadable

  /** The calls with an effect; each is made at most once in a run. */
  datatype Call =
    | ForceRemoveLock | AcquireLock | WaitForLock | DetachDb | WriteEngine | SyncUuids
    | AttachDb | RestartServer | RestoreReplica | ReleaseLock

  datatype Event = Event(call: Call, ok: bool)

  /**
   * What decides the course of a run: which calls work, whether the checks pass before and under the lock,
   * what the election says, whether the synchronisation changed a UUID, and what a write of the engine leaves
   * in the file if it fails.
   */
  datatype Env = Env(
    failing: set<Call>, checksPass: bool, recheckPasses: bool, becomesFirst: bool, lockHeld: bool,
    uuidsChanged: bool, leftover: Engine)
  {
    predicate Works(call: Call) {
      call !in failing
    }
  }

  // ---------------------------------------------------------------- specification

  function Tried(env: Env, call: Call): Event {
    Event(call, env.Works(call))
  }

  /** How the database comes back: by a restart only if the synchronisation succeeded and changed a UUID. */
  function Back(env: Env, first: bool): Call {
    if env.Works(WriteEngine) && !first && env.Works(SyncUuids) && env.uuidsChanged then RestartServer else AttachDb
  }

  /** What a run under the lock does inside `AttacherContext`. */
  function AttacherTrace(env: Env, first: bool): seq<Event> {
    if !env.Works(DetachDb) then [Tried(env, DetachDb)]
    else
      [Tried(env, DetachDb), Tried(env, WriteEngine)] +
      (if env.Works(WriteEngine) && !first then [Tried(env, SyncUuids)] else []) +
      [Tried(env, Back(env, first))]
  }

  predicate AllWorked(trace: seq<Event>) {
    forall i :: 0 <= i < |trace| ==> trace[i].ok
  }

  /** What a run does under the lock. */
  function LockedTrace(env: Env, first: bool): seq<Event> {
    if !env.recheckPasses then []
    else
      var inside := AttacherTrace(env, first);
      if AllWorked(inside) then inside + [Tried(env, RestoreReplica)] else inside
  }

  /** Whether `__enter__` lets the participant through, and as what. */
  predicate Enters(env: Env) {
    env.Works(AcquireLock) && (env.becomesFirst || !env.lockHeld || env.Works(WaitForLock))
  }

  function EnterTrace(env: Env, force: bool): seq<Event> {
    (if force then [Tried(env, ForceRemoveLock)] else []) +
    [Tried(env, AcquireLock)] +
    if env.Works(AcquireLock) && !env.becomesFirst && env.lockHeld then [Tried(env, WaitForLock)] else []
  }

  predicate Starts(env: Env, engine: Engine, dryRun: bool) {
    engine == Atomic && env.checksPass && !dryRun
  }

  function LockTrace(env: Env, force: bool): seq<Event> {
    if !Enters(env) then EnterTrace(env, force)
    else
      EnterTrace(env, force) + LockedTrace(env, env.becomesFirst) +
      if env.becomesFirst then [Tried(env, ReleaseLock)] else []
  }

  function Trace(env: Env, engine: Engine, force: bool, dryRun: bool): seq<Event> {
    if Starts(env, engine, dryRun) then LockTrace(env, force) else []
  }

  /** Whether the run ends with an exception. */
  predicate Raises(env: Env, engine: Engine, dryRun: bool) {
    if engine != Atomic || !env.checksPass then true
    else
      !dryRun && !(Enters(env) && env.recheckPasses && AllWorked(LockedTrace(env, env.becomesFirst)))
  }

  /** Whether the run gets to detach the database. */
  predicate Detaches(env: Env, engine: Engine, dryRun: bool) {
    Starts(env, engine, dryRun) && Enters(env) && env.recheckPasses && env.Works(DetachDb)
  }

  function EngineAfter(env: Env, engine: Engine, dryRun: bool): Engine {
    if !Detaches(env, engine, dryRun) then engine else if env.Works(WriteEngine) then Replicated else env.leftover
  }

  function LastOk(trace: seq<Event>): bool {
    trace != [] && trace[|trace| - 1].ok
  }

  // ---------------------------------------------------------------- the world of a run

  /** The database in ZooKeeper at some moment: whether it exists, and its tables. */
  datatype ZkDatabase = ZkDatabase(exists_: bool, tables: ZkTables)

  /** The outcomes of the checks that only look, and the digest of the replica's node if it has one. */
  datatype Checks = Checks(version: bool, schemas: bool, digest: Option<string>, tables: bool) {
    /** `_check_replica_digest` */
    predicate DigestFine() {
      digest.None? || digest.value == "0"
    }
  }

  /**
   * What a run meets: the calls that fail, the checks and the database in ZooKeeper before and under the lock,
   * where the election leads and on which trees, and what a failing write leaves of the engine.
   */
  datatype World = World(
    failing: set<Call>, checks: Checks, recheck: Checks, before: ZkDatabase, during: ZkDatabase,
    config: Lock.Config, met: Lock.Met, elected: Lock.Phase,
    leftover: Engine, localTables: seq<Table>, usesMacro: string -> bool)
  {
    predicate Works(call: Call) {
      call !in failing
    }

    /** The election is decided by the trees that were met; acquiring fails also for who gives up. */
    predicate Consistent() {
      elected == Lock.Elected(config, met) && (elected.GaveUp? ==> AcquireLock in failing)
    }
  }

  /** The report of the synchronisation's dry run. */
  function DryReport(tables: seq<Table>, database: ZkDatabase): Result<bool> {
    if database.exists_ then Report(tables, database.tables) else Ok(false)
  }

  /** The checks before the lock, after that of the engine. */
  predicate ChecksPass(world: World) {
    && world.checks.version
    && (world.before.exists_ || world.checks.schemas)
    && DryReport(world.localTables, world.before).Ok?
    && world.checks.DigestFine()
    && (!world.before.exists_ || world.checks.tables)
  }

  predicate RecheckPasses(world: World) {
    world.recheck.DigestFine() && (!world.during.exists_ || world.recheck.tables)
  }

  /** The course of a run, given what its synchronisation returned. */
  function Seen(world: World, sync: Result<bool>): Env {
    Env(if sync.Ok? then world.failing - {SyncUuids} else world.failing + {SyncUuids},
        ChecksPass(world), RecheckPasses(world), world.elected.Hold?, world.elected.Wait?, sync == Ok(true),
        world.leftover)
  }

  /** All data is kept, and if the synchronisation under the lock succeeds the UUIDs are those in ZooKeeper. */
  ghost predicate Synced(world: World, sync: Result<bool>, files: map<string, File>, store: Store,
                         files1: map<string, File>, store1: Store) {
    && NoSharing(store1) && WithData(store1) == WithData(store)
    && (sync.Ok? && world.during.exists_ ==>
          && Renamed(store, MovesOf(world.localTables, world.during.tables)) == Ok(store1)
          && FilesAfter(world.localTables, world.during.tables, files) == Ok(files1)
          && Report(world.localTables, world.during.tables) == sync)
    && (sync == Ok(false) ==> files1 == files && store1 == store)
    && (sync.Err? ==> Stopped(world.localTables, world.during.tables, files, store, files1, store1))
  }

  /**
   * What stops a run before the lock: another engine, an old server, schemas that differ between the replicas of a
   * database that ZooKeeper does not know, a table without a readable UUID there, a digest, or tables that differ.
   */
  ghost predicate ObstacleBefore(world: World, engine: Engine) {
    || engine != Atomic
    || !world.checks.version
    || (world.checks.digest.Some? && world.checks.digest.value != "0")
    || (!world.before.exists_ && !world.checks.schemas)
    || (world.before.exists_ && !world.checks.tables)
    || (world.before.exists_ && FirstUnreadable(world.localTables, world.before.tables))
  }

  /** A table without a readable UUID in ZooKeeper, behind tables whose UUIDs are those in ZooKeeper only. */
  ghost predicate FirstUnreadable(tables: seq<Table>, zk: ZkTables) {
    exists k :: UnreadableAt(tables, zk, k)
  }

  ghost predicate UnreadableAt(tables: seq<Table>, zk: ZkTables, k: int) {
    && 0 <= k < |tables|
    && (tables[k].name !in zk || zk[tables[k].name] == [] || !zk[tables[k].name][0].wellFormed)
    && forall i :: 0 <= i < k ==>
         tables[i].name in zk && zk[tables[i].name] != [] && zk[tables[i].name][0] == Clause(tables[i].uuid, true)
  }

  /** What stops it under the lock: by then a digest, or tables that differ. */
  ghost predicate ObstacleUnderLock(world: World) {
    || (world.recheck.digest.Some? && world.recheck.digest.value != "0")
    || (world.during.exists_ && !world.recheck.tables)
  }

  lemma {:induction false} ReportFails(tables: seq<Table>, zk: ZkTables)
    ensures Report(tables, zk).Err? <==> FirstUnreadable(tables, zk)
  {
    if tables != [] {
      ReportFails(tables[1..], zk);
      if k :| UnreadableAt(tables, zk, k) {
        assert k > 0 ==> UnreadableAt(tables[1..], zk, k - 1);
      }
      if Target(zk, tables[0]).Err? {
        assert UnreadableAt(tables, zk, 0);
      } else if Target(zk, tables[0]).value == tables[0].uuid {
        if k :| UnreadableAt(tables[1..], zk, k) {
          assert UnreadableAt(tables, zk, k + 1);
        }
      }
    }
  }

  /** The checks in those terms, and what they decide about the calls. */
  lemma CourseByChecks(world: World, sync: Result<bool>, engine: Engine, force: bool, dryRun: bool)
    ensures ObstacleBefore(world, engine) <==> !(engine == Atomic && ChecksPass(world))
    ensures ObstacleUnderLock(world) <==> !RecheckPasses(world)
    ensures ObstacleUnderLock(world) ==> forall e :: e in Trace(Seen(world, sync), engine, force, dryRun) ==> e.call != DetachDb
    ensures var env := Seen(world, sync);
            Starts(env, engine, dryRun) && Enters(env) && RecheckPasses(world) ==>
              Tried(env, DetachDb) in Trace(env, engine, force, dryRun)
  {
    var env := Seen(world, sync);
    ReportFails(world.localTables, world.before.tables);
    if Starts(env, engine, dryRun) && Enters(env) && RecheckPasses(world) {
      DetachIsTried(env, engine, force, dryRun);
    }
  }

  lemma DetachIsTried(env: Env, engine: Engine, force: bool, dryRun: bool)
    requires Starts(env, engine, dryRun) && Enters(env) && env.recheckPasses
    ensures Tried(env, DetachDb) in Trace(env, engine, force, dryRun)
  {
    var before, inside := EnterTrace(env, force), AttacherTrace(env, env.becomesFirst);
    var trace := Trace(env, engine, force, dryRun);
    assert inside[0] == Tried(env, DetachDb);
    assert trace[|before|] == inside[0];
  }

  lemma AttacherCases(env: Env, first: bool)
    ensures AllWorked(AttacherTrace(env, first)) <==>
              env.Works(DetachDb) && env.Works(WriteEngine) && (first || env.Works(SyncUuids)) && env.Works(Back(env, first))
  {
    var trace := AttacherTrace(env, first);
    if !env.Works(DetachDb) {
      assert !trace[0].ok;
    } else {
      assert trace[1] == Tried(env, WriteEngine) && trace[|trace| - 1] == Tried(env, Back(env, first));
      if env.Works(WriteEngine) && !first {
        assert trace[2] == Tried(env, SyncUuids);
      }
    }
  }

  lemma Regroup(a: seq<Event>, b: seq<Event>, c: seq<Event>, d: seq<Event>)
    ensures a + b + c + d == a + (b + c + d)
  {
  }

  /** Entering does not depend on the synchronisation that follows. */
  lemma EnterAhead(world: World, sync: Result<bool>, later: Result<bool>, force: bool)
    ensures EnterTrace(Seen(world, sync), force) == EnterTrace(Seen(world, later), force)
    ensures Enters(Seen(world, sync)) <==> Enters(Seen(world, later))
  {
  }

  // ---------------------------------------------------------------- the code

  class Migrator {
    const disk: Disk
    var engine: Engine
    var attached: bool
    var lockAcquired: bool
    var restartRequested: bool
    ghost var log: seq<Event>

    constructor (disk: Disk, engine: Engine)
      ensures this.disk == disk && this.engine == engine && log == []
      ensures attached && !lockAcquired && !restartRequested
    {
      this.disk, this.engine := disk, engine;
      attached, lockAcquired, restartRequested, log := true, false, false, [];
    }

    method Do(world: World, call: Call) returns (ok: bool)
      modifies this`log
      ensures ok == world.Works(call) && log == old(log) + [Event(call, ok)]
    {
      ok := world.Works(call);
      log := log + [Event(call, ok)];
    }

    /** `_run_pre_migration_checks` before the lock: the dry synchronisation is one of the checks. */
    method PreChecks(world: World) returns (ok: bool)
      requires NoSharing(disk.store)
      modifies disk
      ensures ok <==> engine == Atomic && ChecksPass(world)
      ensures disk.files == old(disk.files) && disk.store == old(disk.store)
    {
      if engine != Atomic || !world.checks.version || (!world.before.exists_ && !world.checks.schemas) {
        return false;
      }
      var report := disk.SyncTableUuids(
        world.localTables, world.before.tables, world.before.exists_, world.usesMacro, true);
      ok := report.Ok? && world.checks.DigestFine() && (!world.before.exists_ || world.checks.tables);
    }

    /** `_try_attach`: a failure is kept quiet only when a restart has been requested. */
    method TryAttach(world: World) returns (raised: bool)
      modifies this`log, this`attached
      ensures log == old(log) + [Event(AttachDb, world.Works(AttachDb))]
      ensures raised <==> !world.Works(AttachDb) && !restartRequested
      ensures attached == (old(attached) || world.Works(AttachDb))
    {
      var ok := Do(world, AttachDb);
      attached := attached || ok;
      raised := !ok && !restartRequested;
    }

    /** The synchronisation under the lock. */
    method Sync(world: World) returns (sync: Result<bool>)
      requires NoSharing(disk.store)
      modifies disk, this`log
      ensures Synced(world, sync, old(disk.files), old(disk.store), disk.files, disk.store)
      ensures log == old(log) + [Event(SyncUuids, sync.Ok?)]
    {
      sync := disk.SyncTableUuids(
        world.localTables, world.during.tables, world.during.exists_, world.usesMacro, false);
      log := log + [Event(SyncUuids, sync.Ok?)];
    }

    /** The body of `with AttacherContext(...)`, up to an exception. */
    method ChangeEngine(world: World, first: bool) returns (raised: bool, ghost sync: Result<bool>)
      requires !restartRequested && NoSharing(disk.store)
      modifies disk, this`log, this`engine, this`restartRequested
      ensures engine == if world.Works(WriteEngine) then Replicated else world.leftover
      ensures log == old(log) + [Event(WriteEngine, world.Works(WriteEngine))] +
                     if world.Works(WriteEngine) && !first then [Event(SyncUuids, sync.Ok?)] else []
      ensures raised <==> !world.Works(WriteEngine) || (!first && sync.Err?)
      ensures restartRequested <==> !raised && !first && sync == Ok(true)
      ensures if world.Works(WriteEngine) && !first then
                Synced(world, sync, old(disk.files), old(disk.store), disk.files, disk.store)
              else disk.files == old(disk.files) && disk.store == old(disk.store)
    {
      sync := Ok(false);
      var written := Do(world, WriteEngine);
      if !written {
        engine := world.leftover;
        return true, sync;
      }
      engine := Replicated;
      raised := false;
      if !first {
        var result := Sync(world);
        sync := result;
        raised := result.Err?;
        if result == Ok(true) {
          restartRequested := true;
        }
      }
    }

    /** `AttacherContext.__exit__` after the body has ended normally or not. */
    method ExitAttacher(world: World, failed: bool) returns (raised: bool)
      requires !attached && (failed ==> !restartRequested)
      modifies this`log, this`attached
      ensures var back := if restartRequested then RestartServer else AttachDb;
              && log == old(log) + [Event(back, world.Works(back))]
              && attached == world.Works(back)
              && (raised <==> failed || !world.Works(back))
    {
      if failed {
        var lost := TryAttach(world);
        return true;
      }
      if restartRequested {
        var ok := Do(world, RestartServer);
        attached := ok;
        return !ok;
      }
      raised := TryAttach(world);
    }

    /** The whole `with AttacherContext(...)` statement. */
    method WithAttacher(world: World, first: bool) returns (raised: bool, ghost sync: Result<bool>)
      requires !restartRequested && attached && NoSharing(disk.store)
      modifies disk, this`log, this`engine, this`attached, this`restartRequested
      ensures var trace := AttacherTrace(Seen(world, sync), first);
              && log == old(log) + trace
              && (raised <==> !AllWorked(trace))
              && (attached <==> !world.Works(DetachDb) || LastOk(trace))
      ensures engine == if !world.Works(DetachDb) then old(engine)
                        else if world.Works(WriteEngine) then Replicated else world.leftover
      ensures if world.Works(DetachDb) && world.Works(WriteEngine) && !first then
                Synced(world, sync, old(disk.files), old(disk.store), disk.files, disk.store)
              else disk.files == old(disk.files) && disk.store == old(disk.store)
    {
      sync := Ok(false);
      var detached := Do(world, DetachDb);
      if !detached {
        AttacherCases(Seen(world, sync), first);
        return true, sync;
      }
      attached := false;
      var failed;
      failed, sync := ChangeEngine(world, first);
      raised := ExitAttacher(world, failed);
      AttacherCases(Seen(world, sync), first);
      assert log == old(log) + AttacherTrace(Seen(world, sync), first);
    }

    /** `DatabaseLockManager.__enter__` */
    method Enter(world: World, ghost sync: Result<bool>, force: bool) returns (raised: bool)
      requires !lockAcquired && world.Consistent()
      modifies this`log, this`lockAcquired
      ensures log == old(log) + EnterTrace(Seen(world, sync), force)
      ensures raised <==> !Enters(Seen(world, sync))
      ensures lockAcquired <==> world.Works(AcquireLock) && Lock.Elected(world.config, world.met).Hold?
    {
      if force {
        var removed := Do(world, ForceRemoveLock);
      }
      var ok := Do(world, AcquireLock);
      if !ok {
        return true;
      }
      var elected := Lock.Elected(world.config, world.met);
      lockAcquired := elected.Hold?;
      if elected.Wait? {
        var released := Do(world, WaitForLock);
        return !released;
      }
      return false;
    }

    /** The statements under the lock. */
    method UnderLock(world: World, first: bool) returns (raised: bool, ghost sync: Result<bool>)
      requires !restartRequested && attached && NoSharing(disk.store)
      modifies disk, this`log, this`engine, this`attached, this`restartRequested
      ensures var env := Seen(world, sync);
              && log == old(log) + LockedTrace(env, first)
              && (raised <==> !env.recheckPasses || !AllWorked(LockedTrace(env, first)))
              && (attached <==> (env.recheckPasses && env.Works(DetachDb) ==> LastOk(AttacherTrace(env, first))))
              && engine == if !(env.recheckPasses && env.Works(DetachDb)) then old(engine)
                           else if env.Works(WriteEngine) then Replicated else world.leftover
      ensures if RecheckPasses(world) && world.Works(DetachDb) && world.Works(WriteEngine) && !first then
                Synced(world, sync, old(disk.files), old(disk.store), disk.files, disk.store)
              else
                disk.files == old(disk.files) && disk.store == old(disk.store)
    {
      sync := Ok(false);
      if !RecheckPasses(world) {
        return true, sync;
      }
      raised, sync := WithAttacher(world, first);
      ghost var inside := AttacherTrace(Seen(world, sync), first);
      if raised {
        return;
      }
      var ok := Do(world, RestoreReplica);
      raised := !ok;
      assert log == old(log) + (inside + [Tried(Seen(world, sync), RestoreReplica)]);
      assert (inside + [Tried(Seen(world, sync), RestoreReplica)])[|inside|] == Event(RestoreReplica, ok);
    }

    /** `DatabaseLockManager.__exit__`: a failing release is not reported. */
    method ReleaseLockIfHeld(world: World)
      modifies this`log
      ensures log == old(log) + if lockAcquired then [Event(ReleaseLock, world.Works(ReleaseLock))] else []
    {
      if lockAcquired {
        var removed := Do(world, ReleaseLock);
      }
    }

    /** The `with DatabaseLockManager(...)` statement. */
    method WithLock(world: World, force: bool) returns (raised: bool, ghost sync: Result<bool>)
      requires !lockAcquired && !restartRequested && attached && NoSharing(disk.store) && world.Consistent()
      modifies this, disk
      ensures var env := Seen(world, sync);
              && log == old(log) + LockTrace(env, force)
              && (raised <==> !Enters(env) || !env.recheckPasses || !AllWorked(LockedTrace(env, env.becomesFirst)))
              && engine == (if !(Enters(env) && env.recheckPasses && env.Works(DetachDb)) then old(engine)
                            else if env.Works(WriteEngine) then Replicated else world.leftover)
              && (attached <==> (Enters(env) && env.recheckPasses && env.Works(DetachDb) ==>
                                   LastOk(AttacherTrace(env, env.becomesFirst))))
              && (lockAcquired <==> Enters(env) && env.becomesFirst)
      ensures if Enters(Seen(world, sync)) && RecheckPasses(world) && world.Works(DetachDb) && world.Works(WriteEngine) &&
                 !world.elected.Hold? then
                Synced(world, sync, old(disk.files), old(disk.store), disk.files, disk.store)
              else
                disk.files == old(disk.files) && disk.store == old(disk.store)
    {
      sync := Ok(false);
      raised := Enter(world, sync, force);
      if raised {
        return;
      }
      ghost var unknown := sync;
      raised, sync := UnderLock(world, world.elected.Hold?);
      EnterAhead(world, unknown, sync, force);
      ReleaseLockIfHeld(world);
      ghost var env := Seen(world, sync);
      Regroup(old(log), EnterTrace(env, force), LockedTrace(env, env.becomesFirst),
        if env.becomesFirst then [Tried(env, ReleaseLock)] else []);
    }

    /** The checks before the lock, and what follows them; `sync` is what the synchronisation under the lock returned. */
    method CheckAndMigrate(world: World, force: bool, dryRun: bool) returns (raised: bool, ghost sync: Result<bool>)
      requires !lockAcquired && !restartRequested && attached && log == [] && NoSharing(disk.store)
      requires world.Consistent()
      modifies this, disk
      ensures var env := Seen(world, sync);
              && log == Trace(env, old(engine), force, dryRun)
              && (raised <==> Raises(env, old(engine), dryRun))
              && engine == EngineAfter(env, old(engine), dryRun)
              && (attached <==> (Detaches(env, old(engine), dryRun) ==> LastOk(AttacherTrace(env, env.becomesFirst))))
              && (lockAcquired <==> Starts(env, old(engine), dryRun) && Enters(env) && env.becomesFirst)
      ensures if Detaches(Seen(world, sync), old(engine), dryRun) && world.Works(WriteEngine) && !world.elected.Hold? then
                Synced(world, sync, old(disk.files), old(disk.store), disk.files, disk.store)
              else
                disk.files == old(disk.files) && disk.store == old(disk.store)
    {
      sync := Ok(false);
      var checked := PreChecks(world);
      if !checked {
        return true, sync;
      }
      if dryRun {
        return false, sync;
      }
      raised, sync := WithLock(world, force);
    }

    /**
     * `_migrate_to_replicated`; `sync` is what the synchronisation under the lock returned, if it came to that.
     * Up to it the disk is as it was, after it all data is there, and UUIDs are synchronised if it succeeded.
     * A run that meets an obstacle before the lock makes no call; one that meets an obstacle under the lock
     * raises before the database is detached; any other that gets in attempts the detach.
     */
    method MigrateToReplicated(world: World, force: bool, dryRun: bool) returns (raised: bool, ghost sync: Result<bool>)
      requires !lockAcquired && !restartRequested && attached && log == [] && NoSharing(disk.store)
      requires world.Consistent()
      modifies this, disk
      ensures var env := Seen(world, sync);
              && log == Trace(env, old(engine), force, dryRun)
              && (raised <==> Raises(env, old(engine), dryRun))
              && engine == EngineAfter(env, old(engine), dryRun)
              && (attached <==> (Detaches(env, old(engine), dryRun) ==> LastOk(AttacherTrace(env, env.becomesFirst))))
              && (lockAcquired <==> Starts(env, old(engine), dryRun) && Enters(env) && env.becomesFirst)
      ensures if Detaches(Seen(world, sync), old(engine), dryRun) && world.Works(WriteEngine) && !world.elected.Hold? then
                Synced(world, sync, old(disk.files), old(disk.store), disk.files, disk.store)
              else
                disk.files == old(disk.files) && disk.store == old(disk.store)
      ensures ObstacleBefore(world, old(engine)) ==>
                && raised && log == [] && engine == old(engine) && attached && !lockAcquired
                && disk.files == old(disk.files) && disk.store == old(disk.store)
      ensures !ObstacleBefore(world, old(engine)) && dryRun ==>
                && !raised && log == [] && engine == old(engine) && attached && !lockAcquired
                && disk.files == old(disk.files) && disk.store == old(disk.store)
      ensures !dryRun && ObstacleUnderLock(world) ==>
                && raised && (forall e :: e in log ==> e.call != DetachDb) && engine == old(engine) && attached
                && disk.files == old(disk.files) && disk.store == old(disk.store)
      ensures !dryRun && !ObstacleBefore(world, old(engine)) && !ObstacleUnderLock(world) &&
              AcquireLock !in world.failing && (world.elected.Wait? ==> WaitForLock !in world.failing) ==>
                exists e :: e in log && e.call == DetachDb
    {
      ghost var engine0 := engine;
      raised, sync := CheckAndMigrate(world, force, dryRun);
      CourseByChecks(world, sync, engine0, force, dryRun);
    }
  }

  // ---------------------------------------------------------------- what every run keeps to

  predicate IsReturn(e: Event) {
    e.call == AttachDb || e.call == RestartServer
  }

  /** After a detach that worked the database is attached, or the server restarted, once; otherwise never. */
  ghost predicate ReturnsOnce(trace: seq<Event>) {
    if Event(DetachDb, true) in trace then
      exists d, a :: 0 <= d < a < |trace| && ReturnsAt(trace, d, a)
    else
      forall i :: 0 <= i < |trace| ==> !IsReturn(trace[i])
  }

  ghost predicate ReturnsAt(trace: seq<Event>, d: int, a: int)
    requires 0 <= d < a < |trace|
  {
    && trace[d] == Event(DetachDb, true)
    && IsReturn(trace[a])
    && (forall i :: 0 <= i < |trace| && IsReturn(trace[i]) ==> i == a)
  }

  /** The replica is restored only once the database is back, and after nothing that failed. */
  ghost predicate RestoresAfterReturn(trace: seq<Event>) {
    forall r :: 0 <= r < |trace| && trace[r].call == RestoreReplica ==>
      && (exists a :: 0 <= a < r && IsReturn(trace[a]))
      && (forall i :: 0 <= i < r ==> trace[i].ok || trace[i].call == ForceRemoveLock)
  }

  predicate IsChange(e: Event) {
    e.call == WriteEngine || e.call == SyncUuids
  }

  /** The engine and the UUIDs are changed only between the detach and the way back. */
  ghost predicate ChangesWhileDetached(trace: seq<Event>) {
    forall i :: 0 <= i < |trace| && IsChange(trace[i]) ==>
      && (exists d :: 0 <= d < i && trace[d] == Event(DetachDb, true))
      && (forall a :: 0 <= a < i ==> !IsReturn(trace[a]))
  }

  /** Calls made inside `AttacherContext` or right after it. */
  predicate ToServer(e: Event) {
    e.call in {DetachDb, WriteEngine, SyncUuids, AttachDb, RestartServer, RestoreReplica}
  }

  lemma LockedReturnsOnce(env: Env, first: bool)
    ensures ReturnsOnce(LockedTrace(env, first))
  {
    var inside := AttacherTrace(env, first);
    var trace := LockedTrace(env, first);
    if env.recheckPasses && env.Works(DetachDb) {
      assert trace[0] == Event(DetachDb, true);
      assert ReturnsAt(trace, 0, |inside| - 1);
    }
  }

  lemma LockedRestoresLast(env: Env, first: bool)
    ensures RestoresAfterReturn(LockedTrace(env, first))
  {
    var inside := AttacherTrace(env, first);
    var trace := LockedTrace(env, first);
    assert forall i :: 0 <= i < |inside| ==> inside[i].call != RestoreReplica;
    if env.recheckPasses && AllWorked(inside) {
      assert trace[0].ok;
      assert IsReturn(trace[|inside| - 1]);
    }
  }

  lemma LockedChangesWhileDetached(env: Env, first: bool)
    ensures ChangesWhileDetached(LockedTrace(env, first))
  {
    var inside, trace := AttacherTrace(env, first), LockedTrace(env, first);
    if env.recheckPasses && env.Works(DetachDb) {
      assert trace[0] == Event(DetachDb, true);
      assert forall i :: 0 <= i < |inside| - 1 ==> !IsReturn(trace[i]);
      assert forall i :: |inside| - 1 <= i < |trace| ==> !IsChange(trace[i]);
    }
  }

  /** Calls around the section under the lock. */
  lemma Surrounded(before: seq<Event>, trace: seq<Event>, after: seq<Event>)
    requires ReturnsOnce(trace) && RestoresAfterReturn(trace)
    requires forall e :: e in before ==> !ToServer(e) && (e.ok || e.call == ForceRemoveLock)
    requires forall e :: e in after ==> !ToServer(e)
    ensures ReturnsOnce(before + trace + after) && RestoresAfterReturn(before + trace + after)
  {
    var all := before + trace + after;
    forall i | 0 <= i < |all| && ToServer(all[i])
      ensures |before| <= i < |before| + |trace| && trace[i - |before|] == all[i]
    {
      assert all[i] in before || all[i] in after || |before| <= i < |before| + |trace|;
    }
    if Event(DetachDb, true) in trace {
      var d, a :| 0 <= d < a < |trace| && ReturnsAt(trace, d, a);
      assert ReturnsAt(all, |before| + d, |before| + a);
    } else {
      assert Event(DetachDb, true) !in all;
    }
    forall r | 0 <= r < |all| && all[r].call == RestoreReplica
      ensures exists a :: 0 <= a < r && IsReturn(all[a])
      ensures forall i :: 0 <= i < r ==> all[i].ok || all[i].call == ForceRemoveLock
    {
      assert all[r] in before + after || trace[r - |before|] == all[r];
      var a :| 0 <= a < r - |before| && IsReturn(trace[a]);
      assert all[|before| + a] == trace[a];
    }
  }

  lemma SurroundedChanges(before: seq<Event>, trace: seq<Event>, after: seq<Event>)
    requires ChangesWhileDetached(trace)
    requires forall e :: e in before || e in after ==> !ToServer(e)
    ensures ChangesWhileDetached(before + trace + after)
  {
    var all := before + trace + after;
    forall i | 0 <= i < |all| && IsChange(all[i])
      ensures exists d :: 0 <= d < i && all[d] == Event(DetachDb, true)
      ensures forall a :: 0 <= a < i ==> !IsReturn(all[a])
    {
      assert all[i] in before || all[i] in after || |before| <= i < |before| + |trace|;
      assert all[i] == trace[i - |before|];
      var d :| 0 <= d < i - |before| && trace[d] == Event(DetachDb, true);
      assert all[|before| + d] == trace[d];
      forall a | 0 <= a < i ensures !IsReturn(all[a]) {
        assert all[a] in before || all[a] == trace[a - |before|];
      }
    }
  }

  lemma EveryRunChangesWhileDetached(env: Env, engine: Engine, force: bool, dryRun: bool)
    ensures ChangesWhileDetached(Trace(env, engine, force, dryRun))
  {
    if Starts(env, engine, dryRun) && Enters(env) {
      LockedChangesWhileDetached(env, env.becomesFirst);
      SurroundedChanges(EnterTrace(env, force), LockedTrace(env, env.becomesFirst),
        if env.becomesFirst then [Tried(env, ReleaseLock)] else []);
    }
  }

  lemma EveryRunReturnsOnce(env: Env, engine: Engine, force: bool, dryRun: bool)
    ensures ReturnsOnce(Trace(env, engine, force, dryRun))
    ensures RestoresAfterReturn(Trace(env, engine, force, dryRun))
  {
    if Starts(env, engine, dryRun) && Enters(env) {
      LockedReturnsOnce(env, env.becomesFirst);
      LockedRestoresLast(env, env.becomesFirst);
      Surrounded(EnterTrace(env, force), LockedTrace(env, env.becomesFirst),
        if env.becomesFirst then [Tried(env, ReleaseLock)] else []);
    }
  }

  /** Who acquired the lock tries to release it at the very end; who did not never does. */
  lemma LockIsReleasedLast(env: Env, engine: Engine, force: bool, dryRun: bool)
    ensures var trace := Trace(env, engine, force, dryRun);
            var acquired := Starts(env, engine, dryRun) && Enters(env) && env.becomesFirst;
            && (acquired ==> trace != [] && trace[|trace| - 1].call == ReleaseLock)
            && (forall i :: 0 <= i < |trace| && trace[i].call == ReleaseLock ==> acquired && i == |trace| - 1)
  {
    var before, locked := EnterTrace(env, force), LockedTrace(env, env.becomesFirst);
    var trace := Trace(env, engine, force, dryRun);
    forall i | 0 <= i < |trace| && trace[i].call == ReleaseLock
      ensures Starts(env, engine, dryRun) && Enters(env) && env.becomesFirst && i == |trace| - 1
    {
      assert trace[i] in before || trace[i] in locked || |before| + |locked| <= i;
    }
  }

  /** A run succeeds exactly when it restored the replica, or was only to check. */
  lemma SuccessIsRestore(env: Env, engine: Engine, force: bool)
    ensures !Raises(env, engine, false) <==> Event(RestoreReplica, true) in Trace(env, engine, force, false)
  {
    if Starts(env, engine, false) && Enters(env) && env.recheckPasses {
      var locked, inside := LockedTrace(env, env.becomesFirst), AttacherTrace(env, env.becomesFirst);
      assert Event(RestoreReplica, true) !in EnterTrace(env, force);
      assert Event(RestoreReplica, true) !in inside;
      if AllWorked(inside) {
        assert locked[|inside|] == Tried(env, RestoreReplica);
        assert AllWorked(locked) <==> env.Works(RestoreReplica);
      } else {
        assert locked == inside;
      }
    }
  }

  lemma RestartsInside(env: Env, first: bool)
    ensures var inside := AttacherTrace(env, first);
            && (Tried(env, RestartServer) in inside <==> Event(SyncUuids, true) in inside && env.uuidsChanged)
            && (Tried(env, SyncUuids) in inside ==> !first)
  {
    var inside := AttacherTrace(env, first);
    if env.Works(DetachDb) {
      assert inside[|inside| - 1] == Tried(env, Back(env, first));
      if env.Works(WriteEngine) && !first {
        assert inside[2] == Tried(env, SyncUuids);
      }
    }
  }

  /** Only `AttacherContext` and its body write, synchronise or restart. */
  lemma OnlyInside(env: Env, engine: Engine, force: bool, dryRun: bool, e: Event)
    requires e.call == WriteEngine || e.call == SyncUuids || e.call == RestartServer
    ensures e in Trace(env, engine, force, dryRun) <==>
              Starts(env, engine, dryRun) && Enters(env) && env.recheckPasses && e in AttacherTrace(env, env.becomesFirst)
  {
    assert e !in EnterTrace(env, force);
    assert e in LockedTrace(env, env.becomesFirst) <==>
             env.recheckPasses && e in AttacherTrace(env, env.becomesFirst);
  }

  /** The server is restarted exactly when a synchronisation, which only a later replica does, changed a UUID. */
  lemma RestartsIffChanged(env: Env, engine: Engine, force: bool, dryRun: bool)
    ensures var trace := Trace(env, engine, force, dryRun);
            && (Tried(env, RestartServer) in trace <==> Event(SyncUuids, true) in trace && env.uuidsChanged)
            && (Tried(env, SyncUuids) in trace ==> !env.becomesFirst)
  {
    RestartsInside(env, env.becomesFirst);
    OnlyInside(env, engine, force, dryRun, Tried(env, RestartServer));
    OnlyInside(env, engine, force, dryRun, Tried(env, SyncUuids));
    OnlyInside(env, engine, force, dryRun, Event(SyncUuids, true));
  }

  /**
   * A failed run can be repeated exactly when it did not get to detach the database, or then failed to write the
   * engine without a trace: nothing takes a write back, and the checks refuse a database that is not Atomic. The
   * calls of the run show it.
   */
  lemma RepeatableIff(env: Env, again: Env, force: bool)
    requires Raises(env, Atomic, false) && again.checksPass
    ensures Starts(again, EngineAfter(env, Atomic, false), false) <==>
              (Detaches(env, Atomic, false) ==> !env.Works(WriteEngine) && env.leftover == Atomic)
    ensures var trace := Trace(env, Atomic, force, false);
            Starts(again, EngineAfter(env, Atomic, false), false) <==>
              Event(WriteEngine, true) !in trace && (Event(WriteEngine, false) in trace ==> env.leftover == Atomic)
  {
    var written := Tried(env, WriteEngine);
    OnlyInside(env, Atomic, force, false, Event(WriteEngine, true));
    OnlyInside(env, Atomic, force, false, Event(WriteEngine, false));
    if Detaches(env, Atomic, false) {
      assert AttacherTrace(env, env.becomesFirst)[1] == written;
    }
  }

  /** A first replica that cannot be restored in the end: its migration cannot be started again. */
  lemma FailedRestoreIsFinal(again: Env)
    ensures var env := Env({RestoreReplica}, true, true, true, false, false, Atomic);
            && Raises(env, Atomic, false)
            && !Starts(again, EngineAfter(env, Atomic, false), false)
  {
    var env := Env({RestoreReplica}, true, true, true, false, false, Atomic);
    var inside := AttacherTrace(env, true);
    AttacherCases(env, true);
    assert LockedTrace(env, true)[|inside|] == Event(RestoreReplica, false);
  }

  // ---------------------------------------------------------------- the whole course of a run

  function EnterPlan(waits: bool, force: bool): seq<Call> {
    (if force then [ForceRemoveLock] else []) + [AcquireLock] + if waits then [WaitForLock] else []
  }

  /** What a run under the lock calls when nothing fails. */
  function WorkPlan(first: bool, changed: bool): seq<Call> {
    if first then [DetachDb, WriteEngine, AttachDb, RestoreReplica, ReleaseLock]
    else [DetachDb, WriteEngine, SyncUuids, if changed then RestartServer else AttachDb, RestoreReplica]
  }

  /** What follows a call that failed: the database is attached again and the lock released, if need be. */
  function WayOut(env: Env, failed: Call): seq<Event> {
    (if failed == WriteEngine || failed == SyncUuids then [Tried(env, AttachDb)] else []) +
    if env.becomesFirst && failed != AcquireLock && failed != ReleaseLock then [Tried(env, ReleaseLock)] else []
  }

  /** All calls of the plan, or those up to the first that fails and the way out; a failing forced removal is passed over. */
  ghost predicate Follows(env: Env, trace: seq<Event>, plan: seq<Call>)
    decreases |plan|
  {
    if plan == [] then trace == []
    else
      && trace != [] && trace[0] == Tried(env, plan[0])
      && if trace[0].ok || plan[0] == ForceRemoveLock then Follows(env, trace[1..], plan[1..])
         else trace[1..] == WayOut(env, plan[0])
  }

  lemma {:induction false} Goes(env: Env, call: Call, rest: seq<Event>, plan: seq<Call>)
    requires (env.Works(call) || call == ForceRemoveLock) && Follows(env, rest, plan)
    ensures Follows(env, [Tried(env, call)] + rest, [call] + plan)
  {
    assert ([Tried(env, call)] + rest)[1..] == rest && ([call] + plan)[1..] == plan;
  }

  lemma {:induction false} Stops(env: Env, call: Call, plan: seq<Call>)
    requires !env.Works(call) && call != ForceRemoveLock
    ensures Follows(env, [Tried(env, call)] + WayOut(env, call), [call] + plan)
  {
    assert ([Tried(env, call)] + WayOut(env, call))[1..] == WayOut(env, call);
  }

  function Release(env: Env): seq<Event> {
    if env.becomesFirst then [Tried(env, ReleaseLock)] else []
  }

  /** From the restoration on. */
  lemma {:induction false} RestoringFollows(env: Env)
    ensures Follows(env, [Tried(env, RestoreReplica)] + Release(env),
                    RestorePlan(env))
  {
    var plan := if env.becomesFirst then [ReleaseLock] else [];
    if env.becomesFirst {
      if env.Works(ReleaseLock) {
        Goes(env, ReleaseLock, [], []);
      } else {
        Stops(env, ReleaseLock, []);
      }
      assert [ReleaseLock] + [] == [ReleaseLock] && Release(env) + [] == Release(env);
    }
    if env.Works(RestoreReplica) {
      Goes(env, RestoreReplica, Release(env), plan);
    } else {
      Stops(env, RestoreReplica, plan);
      assert WayOut(env, RestoreReplica) == Release(env);
    }
  }

  /** The plan from the restoration on. */
  function RestorePlan(env: Env): seq<Call> {
    [RestoreReplica] + if env.becomesFirst then [ReleaseLock] else []
  }

  /** From the way back on. */
  lemma {:induction false} ReturningFollows(env: Env, back: Call)
    requires back == AttachDb || back == RestartServer
    ensures Follows(env, Ending(env, back),
                    [back] + RestorePlan(env))
  {
    var plan := RestorePlan(env);
    RestoringFollows(env);
    if env.Works(back) {
      Goes(env, back, [Tried(env, RestoreReplica)] + Release(env), plan);
    } else {
      Stops(env, back, plan);
      assert WayOut(env, back) == Release(env);
    }
  }

  lemma {:induction false} DetachFails(env: Env)
    requires env.recheckPasses && !env.Works(DetachDb)
    ensures Follows(env, LockedTrace(env, env.becomesFirst) + Release(env), WorkPlan(env.becomesFirst, env.uuidsChanged))
  {
    var plan := WorkPlan(env.becomesFirst, env.uuidsChanged);
    AttacherCases(env, env.becomesFirst);
    Stops(env, DetachDb, plan[1..]);
    assert plan == [DetachDb] + plan[1..];
    assert WayOut(env, DetachDb) == Release(env);
  }

  lemma {:induction false} WriteFails(env: Env)
    requires env.recheckPasses && env.Works(DetachDb) && !env.Works(WriteEngine)
    ensures Follows(env, LockedTrace(env, env.becomesFirst) + Release(env), WorkPlan(env.becomesFirst, env.uuidsChanged))
  {
    var plan, rest := WorkPlan(env.becomesFirst, env.uuidsChanged), [Tried(env, WriteEngine)] + WayOut(env, WriteEngine);
    AttacherCases(env, env.becomesFirst);
    Stops(env, WriteEngine, plan[2..]);
    Goes(env, DetachDb, rest, [WriteEngine] + plan[2..]);
    assert plan == [DetachDb] + ([WriteEngine] + plan[2..]);
    assert WayOut(env, WriteEngine) == [Tried(env, AttachDb)] + Release(env);
    assert LockedTrace(env, env.becomesFirst) + Release(env) == [Tried(env, DetachDb)] + rest;
  }

  lemma {:induction false} SyncFails(env: Env)
    requires env.recheckPasses && env.Works(DetachDb) && env.Works(WriteEngine) && !env.becomesFirst && !env.Works(SyncUuids)
    ensures Follows(env, LockedTrace(env, false) + Release(env), WorkPlan(false, env.uuidsChanged))
  {
    var plan := WorkPlan(false, env.uuidsChanged);
    var last := [Tried(env, SyncUuids)] + WayOut(env, SyncUuids);
    AttacherCases(env, false);
    Stops(env, SyncUuids, plan[3..]);
    Goes(env, WriteEngine, last, [SyncUuids] + plan[3..]);
    Goes(env, DetachDb, [Tried(env, WriteEngine)] + last, [WriteEngine] + ([SyncUuids] + plan[3..]));
    assert plan == [DetachDb] + ([WriteEngine] + ([SyncUuids] + plan[3..]));
    assert WayOut(env, SyncUuids) == [Tried(env, AttachDb)];
    assert LockedTrace(env, false) + Release(env) == [Tried(env, DetachDb)] + ([Tried(env, WriteEngine)] + last);
  }

  /** What a run under the lock calls from the way back on. */
  function Ending(env: Env, back: Call): seq<Event> {
    [Tried(env, back)] + if env.Works(back) then [Tried(env, RestoreReplica)] + Release(env) else Release(env)
  }

  /** What a first replica calls under the lock once the engine is written. */
  lemma {:induction false} FirstTrace(env: Env)
    requires env.recheckPasses && env.Works(DetachDb) && env.Works(WriteEngine) && env.becomesFirst
    ensures LockedTrace(env, true) + Release(env) == [Tried(env, DetachDb)] + ([Tried(env, WriteEngine)] + Ending(env, AttachDb))
  {
    var inside := [Tried(env, DetachDb), Tried(env, WriteEngine), Tried(env, AttachDb)];
    AttacherCases(env, true);
    assert AttacherTrace(env, true) == inside;
    if env.Works(AttachDb) {
      assert LockedTrace(env, true) == inside + [Tried(env, RestoreReplica)];
    } else {
      assert LockedTrace(env, true) == inside;
    }
  }

  lemma FirstPlan(env: Env)
    requires env.becomesFirst
    ensures WorkPlan(true, env.uuidsChanged) == [DetachDb] + ([WriteEngine] + ([AttachDb] + RestorePlan(env)))
  {
    assert RestorePlan(env) == [RestoreReplica, ReleaseLock];
  }

  lemma {:induction false} FirstGetsBack(env: Env)
    requires env.recheckPasses && env.Works(DetachDb) && env.Works(WriteEngine) && env.becomesFirst
    ensures Follows(env, LockedTrace(env, true) + Release(env), WorkPlan(true, env.uuidsChanged))
  {
    var ending, plan := Ending(env, AttachDb), [AttachDb] + RestorePlan(env);
    ReturningFollows(env, AttachDb);
    Goes(env, WriteEngine, ending, plan);
    Goes(env, DetachDb, [Tried(env, WriteEngine)] + ending, [WriteEngine] + plan);
    FirstPlan(env);
    FirstTrace(env);
  }

  lemma {:induction false} LaterGetsBack(env: Env)
    requires env.recheckPasses && env.Works(DetachDb) && env.Works(WriteEngine) && !env.becomesFirst && env.Works(SyncUuids)
    ensures Follows(env, LockedTrace(env, false) + Release(env), WorkPlan(false, env.uuidsChanged))
  {
    var back := if env.uuidsChanged then RestartServer else AttachDb;
    var ending, plan := Ending(env, back), [back] + RestorePlan(env);
    AttacherCases(env, false);
    ReturningFollows(env, back);
    Goes(env, SyncUuids, ending, plan);
    Goes(env, WriteEngine, [Tried(env, SyncUuids)] + ending, [SyncUuids] + plan);
    Goes(env, DetachDb, [Tried(env, WriteEngine)] + ([Tried(env, SyncUuids)] + ending), [WriteEngine] + ([SyncUuids] + plan));
    assert WorkPlan(false, env.uuidsChanged) == [DetachDb] + ([WriteEngine] + ([SyncUuids] + plan));
    assert LockedTrace(env, false) + Release(env) ==
           [Tried(env, DetachDb)] + ([Tried(env, WriteEngine)] + ([Tried(env, SyncUuids)] + ending));
  }

  lemma {:induction false} LockedFollows(env: Env)
    requires env.recheckPasses
    ensures Follows(env, LockedTrace(env, env.becomesFirst) + Release(env), WorkPlan(env.becomesFirst, env.uuidsChanged))
  {
    if !env.Works(DetachDb) {
      DetachFails(env);
    } else if !env.Works(WriteEngine) {
      WriteFails(env);
    } else if env.becomesFirst {
      FirstGetsBack(env);
    } else if !env.Works(SyncUuids) {
      SyncFails(env);
    } else {
      LaterGetsBack(env);
    }
  }

  lemma {:induction false} ForceFollows(env: Env, force: bool, trace: seq<Event>, plan: seq<Call>)
    requires Follows(env, trace, plan)
    ensures Follows(env, (if force then [Tried(env, ForceRemoveLock)] else []) + trace,
                    (if force then [ForceRemoveLock] else []) + plan)
  {
    if force {
      Goes(env, ForceRemoveLock, trace, plan);
    } else {
      assert [] + trace == trace && [] + plan == plan;
    }
  }

  /** Whether `__enter__` is to wait. */
  predicate Waits(env: Env) {
    !env.becomesFirst && env.lockHeld
  }

  lemma {:induction false} EnterFollows(env: Env, force: bool, rest: seq<Event>, work: seq<Call>)
    requires Enters(env) && Follows(env, rest, work)
    ensures Follows(env, EnterTrace(env, force) + rest, EnterPlan(Waits(env), force) + work)
  {
    var entering, plan := rest, work;
    if Waits(env) {
      Goes(env, WaitForLock, rest, work);
      entering, plan := [Tried(env, WaitForLock)] + rest, [WaitForLock] + work;
    }
    Goes(env, AcquireLock, entering, plan);
    ForceFollows(env, force, [Tried(env, AcquireLock)] + entering, [AcquireLock] + plan);
    assert EnterTrace(env, force) + rest ==
           (if force then [Tried(env, ForceRemoveLock)] else []) + ([Tried(env, AcquireLock)] + entering);
    assert EnterPlan(Waits(env), force) + work == (if force then [ForceRemoveLock] else []) + ([AcquireLock] + plan);
  }

  lemma {:induction false} EnterFails(env: Env, force: bool, work: seq<Call>)
    requires !Enters(env)
    ensures Follows(env, EnterTrace(env, force), EnterPlan(Waits(env), force) + work)
  {
    var entering, plan := [Tried(env, AcquireLock)], [AcquireLock] + if Waits(env) then [WaitForLock] + work else work;
    if !env.Works(AcquireLock) {
      Stops(env, AcquireLock, plan[1..]);
      assert entering + WayOut(env, AcquireLock) == entering;
    } else {
      Stops(env, WaitForLock, work);
      assert [Tried(env, WaitForLock)] + WayOut(env, WaitForLock) == [Tried(env, WaitForLock)];
      Goes(env, AcquireLock, [Tried(env, WaitForLock)], [WaitForLock] + work);
      entering := entering + [Tried(env, WaitForLock)];
    }
    ForceFollows(env, force, entering, plan);
    assert EnterTrace(env, force) == (if force then [Tried(env, ForceRemoveLock)] else []) + entering;
    assert EnterPlan(Waits(env), force) + work == (if force then [ForceRemoveLock] else []) + plan;
  }

  /**
   * A run that meets no obstacle makes the calls of the plan up to the first that fails, and then takes the way out:
   * entering, the work under the lock, and the release by who holds it.
   */
  lemma {:induction false} RunFollowsPlan(env: Env, force: bool)
    requires env.checksPass && env.recheckPasses
    ensures Follows(env, Trace(env, Atomic, force, false),
                    EnterPlan(Waits(env), force) + WorkPlan(env.becomesFirst, env.uuidsChanged))
  {
    var work := WorkPlan(env.becomesFirst, env.uuidsChanged);
    if Enters(env) {
      var rest := LockedTrace(env, env.becomesFirst) + Release(env);
      LockedFollows(env);
      EnterFollows(env, force, rest, work);
      assert Trace(env, Atomic, force, false) == EnterTrace(env, force) + rest;
    } else {
      EnterFails(env, force, work);
    }
  }

  /** One that meets an obstacle under the lock only gives the lock back. */
  lemma ObstacleEndsRun(env: Env, force: bool)
    requires env.checksPass && !env.recheckPasses && Enters(env)
    ensures Trace(env, Atomic, force, false) ==
            (if force then [Tried(env, ForceRemoveLock)] else []) + [Event(AcquireLock, true)] +
            if env.becomesFirst then [Tried(env, ReleaseLock)]
            else if env.lockHeld then [Event(WaitForLock, true)] else []
  {
    assert LockedTrace(env, env.becomesFirst) == [];
  }
}
