/**
 * Giving the local tables of a database the UUIDs that ZooKeeper holds for them:
 * the metadata files are rewritten and the data directories renamed one table after the other.
 */
module TableUuid {
  import opened Wrappers

  datatype Result<T> = Ok(value: T) | Err(error: Error)
  datatype Error = MetadataFileError | MetadataParseError | RuntimeError | ClickException | NoNodeError | KeyError

  // ---------------------------------------------------------------- metadata files

  /** What `UUID '...'` captures, and whether it is the printed form of a UUID. */
  datatype Clause = Clause(uuid: string, wellFormed: bool)

  /** What `ENGINE = ...` says: unreadable, not replicated, or replicated with readable parameters or not. */
  datatype TableEngine = Unreadable | Plain | ReplicatedTable(path: Option<string>)

  /** A line of a metadata file by what the patterns find in it. */
  datatype Line = Line(attachTable: bool, mentionsUuid: bool, clauses: seq<Clause>, engine: Option<TableEngine>)

  type File = seq<Line>

  datatype Metadata = Metadata(uuid: Option<string>, engine: Option<TableEngine>)

  /** `parse_uuid`: the first clause, if it is well formed. */
  function ParseUuid(clauses: seq<Clause>): Result<string> {
    if clauses == [] || !clauses[0].wellFormed then Err(RuntimeError) else Ok(clauses[0].uuid)
  }

  function NextUuid(line: Line, known: Option<string>): Result<Option<string>> {
    if !(line.attachTable && line.mentionsUuid) then Ok(known)
    else if known.Some? then Err(MetadataParseError)
    else
      match ParseUuid(line.clauses)
      case Err(e) => Err(e)
      case Ok(u) => Ok(Some(u))
  }

  function NextEngine(line: Line, known: Option<TableEngine>): Result<Option<TableEngine>> {
    match line.engine
    case None => Ok(known)
    case Some(engine) =>
      if known.Some? || engine == Unreadable || engine == ReplicatedTable(None) then Err(MetadataParseError)
      else Ok(Some(engine))
  }

  function ParseLine(line: Line, sofar: Metadata): Result<Metadata> {
    match NextUuid(line, sofar.uuid)
    case Err(e) => Err(e)
    case Ok(uuid) =>
      match NextEngine(line, sofar.engine)
      case Err(e) => Err(e)
      case Ok(engine) => Ok(Metadata(uuid, engine))
  }

  /** The loop of `TableMetadataParser.parse` over the lines. */
  function ParseLines(file: File, sofar: Metadata): Result<Metadata> {
    if file == [] then
      if sofar.uuid.None? || sofar.engine.None? then Err(RuntimeError) else Ok(sofar)
    else
      match ParseLine(file[0], sofar)
      case Err(e) => Err(e)
      case Ok(metadata) => ParseLines(file[1..], metadata)
  }

  /**
   * `_verify_possible_change_uuid` up to the question to ZooKeeper that a replicated table calls for.
   * `usesMacro` says whether a replica path contains `{uuid}`.
   */
  function Verify(files: map<string, File>, path: string, usesMacro: string -> bool): Result<bool> {
    if !(|path| >= 4 && path[|path| - 4..] == ".sql") then Err(MetadataParseError)
    else if path !in files then Err(MetadataFileError)
    else
      match ParseLines(files[path], Metadata(None, None))
      case Err(e) => Err(e)
      case Ok(metadata) =>
        match metadata.engine
        case Some(ReplicatedTable(Some(replicaPath))) => if usesMacro(replicaPath) then Err(ClickException) else Ok(true)
        case _ => Ok(false)
  }

  /** The lines that should give the UUID. */
  function UuidLines(file: File): seq<Line> {
    if file == [] then []
    else (if file[0].attachTable && file[0].mentionsUuid then [file[0]] else []) + UuidLines(file[1..])
  }

  function EngineLines(file: File): seq<Line> {
    if file == [] then []
    else (if file[0].engine.Some? then [file[0]] else []) + EngineLines(file[1..])
  }

  /** The UUID is known already, or one line gives it. */
  predicate GivesUuid(known: Option<string>, lines: seq<Line>, uuid: Option<string>) {
    && uuid.Some?
    && if known.Some? then lines == [] && uuid == known
       else |lines| == 1 && lines[0].clauses != [] && lines[0].clauses[0] == Clause(uuid.value, true)
  }

  predicate GivesEngine(known: Option<TableEngine>, lines: seq<Line>, engine: Option<TableEngine>) {
    && engine.Some?
    && if known.Some? then lines == [] && engine == known
       else |lines| == 1 && lines[0].engine == engine &&
            engine.value != Unreadable && engine.value != ReplicatedTable(None)
  }

  lemma UuidStep(line: Line, known: Option<string>, rest: seq<Line>, uuid: Option<string>)
    ensures GivesUuid(known, (if line.attachTable && line.mentionsUuid then [line] else []) + rest, uuid) <==>
              NextUuid(line, known).Ok? && GivesUuid(NextUuid(line, known).value, rest, uuid)
  {
    assert [] + rest == rest && ([line] + rest)[0] == line;
  }

  lemma EngineStep(line: Line, known: Option<TableEngine>, rest: seq<Line>, engine: Option<TableEngine>)
    ensures GivesEngine(known, (if line.engine.Some? then [line] else []) + rest, engine) <==>
              NextEngine(line, known).Ok? && GivesEngine(NextEngine(line, known).value, rest, engine)
  {
    assert [] + rest == rest && ([line] + rest)[0] == line;
  }

  lemma {:induction false} ParsedFrom(file: File, sofar: Metadata, result: Metadata)
    ensures ParseLines(file, sofar) == Ok(result) <==>
              GivesUuid(sofar.uuid, UuidLines(file), result.uuid) && GivesEngine(sofar.engine, EngineLines(file), result.engine)
  {
    if file != [] {
      UuidStep(file[0], sofar.uuid, UuidLines(file[1..]), result.uuid);
      EngineStep(file[0], sofar.engine, EngineLines(file[1..]), result.engine);
      var next := ParseLine(file[0], sofar);
      if next.Ok? {
        ParsedFrom(file[1..], next.value, result);
      }
    }
  }

  /** Parsing succeeds exactly for one line with a well-formed UUID and one with a readable engine, and returns them. */
  lemma {:induction false} ParsedIff(file: File, result: Metadata)
    ensures ParseLines(file, Metadata(None, None)) == Ok(result) <==>
              GivesUuid(None, UuidLines(file), result.uuid) && GivesEngine(None, EngineLines(file), result.engine)
  {
    ParsedFrom(file, Metadata(None, None), result);
  }

  /**
   * A change is possible exactly for a file with the right suffix that exists and parses, unless its replica path
   * uses the UUID macro; ZooKeeper is asked exactly for replicated tables.
   */
  lemma VerifyIff(files: map<string, File>, path: string, usesMacro: string -> bool, asksZooKeeper: bool)
    ensures Verify(files, path, usesMacro) == Ok(asksZooKeeper) <==>
              && |path| >= 4 && path[|path| - 4..] == ".sql" && path in files
              && exists uuid, engine ::
                && GivesUuid(None, UuidLines(files[path]), Some(uuid)) && GivesEngine(None, EngineLines(files[path]), Some(engine))
                && asksZooKeeper == engine.ReplicatedTable?
                && (engine.ReplicatedTable? ==> engine.path.Some? && !usesMacro(engine.path.value))
  {
    if path in files {
      var parsed := ParseLines(files[path], Metadata(None, None));
      if parsed.Ok? {
        ParsedIff(files[path], parsed.value);
        assert GivesUuid(None, UuidLines(files[path]), Some(parsed.value.uuid.value));
        assert GivesEngine(None, EngineLines(files[path]), Some(parsed.value.engine.value));
      }
      forall uuid, engine
        | GivesUuid(None, UuidLines(files[path]), Some(uuid)) && GivesEngine(None, EngineLines(files[path]), Some(engine))
        ensures parsed == Ok(Metadata(Some(uuid), Some(engine)))
      {
        ParsedIff(files[path], Metadata(Some(uuid), Some(engine)));
      }
    }
  }

  /** A table whose replica path contains the UUID macro is always refused. */
  lemma MacroIsRefused(
      files: map<string, File>, path: string, usesMacro: string -> bool, line: Line, replicaPath: string)
    requires path in files && line in EngineLines(files[path])
    requires line.engine == Some(ReplicatedTable(Some(replicaPath))) && usesMacro(replicaPath)
    ensures Verify(files, path, usesMacro).Err?
  {
    var parsed := ParseLines(files[path], Metadata(None, None));
    if parsed.Ok? {
      ParsedIff(files[path], parsed.value);
      assert EngineLines(files[path])[0] == line;
    }
  }

  /** Every clause of the line replaced, as `re.sub` does. */
  function Substitute(clauses: seq<Clause>, uuid: string): (r: seq<Clause>)
    ensures |r| == |clauses|
    ensures forall i :: 0 <= i < |r| ==> r[i] == Clause(uuid, true)
  {
    seq(|clauses|, i => Clause(uuid, true))
  }

  /** The UUID on the first line of a metadata file, the only line that is ever rewritten. */
  function HeaderUuid(file: File): Option<string> {
    if file == [] || file[0].clauses == [] then None else Some(file[0].clauses[0].uuid)
  }

  function WithUuid(file: File, uuid: string): (r: File)
    requires file != []
    ensures |r| == |file| && r[1..] == file[1..]
    ensures HeaderUuid(r) == if HeaderUuid(file).Some? then Some(uuid) else None
  {
    [file[0].(clauses := Substitute(file[0].clauses, uuid))] + file[1..]
  }

  /** `update_uuid` */
  function SetUuid(files: map<string, File>, path: string, uuid: string): Result<map<string, File>> {
    if path !in files || files[path] == [] then Err(MetadataFileError)
    else Ok(files[path := WithUuid(files[path], uuid)])
  }

  /**
   * A file that parses does so after the rewriting, and gives the new UUID exactly when its UUID was on the first
   * line or was the same before.
   */
  lemma {:induction false} ParsedAfterIff(file: File, before: Metadata, uuid: string)
    requires ParseLines(file, Metadata(None, None)) == Ok(before) && file != []
    ensures var after := ParseLines(WithUuid(file, uuid), Metadata(None, None));
            && after.Ok? && after.value.engine == before.engine
            && (after.value.uuid == Some(uuid) <==> (file[0].attachTable && file[0].mentionsUuid) || before.uuid == Some(uuid))
  {
    var after, first, none := WithUuid(file, uuid), file[0], Metadata(None, None);
    ParsedIff(file, before);
    assert UuidLines(after[1..]) == UuidLines(file[1..]) && EngineLines(after[1..]) == EngineLines(file[1..]);
    if first.attachTable && first.mentionsUuid {
      assert UuidLines(after) == [after[0]] + UuidLines(after[1..]) && UuidLines(file) == [first] + UuidLines(file[1..]);
      ParsedIff(after, Metadata(Some(uuid), before.engine));
    } else {
      ParsedIff(after, before);
    }
  }

  /** A file with its UUID on the second line. */
  const BELOW_HEADER: File :=
    [Line(false, false, [], None), Line(true, true, [Clause("u", true)], None), Line(false, false, [], Some(Plain))]

  /** It passes all checks and keeps its UUID. */
  lemma UuidBelowHeaderStays(path: string, usesMacro: string -> bool, uuid: string)
    requires |path| >= 4 && path[|path| - 4..] == ".sql" && uuid != "u"
    ensures Verify(map[path := BELOW_HEADER], path, usesMacro) == Ok(false)
    ensures var after := SetUuid(map[path := BELOW_HEADER], path, uuid);
            after.Ok? && ParseLines(after.value[path], Metadata(None, None)) == Ok(Metadata(Some("u"), Some(Plain)))
  {
    var file, parsed := BELOW_HEADER, Metadata(Some("u"), Some(Plain));
    assert file[1..][1..][1..] == [];
    assert UuidLines(file) == [file[1]];
    assert EngineLines(file) == [file[2]];
    ParsedIff(file, parsed);
    assert WithUuid(file, uuid) == file;
  }

  // ---------------------------------------------------------------- data directories

  /** A directory under `store/`, and whether it holds any data. */
  datatype Dir = Dir(inode: nat, empty: bool)

  type Store = map<string, Dir>

  datatype Move = Move(from: string, to: string)

  /** `os.rename`: a directory may replace an empty one, never one with data. */
  function Rename(store: Store, move: Move): Result<Store> {
    if move.from !in store then Err(MetadataFileError)
    else if move.to in store && !store[move.to].empty && move.to != move.from then Err(MetadataFileError)
    else Ok((store - {move.from})[move.to := store[move.from]])
  }

  function Renamed(store: Store, moves: seq<Move>): Result<Store> {
    if moves == [] then Ok(store)
    else
      match Renamed(store, moves[..|moves| - 1])
      case Err(e) => Err(e)
      case Ok(s) => Rename(s, moves[|moves| - 1])
  }

  ghost predicate DistinctMoves(moves: seq<Move>) {
    && (forall i :: 0 <= i < |moves| ==> moves[i].from != moves[i].to)
    && (forall i, j :: 0 <= i < j < |moves| ==> moves[i].from != moves[j].from && moves[i].to != moves[j].to)
  }

  /** A table takes a name that a later table has not yet given up. */
  ghost predicate Chain(moves: seq<Move>, i: int, j: int) {
    0 <= i < j < |moves| && moves[i].to == moves[j].from
  }

  ghost predicate NoChain(moves: seq<Move>) {
    forall i, j :: !Chain(moves, i, j)
  }

  ghost predicate Mentions(moves: seq<Move>, name: string) {
    exists i :: 0 <= i < |moves| && (moves[i].from == name || moves[i].to == name)
  }

  lemma {:induction false} Untouched(store: Store, moves: seq<Move>, name: string)
    requires Renamed(store, moves).Ok? && !Mentions(moves, name)
    ensures var final := Renamed(store, moves).value;
            (name in final <==> name in store) && (name in store ==> final[name] == store[name])
  {
    if moves != [] {
      var front, last := moves[..|moves| - 1], moves[|moves| - 1];
      assert forall i :: 0 <= i < |front| ==> front[i] == moves[i];
      assert !Mentions(front, name);
      Untouched(store, front, name);
    }
  }

  /** The data of a move has arrived. */
  ghost predicate Arrived(store: Store, final: Store, move: Move) {
    move.from in store && move.to in final && final[move.to] == store[move.from]
  }

  lemma {:induction false} AllArrive(store: Store, moves: seq<Move>, k: nat)
    requires DistinctMoves(moves) && NoChain(moves) && Renamed(store, moves).Ok? && k < |moves|
    ensures Arrived(store, Renamed(store, moves).value, moves[k])
  {
    var n := |moves| - 1;
    var front, last := moves[..n], moves[n];
    assert forall i, j :: Chain(front, i, j) ==> Chain(moves, i, j);
    if k < n {
      AllArrive(store, front, k);
      assert !Chain(moves, k, n);
    } else {
      forall i | 0 <= i < n ensures front[i].from != last.from && front[i].to != last.from {
        assert !Chain(moves, i, n);
      }
      Untouched(store, front, last.from);
    }
  }

  /** Behind a chain nothing arrives: the later move takes the data away again. */
  lemma {:induction false} ChainTakesAway(store: Store, moves: seq<Move>, i: int, j: int)
    requires DistinctMoves(moves) && Chain(moves, i, j) && Renamed(store, moves).Ok?
    ensures moves[i].to !in Renamed(store, moves).value
  {
    var n := |moves| - 1;
    if j < n {
      assert Chain(moves[..n], i, j);
      ChainTakesAway(store, moves[..n], i, j);
      assert moves[n].to != moves[i].to;
    }
  }

  /** A chain that goes through has overwritten an empty directory. */
  lemma {:induction false} ChainOverwrites(store: Store, moves: seq<Move>, i: int, j: int)
    requires DistinctMoves(moves) && Chain(moves, i, j) && Renamed(store, moves).Ok?
    ensures moves[j].from in store ==> store[moves[j].from].empty
  {
    var n := |moves| - 1;
    var name := moves[j].from;
    if i < n - 1 && j < n {
      assert Chain(moves[..n], i, j);
      ChainOverwrites(store, moves[..n], i, j);
    } else {
      PrefixGoesThrough(store, moves, i + 1);
      var front := moves[..i];
      assert moves[..i + 1][..i] == front;
      forall p | 0 <= p < i ensures front[p].from != name && front[p].to != name {
        assert moves[p].from != moves[j].from && moves[p].to != moves[i].to;
      }
      Untouched(store, front, name);
    }
  }

  lemma {:induction false} PrefixGoesThrough(store: Store, moves: seq<Move>, k: nat)
    requires Renamed(store, moves).Ok? && k <= |moves|
    ensures Renamed(store, moves[..k]).Ok?
  {
    if k == |moves| {
      assert moves[..k] == moves;
    } else {
      PrefixGoesThrough(store, moves[..|moves| - 1], k);
      assert moves[..|moves| - 1][..k] == moves[..k];
    }
  }

  /** When all renames go through, all data is where it belongs exactly when no chain was met. */
  lemma {:induction false} DataFollowsIff(store: Store, moves: seq<Move>)
    requires DistinctMoves(moves) && Renamed(store, moves).Ok?
    ensures (forall k :: 0 <= k < |moves| ==> Arrived(store, Renamed(store, moves).value, moves[k])) <==> NoChain(moves)
  {
    if NoChain(moves) {
      forall k | 0 <= k < |moves| ensures Arrived(store, Renamed(store, moves).value, moves[k]) {
        AllArrive(store, moves, k);
      }
    } else {
      var i, j :| Chain(moves, i, j);
      ChainTakesAway(store, moves, i, j);
      assert !Arrived(store, Renamed(store, moves).value, moves[i]);
    }
  }

  /** With data in every directory, renames that go through bring all of it where it belongs. */
  lemma {:induction false} FullStoresFollow(store: Store, moves: seq<Move>)
    requires DistinctMoves(moves) && Renamed(store, moves).Ok?
    requires forall i :: 0 <= i < |moves| ==> moves[i].from in store && !store[moves[i].from].empty
    ensures NoChain(moves)
    ensures forall k :: 0 <= k < |moves| ==> Arrived(store, Renamed(store, moves).value, moves[k])
  {
    forall i, j ensures !Chain(moves, i, j) {
      if Chain(moves, i, j) {
        ChainOverwrites(store, moves, i, j);
      }
    }
    DataFollowsIff(store, moves);
  }

  /** The failing case: the second table has an empty directory, under the name the first one is given. */
  lemma EmptyDirectoryIsReplaced()
    ensures var store := map["a" := Dir(1, false), "b" := Dir(2, true)];
            var moves := [Move("a", "b"), Move("b", "c")];
            && DistinctMoves(moves)
            && Renamed(store, moves) == Ok(map["c" := Dir(1, false)])
  {
    var store := map["a" := Dir(1, false), "b" := Dir(2, true)];
    var moves := [Move("a", "b"), Move("b", "c")];
    assert moves[..1] == [Move("a", "b")] && moves[..1][..0] == [];
    var first := Rename(store, Move("a", "b"));
    assert first.value == map["b" := Dir(1, false)];
    assert Rename(first.value, Move("b", "c")).value == map["c" := Dir(1, false)];
  }

  // ---------------------------------------------------------------- conservation

  ghost function WithData(store: Store): set<Dir> {
    set u | u in store && !store[u].empty :: store[u]
  }

  ghost predicate NoSharing(store: Store) {
    forall u, v :: u in store && v in store && store[u] == store[v] ==> u == v
  }

  lemma RenameKeepsData(store: Store, move: Move)
    requires NoSharing(store) && Rename(store, move).Ok?
    ensures NoSharing(Rename(store, move).value) && WithData(Rename(store, move).value) == WithData(store)
  {
    var after := Rename(store, move).value;
    forall d | d in WithData(store) ensures d in WithData(after) {
      var u :| u in store && !store[u].empty && store[u] == d;
      var v := if u == move.from then move.to else u;
      assert v in after && after[v] == d;
    }
  }

  // ---------------------------------------------------------------- the tables

  datatype Table = Table(name: string, uuid: string, engine: string, path: string) {
    predicate StoreBacked() {
      engine != "View" && engine != "MaterializedView"
    }
  }

  /** What ZooKeeper says of a table: no node, or a text by its clauses. */
  type ZkTables = map<string, seq<Clause>>

  function Target(zk: ZkTables, table: Table): Result<string> {
    if table.name !in zk then Err(NoNodeError) else ParseUuid(zk[table.name])
  }

  /** The target is the first UUID of the table's text, if there is one in its printed form. */
  lemma TargetIff(zk: ZkTables, table: Table, uuid: string)
    ensures Target(zk, table) == Ok(uuid) <==>
              table.name in zk && zk[table.name] != [] && zk[table.name][0] == Clause(uuid, true)
  {
  }

  /** The renames that the tables call for, in their order. */
  ghost function MovesOf(tables: seq<Table>, zk: ZkTables): seq<Move> {
    if tables == [] then []
    else
      var front, last := MovesOf(tables[..|tables| - 1], zk), tables[|tables| - 1];
      var target := Target(zk, last);
      if target.Ok? && target.value != last.uuid && last.StoreBacked() then front + [Move(last.uuid, target.value)]
      else front
  }

  /** The metadata files once the tables are done. */
  ghost function FilesAfter(tables: seq<Table>, zk: ZkTables, files: map<string, File>): Result<map<string, File>> {
    if tables == [] then Ok(files)
    else
      var last := tables[|tables| - 1];
      match FilesAfter(tables[..|tables| - 1], zk, files)
      case Err(e) => Err(e)
      case Ok(before) =>
        match Target(zk, last)
        case Err(e) => Err(e)
        case Ok(target) => if target == last.uuid then Ok(before) else SetUuid(before, last.path, target)
  }

  /** What a dry run reports: the first table whose node is unreadable or whose UUID differs decides. */
  function Report(tables: seq<Table>, zk: ZkTables): Result<bool> {
    if tables == [] then Ok(false)
    else
      match Target(zk, tables[0])
      case Err(e) => Err(e)
      case Ok(target) => if target == tables[0].uuid then Report(tables[1..], zk) else Ok(true)
  }

  /** What a write that fails may leave of a file: whole lines, the last of them possibly cut. */
  ghost predicate CutFile(left: File, whole: File) {
    |left| <= |whole| && forall i :: 0 <= i < |left| - 1 ==> left[i] == whole[i]
  }

  /** The files as they were, or with the one at `path` rewritten or left cut. */
  ghost predicate FilesMayBe(before: map<string, File>, path: string, uuid: string, after: map<string, File>) {
    || after == before
    || SetUuid(before, path, uuid) == Ok(after)
    || (SetUuid(before, path, uuid).Ok? &&
        exists left :: CutFile(left, WithUuid(before[path], uuid)) && after == before[path := left])
  }

  /** How far the change of one table may have come: the data is moved only behind a complete metadata file. */
  ghost predicate Interrupted(files: map<string, File>, store: Store, table: Table, target: string,
                              files1: map<string, File>, store1: Store) {
    && FilesMayBe(files, table.path, target, files1)
    && (store1 == store || (table.engine != "View" && table.engine != "MaterializedView"
                            && SetUuid(files, table.path, target) == Ok(files1)
                            && Rename(store, Move(table.uuid, target)) == Ok(store1)))
  }

  /** The tables before the one at `k` are done, that one as far as it came, and those after it are untouched. */
  ghost predicate StoppedAt(tables: seq<Table>, zk: ZkTables, k: nat, files0: map<string, File>, store0: Store,
                            files: map<string, File>, store: Store) {
    && k < |tables|
    && FilesAfter(tables[..k], zk, files0).Ok? && Renamed(store0, MovesOf(tables[..k], zk)).Ok?
    && var before, stored := FilesAfter(tables[..k], zk, files0).value, Renamed(store0, MovesOf(tables[..k], zk)).value;
       match Target(zk, tables[k])
       case Err(_) => files == before && store == stored
       case Ok(target) => Interrupted(before, stored, tables[k], target, files, store)
  }

  ghost predicate Stopped(tables: seq<Table>, zk: ZkTables, files0: map<string, File>, store0: Store,
                          files: map<string, File>, store: Store) {
    exists k :: StoppedAt(tables, zk, k, files0, store0, files, store)
  }

  /** The report is "unchanged" exactly when every table has the UUID that ZooKeeper says. */
  lemma {:induction false} ReportUnchangedIff(tables: seq<Table>, zk: ZkTables)
    ensures Report(tables, zk) == Ok(false) <==>
              forall i :: 0 <= i < |tables| ==> Target(zk, tables[i]) == Ok(tables[i].uuid)
  {
    if tables != [] {
      ReportUnchangedIff(tables[1..], zk);
      assert forall i :: 1 <= i < |tables| ==> tables[1..][i - 1] == tables[i];
    }
  }

  /** Otherwise the first table that has not decides it. */
  lemma {:induction false} FirstDecides(tables: seq<Table>, zk: ZkTables, k: nat)
    requires k < |tables| && Target(zk, tables[k]) != Ok(tables[k].uuid)
    requires forall i :: 0 <= i < k ==> Target(zk, tables[i]) == Ok(tables[i].uuid)
    ensures Report(tables, zk) == match Target(zk, tables[k]) case Err(e) => Err(e) case Ok(_) => Ok(true)
  {
    if k > 0 {
      FirstDecides(tables[1..], zk, k - 1);
    }
  }

  class Disk {
    var files: map<string, File>
    var store: Store

    /**
     * `move_table_store`: creating the parent and changing owners may fail, the latter after the rename; a failed system
     * call comes out as a metadata error, an unknown user as it is.
     */
    method MoveTableStore(move: Move) returns (r: Result<()>)
      requires NoSharing(store)
      modifies this`store
      ensures r.Ok? ==> Rename(old(store), move) == Ok(store)
      ensures r.Ok? ==> move.from in old(store) && store == (old(store) - {move.from})[move.to := old(store)[move.from]]
      ensures move.from !in old(store) ||
              (move.to != move.from && move.to in old(store) && !old(store)[move.to].empty) ==>
                r.Err? && store == old(store)
      ensures r.Err? ==> r.error == MetadataFileError || r.error == KeyError
      ensures NoSharing(store) && WithData(store) == WithData(old(store))
      ensures store == old(store) || Rename(old(store), move) == Ok(store)
    {
      if move.from !in store {
        return Err(MetadataFileError);
      }
      if * {
        return Err(MetadataFileError);
      } else if * {
        return Err(KeyError);
      }
      var renamed := Rename(store, move);
      if renamed.Err? {
        return Err(renamed.error);
      }
      RenameKeepsData(store, move);
      store := renamed.value;
      if * {
        return Err(MetadataFileError);
      } else if * {
        return Err(KeyError);
      }
      return Ok(());
    }

    static method CutShort(whole: File) returns (left: File)
      ensures CutFile(left, whole)
    {
      var n: nat :| n <= |whole|;
      left := whole[..n];
      if n < |whole| {
        if * {
          var part: Line := *;
          left := left + [part];
        }
      }
    }

    /** `change_uuid`, on a detached table. */
    method ChangeUuid(table: Table, target: string, usesMacro: string -> bool) returns (r: Result<()>)
      requires NoSharing(store) && target != table.uuid
      modifies this
      ensures r.Ok? ==> SetUuid(old(files), table.path, target) == Ok(files)
      ensures r.Ok? && table.engine != "View" && table.engine != "MaterializedView" ==>
                Rename(old(store), Move(table.uuid, target)) == Ok(store)
      ensures table.engine == "View" || table.engine == "MaterializedView" ==> store == old(store)
      ensures table.engine != "View" && table.engine != "MaterializedView" &&
              Verify(old(files), table.path, usesMacro).Err? ==>
                r.Err? && files == old(files) && store == old(store)
      ensures NoSharing(store) && WithData(store) == WithData(old(store))
      ensures Interrupted(old(files), old(store), table, target, files, store)
    {
      if table.StoreBacked() {
        var verified := Verify(files, table.path, usesMacro);
        if verified.Err? {
          return Err(verified.error);
        }
        if verified.value {
          if * {
            return Err(NoNodeError);
          }
        }
      }
      var updated := SetUuid(files, table.path, target);
      if updated.Err? {
        return Err(updated.error);
      }
      if * {
        // the file cannot be opened, or the write fails part way
        if * {
          var left := CutShort(updated.value[table.path]);
          files := files[table.path := left];
        }
        return Err(MetadataFileError);
      }
      files := updated.value;
      if !table.StoreBacked() {
        return Ok(());
      }
      r := MoveTableStore(Move(table.uuid, target));
    }

    /** `_sync_table_uuids` */
    method SyncTableUuids(
      tables: seq<Table>, zk: ZkTables, databaseExists: bool, usesMacro: string -> bool, dryRun: bool)
      returns (r: Result<bool>)
      requires NoSharing(store)
      modifies this
      ensures dryRun ==> files == old(files) && store == old(store)
      ensures dryRun ==> r == if databaseExists then Report(tables, zk) else Ok(false)
      ensures !databaseExists ==> r == Ok(false) && files == old(files) && store == old(store)
      ensures databaseExists && r.Ok? ==> Report(tables, zk) == r
      ensures databaseExists && (Report(tables, zk).Err? || Report(tables, zk) == Ok(false)) ==>
                r == Report(tables, zk) && files == old(files) && store == old(store)
      ensures databaseExists && !dryRun && r.Ok? ==>
                && Renamed(old(store), MovesOf(tables, zk)) == Ok(store)
                && FilesAfter(tables, zk, old(files)) == Ok(files)
                && Synchronised(tables, zk, old(store), store)
      ensures databaseExists && !dryRun && r.Err? ==>
                Stopped(tables, zk, old(files), old(store), files, store)
      ensures NoSharing(store) && WithData(store) == WithData(old(store))
    {
      if !databaseExists {
        return Ok(false);
      }
      ghost var files0, store0 := files, store;
      var wasChanged := false;
      var i := 0;
      assert tables[..0] == [] && tables[0..] == tables;
      while i < |tables|
        invariant 0 <= i <= |tables|
        invariant wasChanged ==> !dryRun
        invariant SoFar(tables, zk, i, files0, store0, files, store, wasChanged)
      {
        var turn := SyncTable(tables, zk, i, files0, store0, usesMacro, dryRun, wasChanged);
        if turn.Stop? {
          return turn.result;
        }
        wasChanged := turn.changed;
        i := i + 1;
      }
      assert tables[..i] == tables && tables[i..] == [];
      Synchronises(tables, zk, files0, store0, files, store);
      return Ok(wasChanged);
    }

    /** One turn of the loop; `changed` says whether a table before this one was. */
    method SyncTable(tables: seq<Table>, zk: ZkTables, i: nat, ghost files0: map<string, File>, ghost store0: Store,
                     usesMacro: string -> bool, dryRun: bool, changed: bool) returns (turn: Turn)
      requires i < |tables| && (changed ==> !dryRun)
      requires SoFar(tables, zk, i, files0, store0, files, store, changed)
      modifies this
      ensures turn.Go? ==>
                (turn.changed ==> !dryRun) && SoFar(tables, zk, i + 1, files0, store0, files, store, turn.changed)
      ensures turn.Stop? ==> StopsWith(tables, zk, files0, store0, dryRun, turn.result, files, store)
    {
      var table := tables[i];
      var target := Target(zk, table);
      Decides(tables, zk, i, files0, store0, files, store, changed);
      if target.Err? {
        StopsAtNode(tables, zk, i, files0, store0, files, store, changed);
        return Stop(Err(target.error));
      }
      if target.value == table.uuid {
        SameUuid(tables, zk, i, files0, store0, files, store, changed);
        return Go(changed);
      }
      if dryRun {
        return Stop(Ok(true));
      }
      ghost var files1, store1 := files, store;
      var done := ChangeUuid(table, target.value, usesMacro);
      if done.Err? {
        StopsAtTable(tables, zk, i, files0, store0, files1, store1, changed, files, store);
        return Stop(Err(done.error));
      }
      ChangedUuid(tables, zk, i, files0, store0, files1, store1, changed, target.value, files, store);
      return Go(true);
    }
  }

  /**
   * For tables with distinct UUIDs and their data in place: each that is no view has its data under its ZooKeeper
   * UUID, if and only if none was given a UUID that a later one still had.
   */
  ghost predicate Synchronised(tables: seq<Table>, zk: ZkTables, store0: Store, store: Store) {
    && Readable(tables, zk)
    && (DistinctTables(tables, zk) && DataPresent(tables, store0) ==>
          ((forall k :: 0 <= k < |tables| && tables[k].engine != "View" && tables[k].engine != "MaterializedView" ==>
              DataFollowed(tables[k], zk, store0, store))
           <==> NoTableChain(tables, zk)))
  }

  lemma {:induction false} Synchronises(tables: seq<Table>, zk: ZkTables, files0: map<string, File>, store0: Store,
                     files: map<string, File>, store: Store)
    requires FilesAfter(tables, zk, files0) == Ok(files) && Renamed(store0, MovesOf(tables, zk)) == Ok(store)
    ensures Synchronised(tables, zk, store0, store)
  {
    SuccessReadsAll(tables, zk, files0);
    if DistinctTables(tables, zk) && DataPresent(tables, store0) {
      EveryTableFollowsIff(tables, zk, store0);
    }
  }

  datatype Turn = Go(changed: bool) | Stop(result: Result<bool>)

  /** What holds when the loop is left early: in a dry run with its report, in a real one with an error. */
  ghost predicate StopsWith(tables: seq<Table>, zk: ZkTables, files0: map<string, File>, store0: Store, dryRun: bool,
                            result: Result<bool>, files: map<string, File>, store: Store) {
    && NoSharing(store) && WithData(store) == WithData(store0)
    && (dryRun ==> files == files0 && store == store0 && result == Report(tables, zk))
    && (!dryRun ==> result.Err? && Stopped(tables, zk, files0, store0, files, store))
    && (Report(tables, zk) != Ok(true) ==> files == files0 && store == store0 && result == Report(tables, zk))
  }

  /** What the loop has achieved after `i` tables. */
  ghost predicate SoFar(tables: seq<Table>, zk: ZkTables, i: nat, files0: map<string, File>, store0: Store,
                        files: map<string, File>, store: Store, changed: bool)
    requires i <= |tables|
  {
    && NoSharing(store) && WithData(store) == WithData(store0)
    && (!changed ==> files == files0 && store == store0 && Report(tables[i..], zk) == Report(tables, zk))
    && (changed ==> Report(tables, zk) == Ok(true))
    && Renamed(store0, MovesOf(tables[..i], zk)) == Ok(store)
    && FilesAfter(tables[..i], zk, files0) == Ok(files)
  }

  /** Before anything has changed, the table at hand decides the report if its node is unreadable or differs. */
  lemma {:induction false} Decides(tables: seq<Table>, zk: ZkTables, i: nat, files0: map<string, File>, store0: Store,
                files: map<string, File>, store: Store, changed: bool)
    requires i < |tables| && SoFar(tables, zk, i, files0, store0, files, store, changed)
    ensures !changed ==>
              match Target(zk, tables[i])
              case Err(e) => Report(tables, zk) == Err(e)
              case Ok(uuid) => uuid != tables[i].uuid ==> Report(tables, zk) == Ok(true)
  {
    NextTable(tables, zk, files0, i);
  }

  lemma StopsAtNode(tables: seq<Table>, zk: ZkTables, i: nat, files0: map<string, File>, store0: Store,
                    files: map<string, File>, store: Store, changed: bool)
    requires i < |tables| && SoFar(tables, zk, i, files0, store0, files, store, changed) && Target(zk, tables[i]).Err?
    ensures Stopped(tables, zk, files0, store0, files, store)
  {
    assert StoppedAt(tables, zk, i, files0, store0, files, store);
  }

  lemma StopsAtTable(tables: seq<Table>, zk: ZkTables, i: nat, files0: map<string, File>, store0: Store,
                     files: map<string, File>, store: Store, changed: bool, files1: map<string, File>, store1: Store)
    requires i < |tables| && SoFar(tables, zk, i, files0, store0, files, store, changed) && Target(zk, tables[i]).Ok?
    requires Interrupted(files, store, tables[i], Target(zk, tables[i]).value, files1, store1)
    ensures Stopped(tables, zk, files0, store0, files1, store1)
  {
    assert StoppedAt(tables, zk, i, files0, store0, files1, store1);
  }

  lemma SameUuid(tables: seq<Table>, zk: ZkTables, i: nat, files0: map<string, File>, store0: Store,
                 files: map<string, File>, store: Store, changed: bool)
    requires i < |tables| && SoFar(tables, zk, i, files0, store0, files, store, changed)
    requires Target(zk, tables[i]) == Ok(tables[i].uuid)
    ensures SoFar(tables, zk, i + 1, files0, store0, files, store, changed)
  {
    NextTable(tables, zk, files0, i);
    assert MovesOf(tables[..i], zk) + [] == MovesOf(tables[..i], zk);
  }

  lemma ChangedUuid(tables: seq<Table>, zk: ZkTables, i: nat, files0: map<string, File>, store0: Store,
                    files: map<string, File>, store: Store, changed: bool, target: string,
                    files1: map<string, File>, store1: Store)
    requires i < |tables| && SoFar(tables, zk, i, files0, store0, files, store, changed)
    requires Target(zk, tables[i]) == Ok(target) && target != tables[i].uuid
    requires SetUuid(files, tables[i].path, target) == Ok(files1)
    requires if tables[i].StoreBacked() then Rename(store, Move(tables[i].uuid, target)) == Ok(store1) else store1 == store
    requires NoSharing(store1) && WithData(store1) == WithData(store)
    ensures SoFar(tables, zk, i + 1, files0, store0, files1, store1, true)
  {
    var moves, move := MovesOf(tables[..i], zk), Move(tables[i].uuid, target);
    NextTable(tables, zk, files0, i);
    if tables[i].StoreBacked() {
      MovesAppend(store0, moves, move);
    } else {
      assert moves + [] == moves;
    }
  }

  /** What the table at `i` adds to the specification of the tables before it. */
  lemma {:induction false} NextTable(tables: seq<Table>, zk: ZkTables, files: map<string, File>, i: nat)
    requires i < |tables|
    ensures var (table, target) := (tables[i], Target(zk, tables[i]));
            && Report(tables[i..], zk) == (match target
                 case Err(e) => Err(e)
                 case Ok(uuid) => if uuid == table.uuid then Report(tables[i + 1..], zk) else Ok(true))
            && MovesOf(tables[..i + 1], zk) == MovesOf(tables[..i], zk) +
                 (if target.Ok? && target.value != table.uuid && table.StoreBacked()
                  then [Move(table.uuid, target.value)] else [])
            && (target.Ok? && FilesAfter(tables[..i], zk, files).Ok? ==>
                  FilesAfter(tables[..i + 1], zk, files) ==
                  var before := FilesAfter(tables[..i], zk, files).value;
                  if target.value == table.uuid then Ok(before) else SetUuid(before, table.path, target.value))
  {
    assert tables[i..][0] == tables[i] && tables[i..][1..] == tables[i + 1..];
    assert tables[..i + 1][..i] == tables[..i] && tables[..i + 1][i] == tables[i];
  }

  lemma {:induction false} MovesAppend(store: Store, moves: seq<Move>, move: Move)
    requires Renamed(store, moves).Ok?
    ensures Renamed(store, moves + [move]) == Rename(Renamed(store, moves).value, move)
  {
    assert (moves + [move])[..|moves|] == moves;
  }

  // ---------------------------------------------------------------- what a successful run means for the tables

  ghost predicate Readable(tables: seq<Table>, zk: ZkTables) {
    forall i :: 0 <= i < |tables| ==> Target(zk, tables[i]).Ok?
  }

  ghost predicate DistinctTables(tables: seq<Table>, zk: ZkTables)
    requires Readable(tables, zk)
  {
    forall i, j :: 0 <= i < j < |tables| ==>
      && tables[i].uuid != tables[j].uuid
      && tables[i].path != tables[j].path
      && Target(zk, tables[i]).value != Target(zk, tables[j]).value
  }

  ghost predicate Moves(table: Table, zk: ZkTables) {
    && Target(zk, table).Ok? && Target(zk, table).value != table.uuid
    && table.engine != "View" && table.engine != "MaterializedView"
  }

  ghost function MoveOf(table: Table, zk: ZkTables): Move
    requires Moves(table, zk)
  {
    Move(table.uuid, Target(zk, table).value)
  }

  lemma {:induction false} SuccessReadsAll(tables: seq<Table>, zk: ZkTables, files: map<string, File>)
    requires FilesAfter(tables, zk, files).Ok?
    ensures Readable(tables, zk)
  {
    if tables != [] {
      var n := |tables| - 1;
      SuccessReadsAll(tables[..n], zk, files);
      assert forall i :: 0 <= i < n ==> tables[..n][i] == tables[i];
    }
  }

  lemma {:induction false} MoveHasTable(tables: seq<Table>, zk: ZkTables, m: int) returns (i: int)
    requires 0 <= m < |MovesOf(tables, zk)|
    ensures 0 <= i < |tables| && Moves(tables[i], zk) && MovesOf(tables, zk)[m] == MoveOf(tables[i], zk)
  {
    var n := |tables| - 1;
    if m < |MovesOf(tables[..n], zk)| {
      i := MoveHasTable(tables[..n], zk, m);
    } else {
      i := n;
    }
  }

  lemma {:induction false} TableHasMove(tables: seq<Table>, zk: ZkTables, i: int) returns (m: int)
    requires 0 <= i < |tables| && Moves(tables[i], zk)
    ensures 0 <= m < |MovesOf(tables, zk)| && MovesOf(tables, zk)[m] == MoveOf(tables[i], zk)
  {
    var n := |tables| - 1;
    if i < n {
      m := TableHasMove(tables[..n], zk, i);
    } else {
      m := |MovesOf(tables[..n], zk)|;
    }
  }

  lemma {:induction false} MovesAreDistinct(tables: seq<Table>, zk: ZkTables)
    requires Readable(tables, zk) && DistinctTables(tables, zk)
    ensures DistinctMoves(MovesOf(tables, zk))
  {
    if tables != [] {
      var n := |tables| - 1;
      var moves, front := MovesOf(tables, zk), MovesOf(tables[..n], zk);
      MovesAreDistinct(tables[..n], zk);
      forall m | 0 <= m < |front| && Moves(tables[n], zk)
        ensures front[m].from != tables[n].uuid && front[m].to != Target(zk, tables[n]).value
      {
        var i := MoveHasTable(tables[..n], zk, m);
      }
    }
  }

  /** A table is given the UUID that a later table of the list still has. */
  ghost predicate TableChain(tables: seq<Table>, zk: ZkTables, i: int, j: int) {
    && 0 <= i < j < |tables|
    && Moves(tables[i], zk) && Moves(tables[j], zk)
    && MoveOf(tables[i], zk).to == tables[j].uuid
  }

  ghost predicate NoTableChain(tables: seq<Table>, zk: ZkTables) {
    forall i, j :: !TableChain(tables, zk, i, j)
  }

  lemma {:induction false} ChainHasTables(tables: seq<Table>, zk: ZkTables, a: int, b: int) returns (i: int, j: int)
    requires Chain(MovesOf(tables, zk), a, b)
    ensures TableChain(tables, zk, i, j)
  {
    var n := |tables| - 1;
    if b < |MovesOf(tables[..n], zk)| {
      i, j := ChainHasTables(tables[..n], zk, a, b);
    } else {
      i := MoveHasTable(tables[..n], zk, a);
      j := n;
    }
  }

  lemma {:induction false} TablesHaveChain(tables: seq<Table>, zk: ZkTables, i: int, j: int) returns (a: int, b: int)
    requires TableChain(tables, zk, i, j)
    ensures Chain(MovesOf(tables, zk), a, b) && MovesOf(tables, zk)[a] == MoveOf(tables[i], zk)
  {
    var n := |tables| - 1;
    if j < n {
      assert TableChain(tables[..n], zk, i, j);
      a, b := TablesHaveChain(tables[..n], zk, i, j);
    } else {
      a := TableHasMove(tables[..n], zk, i);
      b := |MovesOf(tables[..n], zk)|;
    }
  }

  lemma {:induction false} ChainsMatch(tables: seq<Table>, zk: ZkTables)
    ensures NoChain(MovesOf(tables, zk)) <==> NoTableChain(tables, zk)
  {
    if !NoChain(MovesOf(tables, zk)) {
      var a, b :| Chain(MovesOf(tables, zk), a, b);
      var i, j := ChainHasTables(tables, zk, a, b);
    }
    if !NoTableChain(tables, zk) {
      var i, j :| TableChain(tables, zk, i, j);
      var a, b := TablesHaveChain(tables, zk, i, j);
    }
  }

  /** The table's data is found under its ZooKeeper UUID. */
  ghost predicate DataFollowed(table: Table, zk: ZkTables, store: Store, final: Store)
    requires Target(zk, table).Ok?
  {
    table.uuid in store && Target(zk, table).value in final && final[Target(zk, table).value] == store[table.uuid]
  }

  lemma {:induction false} UnchangedStays(tables: seq<Table>, zk: ZkTables, store: Store, k: int)
    requires Readable(tables, zk) && DistinctTables(tables, zk) && Renamed(store, MovesOf(tables, zk)).Ok?
    requires 0 <= k < |tables| && Target(zk, tables[k]).value == tables[k].uuid && tables[k].uuid in store
    ensures DataFollowed(tables[k], zk, store, Renamed(store, MovesOf(tables, zk)).value)
  {
    var moves := MovesOf(tables, zk);
    forall m | 0 <= m < |moves| ensures moves[m].from != tables[k].uuid && moves[m].to != tables[k].uuid {
      var i := MoveHasTable(tables, zk, m);
    }
    Untouched(store, moves, tables[k].uuid);
  }

  lemma {:induction false} AllDataFollows(tables: seq<Table>, zk: ZkTables, store: Store, k: int)
    requires Readable(tables, zk) && DistinctTables(tables, zk) && NoTableChain(tables, zk)
    requires Renamed(store, MovesOf(tables, zk)).Ok?
    requires 0 <= k < |tables| && tables[k].uuid in store
    requires tables[k].engine != "View" && tables[k].engine != "MaterializedView"
    ensures DataFollowed(tables[k], zk, store, Renamed(store, MovesOf(tables, zk)).value)
  {
    if Moves(tables[k], zk) {
      MovesAreDistinct(tables, zk);
      ChainsMatch(tables, zk);
      var m := TableHasMove(tables, zk, k);
      AllArrive(store, MovesOf(tables, zk), m);
    } else {
      UnchangedStays(tables, zk, store, k);
    }
  }

  /** Every table but the views has a directory under the UUID listed for it. */
  ghost predicate DataPresent(tables: seq<Table>, store: Store) {
    forall k :: 0 <= k < |tables| && tables[k].engine != "View" && tables[k].engine != "MaterializedView" ==>
      tables[k].uuid in store
  }

  /** Views have no data to move. */
  lemma {:induction false} ViewsAreNotMoved(tables: seq<Table>, zk: ZkTables, k: int)
    requires Readable(tables, zk) && DistinctTables(tables, zk)
    requires 0 <= k < |tables| && (tables[k].engine == "View" || tables[k].engine == "MaterializedView")
    ensures forall m :: 0 <= m < |MovesOf(tables, zk)| ==> MovesOf(tables, zk)[m].from != tables[k].uuid
  {
    forall m | 0 <= m < |MovesOf(tables, zk)| ensures MovesOf(tables, zk)[m].from != tables[k].uuid {
      var i := MoveHasTable(tables, zk, m);
    }
  }

  /**
   * After a run that succeeded every table's data is under its ZooKeeper UUID exactly when no table
   * was given a UUID that a later one still had.
   */
  lemma {:induction false} EveryTableFollowsIff(tables: seq<Table>, zk: ZkTables, store: Store)
    requires Readable(tables, zk) && DistinctTables(tables, zk) && Renamed(store, MovesOf(tables, zk)).Ok?
    requires DataPresent(tables, store)
    ensures var final := Renamed(store, MovesOf(tables, zk)).value;
            (forall k :: 0 <= k < |tables| && tables[k].engine != "View" && tables[k].engine != "MaterializedView" ==>
               DataFollowed(tables[k], zk, store, final))
            <==> NoTableChain(tables, zk)
  {
    var final := Renamed(store, MovesOf(tables, zk)).value;
    if NoTableChain(tables, zk) {
      forall k | 0 <= k < |tables| && tables[k].engine != "View" && tables[k].engine != "MaterializedView"
        ensures DataFollowed(tables[k], zk, store, final)
      {
        AllDataFollows(tables, zk, store, k);
      }
    } else {
      var i, j :| TableChain(tables, zk, i, j);
      MovesAreDistinct(tables, zk);
      var a, b := TablesHaveChain(tables, zk, i, j);
      ChainTakesAway(store, MovesOf(tables, zk), a, b);
      assert !DataFollowed(tables[i], zk, store, final);
    }
  }

  /** When no table's directory is empty, a run that succeeds met no chain. */
  lemma {:induction false} FullTablesFollow(tables: seq<Table>, zk: ZkTables, store: Store)
    requires Readable(tables, zk) && DistinctTables(tables, zk) && Renamed(store, MovesOf(tables, zk)).Ok?
    requires forall k :: 0 <= k < |tables| && tables[k].engine != "View" && tables[k].engine != "MaterializedView" ==>
               tables[k].uuid in store && !store[tables[k].uuid].empty
    ensures var final := Renamed(store, MovesOf(tables, zk)).value;
            forall k :: 0 <= k < |tables| && tables[k].engine != "View" && tables[k].engine != "MaterializedView" ==>
              DataFollowed(tables[k], zk, store, final)
  {
    var moves := MovesOf(tables, zk);
    MovesAreDistinct(tables, zk);
    forall m | 0 <= m < |moves| ensures moves[m].from in store && !store[moves[m].from].empty {
      var i := MoveHasTable(tables, zk, m);
    }
    FullStoresFollow(store, moves);
    ChainsMatch(tables, zk);
    EveryTableFollowsIff(tables, zk, store);
  }

  ghost predicate DistinctPaths(tables: seq<Table>) {
    forall i, j :: 0 <= i < j < |tables| ==> tables[i].path != tables[j].path
  }

  /** A changed table's metadata file has the new UUID in its first line; the others are as they were. */
  lemma {:induction false} MetadataFollows(tables: seq<Table>, zk: ZkTables, files: map<string, File>, k: int)
    requires FilesAfter(tables, zk, files).Ok? && Readable(tables, zk) && DistinctPaths(tables)
    requires 0 <= k < |tables|
    ensures var final, path, target := FilesAfter(tables, zk, files).value, tables[k].path, Target(zk, tables[k]).value;
            if target == tables[k].uuid then
              (path in final <==> path in files) && (path in files ==> final[path] == files[path])
            else
              path in files && files[path] != [] && path in final && final[path] == WithUuid(files[path], target)
  {
    var n := |tables| - 1;
    var front := tables[..n];
    if k < n {
      MetadataFollows(front, zk, files, k);
      assert tables[k].path != tables[n].path;
    } else {
      OtherFilesStay(front, zk, files, tables[n].path);
    }
  }

  lemma {:induction false} OtherFilesStay(tables: seq<Table>, zk: ZkTables, files: map<string, File>, path: string)
    requires FilesAfter(tables, zk, files).Ok? && forall i :: 0 <= i < |tables| ==> tables[i].path != path
    ensures var final := FilesAfter(tables, zk, files).value;
            (path in final <==> path in files) && (path in files ==> final[path] == files[path])
  {
    if tables != [] {
      OtherFilesStay(tables[..|tables| - 1], zk, files, path);
    }
  }

  /**
   * A run that succeeds leaves a table's ZooKeeper UUID in the header of its metadata file if and only if the header
   * of a changed table had a UUID before, and that of an unchanged one had this one.
   */
  lemma {:induction false} HeadersFollowIff(tables: seq<Table>, zk: ZkTables, files: map<string, File>, k: int)
    requires FilesAfter(tables, zk, files).Ok? && DistinctPaths(tables)
    requires 0 <= k < |tables| && tables[k].path in files
    ensures Target(zk, tables[k]).Ok?
    ensures var final, path, target := FilesAfter(tables, zk, files).value, tables[k].path, Target(zk, tables[k]).value;
            && path in final
            && (HeaderUuid(final[path]) == Some(target) <==>
                  if target == tables[k].uuid then HeaderUuid(files[path]) == Some(target)
                  else HeaderUuid(files[path]).Some?)
  {
    SuccessReadsAll(tables, zk, files);
    MetadataFollows(tables, zk, files, k);
  }
}
