/** What the rows of the space-usage statistics add up to. */
module UsageTotals {
  import opened SpaceUsage

  function TotalUsage(usages: seq<Usage>): real {
    if usages == [] then 0.0 else usages[0].size + TotalUsage(usages[1..])
  }

  function TotalShares(blobs: seq<Blob>): real {
    if blobs == [] then 0.0 else TotalShares(blobs[..|blobs| - 1]) + Share(blobs[|blobs| - 1])
  }

  lemma {:induction false} TotalConcat(a: seq<Usage>, b: seq<Usage>)
    ensures TotalUsage(a + b) == TotalUsage(a) + TotalUsage(b)
  {
    if a == [] {
      assert a + b == b;
    } else {
      assert (a + b)[1..] == a[1..] + b;
      TotalConcat(a[1..], b);
    }
  }

  lemma {:induction false} AddShareTotal(usages: seq<Usage>, b: Blob, state: State)
    ensures TotalUsage(AddShare(usages, b, state)) == TotalUsage(usages) + Share(b)
  {
    var added := AddShare(usages, b, state);
    if usages == [] {
      assert added[1..] == [];
    } else if usages[0].replicas == b.replicas {
      assert added[1..] == usages[1..];
    } else {
      AddShareTotal(usages[1..], b, state);
      assert added[1..] == AddShare(usages[1..], b, state);
    }
  }

  /** Grouping by replicas loses nothing. */
  lemma {:induction false} GroupTotal(blobs: seq<Blob>, state: State)
    ensures TotalUsage(GroupByReplicas(blobs, state)) == TotalShares(blobs)
  {
    if blobs != [] {
      GroupTotal(blobs[..|blobs| - 1], state);
      AddShareTotal(GroupByReplicas(blobs[..|blobs| - 1], state), blobs[|blobs| - 1], state);
    }
  }

  /** The size depends on the path only, and every row counts once. */
  ghost predicate SizedByPath(rows: seq<Row>, size: string -> nat) {
    forall i :: 0 <= i < |rows| ==> rows[i].size == size(rows[i].path) && rows[i].refCount == 1
  }

  ghost predicate EvenShares(blobs: seq<Blob>, size: string -> nat) {
    forall i :: 0 <= i < |blobs| ==> blobs[i].size == blobs[i].refCount * size(blobs[i].path)
  }

  lemma {:induction false} AddRowEven(blobs: seq<Blob>, row: Row, size: string -> nat)
    requires EvenShares(blobs, size) && row.size == size(row.path) && row.refCount == 1
    ensures EvenShares(AddRow(blobs, row), size)
  {
    if blobs != [] {
      var b := blobs[0];
      if b.path == row.path && b.state == row.state {
        assert (b.refCount + 1) * size(b.path) == b.refCount * size(b.path) + size(b.path);
      } else {
        AddRowEven(blobs[1..], row, size);
      }
    }
  }

  lemma {:induction false} AggregateEven(rows: seq<Row>, size: string -> nat)
    requires SizedByPath(rows, size)
    ensures EvenShares(Aggregate(rows), size)
  {
    if rows != [] {
      AggregateEven(rows[..|rows| - 1], size);
      AddRowEven(Aggregate(rows[..|rows| - 1]), rows[|rows| - 1], size);
    }
  }

  lemma EvenShare(b: Blob, size: nat)
    requires b.size == b.refCount * size
    ensures Share(b) == size as real
  {
    assert b.size as real == b.refCount as real * size as real;
  }

  /** The groups of a table have distinct keys. */
  ghost predicate DistinctKeys(blobs: seq<Blob>) {
    forall i, j :: 0 <= i < j < |blobs| ==> !(blobs[i].path == blobs[j].path && blobs[i].state == blobs[j].state)
  }

  lemma {:induction false} AddRowDistinct(blobs: seq<Blob>, row: Row)
    requires DistinctKeys(blobs)
    ensures DistinctKeys(AddRow(blobs, row))
  {
    if blobs != [] && !(blobs[0].path == row.path && blobs[0].state == row.state) {
      AddRowDistinct(blobs[1..], row);
      var added, b := AddRow(blobs[1..], row), blobs[0];
      AddRowKeys(blobs[1..], row, b.path, b.state);
      assert !HasKey(blobs[1..], b.path, b.state);
      forall j | 0 <= j < |added| ensures !(added[j].path == b.path && added[j].state == b.state) {
      }
    }
  }

  lemma {:induction false} AggregateDistinct(rows: seq<Row>)
    ensures DistinctKeys(Aggregate(rows))
  {
    if rows != [] {
      AggregateDistinct(rows[..|rows| - 1]);
      AddRowDistinct(Aggregate(rows[..|rows| - 1]), rows[|rows| - 1]);
    }
  }

  /** The sum of the sizes of a set of paths. */
  ghost function SetTotal(paths: set<string>, size: string -> nat): nat {
    if paths == {} then 0
    else
      var p :| p in paths;
      size(p) + SetTotal(paths - {p}, size)
  }

  lemma {:induction false} SetTotalRemove(paths: set<string>, size: string -> nat, q: string)
    requires q in paths
    ensures SetTotal(paths, size) == size(q) + SetTotal(paths - {q}, size)
  {
    var p :| p in paths && SetTotal(paths, size) == size(p) + SetTotal(paths - {p}, size);
    if p != q {
      SetTotalRemove(paths - {p}, size, q);
      SetTotalRemove(paths - {q}, size, p);
      assert paths - {p} - {q} == paths - {q} - {p};
    }
  }

  lemma {:induction false} SetTotalUnion(a: set<string>, b: set<string>, size: string -> nat)
    requires a !! b
    ensures SetTotal(a + b, size) == SetTotal(a, size) + SetTotal(b, size)
  {
    if a == {} {
      assert a + b == b;
    } else {
      var p :| p in a;
      SetTotalRemove(a, size, p);
      SetTotalRemove(a + b, size, p);
      SetTotalUnion(a - {p}, b, size);
      assert a + b - {p} == (a - {p}) + b;
    }
  }

  function BlobPaths(blobs: seq<Blob>): set<string> {
    set b | b in blobs :: b.path
  }

  lemma PathsWithoutLast(blobs: seq<Blob>)
    requires blobs != [] && DistinctPaths(blobs)
    ensures var n := |blobs| - 1;
            && blobs[n].path in BlobPaths(blobs)
            && BlobPaths(blobs[..n]) == BlobPaths(blobs) - {blobs[n].path}
  {
    var n := |blobs| - 1;
    assert blobs == blobs[..n] + [blobs[n]] && blobs[n] in blobs;
    forall b | b in blobs[..n] ensures b.path != blobs[n].path {
      var i :| 0 <= i < n && blobs[i] == b;
    }
  }

  /** Groups of one state with even shares weigh what their paths weigh. */
  lemma {:induction false} SharesOfPaths(blobs: seq<Blob>, size: string -> nat)
    requires EvenShares(blobs, size)
    requires DistinctPaths(blobs)
    ensures TotalShares(blobs) == SetTotal(BlobPaths(blobs), size) as real
  {
    if blobs != [] {
      var n := |blobs| - 1;
      SharesOfPaths(blobs[..n], size);
      EvenShare(blobs[n], size(blobs[n].path));
      PathsWithoutLast(blobs);
      SetTotalRemove(BlobPaths(blobs), size, blobs[n].path);
    }
  }

  lemma {:induction false} WhereMembers(blobs: seq<Blob>, keep: KeyFilter)
    ensures forall b :: b in WhereBlobs(blobs, keep) <==> b in blobs && keep(b.path, b.state)
  {
    if blobs != [] {
      assert blobs == [blobs[0]] + blobs[1..];
      WhereMembers(blobs[1..], keep);
    }
  }

  lemma {:induction false} WhereEven(blobs: seq<Blob>, keep: KeyFilter, size: string -> nat)
    requires EvenShares(blobs, size)
    ensures EvenShares(WhereBlobs(blobs, keep), size)
  {
    if blobs != [] {
      WhereEven(blobs[1..], keep, size);
    }
  }

  ghost predicate DistinctPaths(blobs: seq<Blob>) {
    forall i, j :: 0 <= i < j < |blobs| ==> blobs[i].path != blobs[j].path
  }

  /** The groups selected for one state belong to distinct paths. */
  lemma {:induction false} WhereInState(blobs: seq<Blob>, s: LocalState, excluded: set<string>)
    requires DistinctKeys(blobs)
    ensures DistinctPaths(WhereBlobs(blobs, InState(s, excluded)))
  {
    if blobs != [] {
      var keep := InState(s, excluded);
      var b, rest := blobs[0], WhereBlobs(blobs[1..], keep);
      WhereInState(blobs[1..], s, excluded);
      WhereMembers(blobs[1..], keep);
      if keep(b.path, b.state) {
        forall j | 0 <= j < |rest| ensures rest[j].path != b.path {
          assert rest[j] in rest && keep(rest[j].path, rest[j].state);
          FirstKeyIsNew(blobs, rest[j]);
        }
      }
    }
  }

  lemma FirstKeyIsNew(blobs: seq<Blob>, b: Blob)
    requires blobs != [] && DistinctKeys(blobs) && b in blobs[1..]
    ensures !(b.path == blobs[0].path && b.state == blobs[0].state)
  {
    var k :| 0 <= k < |blobs[1..]| && blobs[1..][k] == b;
    assert blobs[k + 1] == b;
  }

  lemma {:induction false} SelectedPaths(blobs: seq<Blob>, s: LocalState, excluded: set<string>)
    ensures BlobPaths(WhereBlobs(blobs, InState(s, excluded))) == PathsOfBlobs(blobs, {s}) - excluded
  {
    WhereMembers(blobs, InState(s, excluded));
  }

  /** What the table says about one state. */
  function UsageOf(usages: seq<Usage>, state: State): real {
    if usages == [] then 0.0
    else (if usages[0].state == state then usages[0].size else 0.0) + UsageOf(usages[1..], state)
  }

  lemma {:induction false} UsageConcat(a: seq<Usage>, b: seq<Usage>, state: State)
    ensures UsageOf(a + b, state) == UsageOf(a, state) + UsageOf(b, state)
  {
    if a == [] {
      assert a + b == b;
    } else {
      assert (a + b)[1..] == a[1..] + b;
      UsageConcat(a[1..], b, state);
    }
  }

  /** Every row belongs to the state. */
  ghost predicate AllOf(usages: seq<Usage>, state: State) {
    forall i :: 0 <= i < |usages| ==> usages[i].state == state
  }

  lemma {:induction false} AddShareState(usages: seq<Usage>, b: Blob, state: State)
    requires AllOf(usages, state)
    ensures AllOf(AddShare(usages, b, state), state)
  {
    if usages != [] && usages[0].replicas != b.replicas {
      AddShareState(usages[1..], b, state);
    }
  }

  lemma {:induction false} GroupState(blobs: seq<Blob>, state: State)
    ensures AllOf(GroupByReplicas(blobs, state), state)
  {
    if blobs != [] {
      GroupState(blobs[..|blobs| - 1], state);
      AddShareState(GroupByReplicas(blobs[..|blobs| - 1], state), blobs[|blobs| - 1], state);
    }
  }

  lemma {:induction false} UsageOfOneState(usages: seq<Usage>, own: State, state: State)
    requires AllOf(usages, own)
    ensures UsageOf(usages, state) == if state == own then TotalUsage(usages) else 0.0
  {
    if usages != [] {
      UsageOfOneState(usages[1..], own, state);
    }
  }

  /** The groups of one query weigh what the selected paths weigh, all under its own state. */
  lemma {:induction false} GroupWeight(
      rows: seq<Row>, s: LocalState, excluded: set<string>, own: State, size: string -> nat, state: State)
    requires SizedByPath(rows, size)
    ensures UsageOf(GroupByReplicas(WhereBlobs(Aggregate(rows), InState(s, excluded)), own), state) ==
            if state == own then SetTotal(PathsOfRows(rows, {s}) - excluded, size) as real else 0.0
  {
    var blobs := Aggregate(rows);
    var kept := WhereBlobs(blobs, InState(s, excluded));
    AggregateEven(rows, size);
    AggregateDistinct(rows);
    WhereEven(blobs, InState(s, excluded), size);
    WhereInState(blobs, s, excluded);
    SelectedPaths(blobs, s, excluded);
    SameSubselect(rows, {s});
    SharesOfPaths(kept, size);
    GroupTotal(kept, own);
    GroupState(kept, own);
    UsageOfOneState(GroupByReplicas(kept, own), own, state);
  }

  /** Every local path counts in exactly one state. */
  function CountedPaths(rows: seq<Row>, state: State): set<string> {
    match state
    case ActiveData => PathsOfRows(rows, {Active})
    case UniqueFrozen => PathsOfRows(rows, {Shadow}) - PathsOfRows(rows, {Active})
    case UniqueDetached => PathsOfRows(rows, {Detached}) - PathsOfRows(rows, {Active, Shadow})
    case Orphaned => {}
  }

  lemma PathsPartition(rows: seq<Row>)
    ensures CountedPaths(rows, ActiveData) !! CountedPaths(rows, UniqueFrozen) !! CountedPaths(rows, UniqueDetached)
    ensures CountedPaths(rows, ActiveData) + CountedPaths(rows, UniqueFrozen) + CountedPaths(rows, UniqueDetached) ==
            PathsOfRows(rows, {Active, Shadow, Detached})
  {
    assert PathsOfRows(rows, {Active, Shadow}) == PathsOfRows(rows, {Active}) + PathsOfRows(rows, {Shadow});
    assert PathsOfRows(rows, {Active, Shadow, Detached}) ==
           PathsOfRows(rows, {Active}) + PathsOfRows(rows, {Shadow}) + PathsOfRows(rows, {Detached});
  }

  lemma {:induction false} UsageOfState(rows: seq<Row>, orphaned: seq<Object>, size: string -> nat, state: State)
    requires SizedByPath(rows, size) && state != Orphaned
    ensures UsageOf(CteQuery(rows, orphaned), state) == SetTotal(CountedPaths(rows, state), size) as real
  {
    var blobs, last := Aggregate(rows), [OrphanedRow(orphaned)];
    SameSubselect(rows, {Active});
    SameSubselect(rows, {Active, Shadow});
    var a := GroupByReplicas(WhereBlobs(blobs, InState(Active, {})), ActiveData);
    var f := GroupByReplicas(WhereBlobs(blobs, InState(Shadow, PathsOfRows(rows, {Active}))), UniqueFrozen);
    var d := GroupByReplicas(WhereBlobs(blobs, InState(Detached, PathsOfRows(rows, {Active, Shadow}))), UniqueDetached);
    GroupWeight(rows, Active, {}, ActiveData, size, state);
    GroupWeight(rows, Shadow, PathsOfRows(rows, {Active}), UniqueFrozen, size, state);
    GroupWeight(rows, Detached, PathsOfRows(rows, {Active, Shadow}), UniqueDetached, size, state);
    UsageConcat(a, f, state);
    UsageConcat(a + f, d, state);
    UsageConcat(a + f + d, last, state);
    assert last[1..] == [];
    assert PathsOfRows(rows, {Active}) - {} == PathsOfRows(rows, {Active});
  }

  /**
   * If the size of an object depends on its path only, the three states together weigh exactly what
   * the distinct local paths weigh, each path counted under one state.
   */
  lemma UsageIsConserved(rows: seq<Row>, orphaned: seq<Object>, size: string -> nat)
    requires SizedByPath(rows, size)
    ensures var usages := CteQuery(rows, orphaned);
            UsageOf(usages, ActiveData) + UsageOf(usages, UniqueFrozen) + UsageOf(usages, UniqueDetached) ==
            SetTotal(PathsOfRows(rows, {Active, Shadow, Detached}), size) as real
  {
    UsageOfState(rows, orphaned, size, ActiveData);
    UsageOfState(rows, orphaned, size, UniqueFrozen);
    UsageOfState(rows, orphaned, size, UniqueDetached);
    PathsPartition(rows);
    var a, f, d := CountedPaths(rows, ActiveData), CountedPaths(rows, UniqueFrozen), CountedPaths(rows, UniqueDetached);
    SetTotalUnion(a, f, size);
    SetTotalUnion(a + f, d, size);
  }

  /** `LEFT ANTI JOIN`: the listed objects without a local row. */
  function AntiJoin(objects: seq<Object>, rows: seq<Row>): seq<Object> {
    if objects == [] then []
    else
      var rest := AntiJoin(objects[1..], rows);
      if objects[0].path in PathsOfRows(rows, {Active, Shadow, Detached}) then rest else [objects[0]] + rest
  }

  predicate Counted(rows: seq<Row>, path: string) {
    || path in CountedPaths(rows, ActiveData)
    || path in CountedPaths(rows, UniqueFrozen)
    || path in CountedPaths(rows, UniqueDetached)
  }

  /** An object of the bucket is orphaned exactly when its path is counted under none of the states. */
  lemma {:induction false} OrphansAreDisjoint(objects: seq<Object>, rows: seq<Row>)
    ensures forall o :: o in AntiJoin(objects, rows) <==> o in objects && !Counted(rows, o.path)
  {
    if objects != [] {
      PathsPartition(rows);
      OrphansAreDisjoint(objects[1..], rows);
      assert objects == [objects[0]] + objects[1..];
    }
  }
}
