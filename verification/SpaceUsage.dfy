/**
 * The space-usage statistics as relational algebra: one query with common table expressions against
 * four separate ones. A sorted array of replica names is modelled as the multiset of its elements.
 */
module SpaceUsage {
  datatype LocalState = Active | Shadow | Detached

  datatype State = ActiveData | UniqueFrozen | UniqueDetached | Orphaned

  type Count = n: nat | n >= 1 witness 1

  /** A row of the table of local blobs. */
  datatype Row = Row(replica: string, path: string, state: LocalState, size: nat, refCount: Count)

  /** A row of `aggregated_blobs`. */
  datatype Blob = Blob(replicas: multiset<string>, path: string, state: LocalState, size: nat, refCount: Count)

  /** A row of the result table. */
  datatype Usage = Usage(replicas: multiset<string>, state: State, size: real)

  /** An object of the bucket listing. */
  datatype Object = Object(path: string, size: nat)

  type KeyFilter = (string, LocalState) -> bool

  const UNKNOWN_REPLICAS := "unknown_replicas"

  // ---------------------------------------------------------------- operators

  predicate SameKey(b: Blob, row: Row) {
    b.path == row.path && b.state == row.state
  }

  function NewBlob(row: Row): Blob {
    Blob(multiset{row.replica}, row.path, row.state, row.size, row.refCount)
  }

  /** A blob with one more row of its key. */
  function Merged(b: Blob, row: Row): Blob {
    Blob(b.replicas + multiset{row.replica}, b.path, b.state, b.size + row.size, b.refCount + row.refCount)
  }

  /** One row entering a `GROUP BY obj_path, state`. */
  function AddRow(blobs: seq<Blob>, row: Row): seq<Blob> {
    if blobs == [] then [NewBlob(row)]
    else if SameKey(blobs[0], row) then [Merged(blobs[0], row)] + blobs[1..]
    else [blobs[0]] + AddRow(blobs[1..], row)
  }

  function Aggregate(rows: seq<Row>): seq<Blob> {
    if rows == [] then [] else AddRow(Aggregate(rows[..|rows| - 1]), rows[|rows| - 1])
  }

  function WhereRows(rows: seq<Row>, keep: KeyFilter): seq<Row> {
    if rows == [] then []
    else
      var last := rows[|rows| - 1];
      WhereRows(rows[..|rows| - 1], keep) + if keep(last.path, last.state) then [last] else []
  }

  function WhereBlobs(blobs: seq<Blob>, keep: KeyFilter): seq<Blob> {
    if blobs == [] then []
    else (if keep(blobs[0].path, blobs[0].state) then [blobs[0]] else []) + WhereBlobs(blobs[1..], keep)
  }

  /** `sum_size / ref_count` */
  function Share(b: Blob): real {
    b.size as real / b.refCount as real
  }

  /** One blob entering a `GROUP BY replica`. */
  function AddShare(usages: seq<Usage>, b: Blob, state: State): seq<Usage> {
    if usages == [] then [Usage(b.replicas, state, Share(b))]
    else if usages[0].replicas == b.replicas then [usages[0].(size := usages[0].size + Share(b))] + usages[1..]
    else [usages[0]] + AddShare(usages[1..], b, state)
  }

  function GroupByReplicas(blobs: seq<Blob>, state: State): seq<Usage> {
    if blobs == [] then [] else AddShare(GroupByReplicas(blobs[..|blobs| - 1], state), blobs[|blobs| - 1], state)
  }

  function PathsOfRows(rows: seq<Row>, states: set<LocalState>): set<string> {
    set r | r in rows && r.state in states :: r.path
  }

  function PathsOfBlobs(blobs: seq<Blob>, states: set<LocalState>): set<string> {
    set b | b in blobs && b.state in states :: b.path
  }

  /** `WHERE state = s AND obj_path NOT IN (excluded)` */
  function InState(s: LocalState, excluded: set<string>): KeyFilter {
    (path, state) => state == s && path !in excluded
  }

  function TotalObjects(objects: seq<Object>): nat {
    if objects == [] then 0 else objects[0].size + TotalObjects(objects[1..])
  }

  function OrphanedRow(orphaned: seq<Object>): Usage {
    Usage(multiset{UNKNOWN_REPLICAS}, Orphaned, TotalObjects(orphaned) as real)
  }

  // ---------------------------------------------------------------- the two formulations

  /** Version 25.3 and later: aggregate once, then filter. */
  function CteQuery(rows: seq<Row>, orphaned: seq<Object>): seq<Usage> {
    var blobs := Aggregate(rows);
    GroupByReplicas(WhereBlobs(blobs, InState(Active, {})), ActiveData) +
    GroupByReplicas(WhereBlobs(blobs, InState(Shadow, PathsOfBlobs(blobs, {Active}))), UniqueFrozen) +
    GroupByReplicas(WhereBlobs(blobs, InState(Detached, PathsOfBlobs(blobs, {Active, Shadow}))), UniqueDetached) +
    [OrphanedRow(orphaned)]
  }

  /** Before: filter the rows, then aggregate, once for each state. */
  function LegacyQueries(rows: seq<Row>, orphaned: seq<Object>): seq<Usage> {
    GroupByReplicas(Aggregate(WhereRows(rows, InState(Active, {}))), ActiveData) +
    GroupByReplicas(Aggregate(WhereRows(rows, InState(Shadow, PathsOfRows(rows, {Active})))), UniqueFrozen) +
    GroupByReplicas(Aggregate(WhereRows(rows, InState(Detached, PathsOfRows(rows, {Active, Shadow})))), UniqueDetached) +
    [OrphanedRow(orphaned)]
  }

  lemma {:induction false} WhereCons(b: Blob, rest: seq<Blob>, keep: KeyFilter)
    ensures WhereBlobs([b] + rest, keep) == (if keep(b.path, b.state) then [b] else []) + WhereBlobs(rest, keep)
  {
    assert ([b] + rest)[1..] == rest;
  }

  lemma {:induction false} AddRowCons(b: Blob, rest: seq<Blob>, row: Row)
    requires !(b.path == row.path && b.state == row.state)
    ensures AddRow([b] + rest, row) == [b] + AddRow(rest, row)
  {
    assert ([b] + rest)[1..] == rest;
  }

  lemma {:induction false} WhereAddRow(blobs: seq<Blob>, row: Row, keep: KeyFilter)
    ensures WhereBlobs(AddRow(blobs, row), keep) ==
            if keep(row.path, row.state) then AddRow(WhereBlobs(blobs, keep), row) else WhereBlobs(blobs, keep)
  {
    if blobs == [] {
      var b := NewBlob(row);
      assert AddRow(blobs, row) == [b] + [];
      WhereCons(b, [], keep);
    } else {
      var b, rest := blobs[0], blobs[1..];
      var kept := WhereBlobs(rest, keep);
      assert blobs == [b] + rest;
      WhereCons(b, rest, keep);
      if b.path == row.path && b.state == row.state {
        var b1 := AddRow(blobs, row)[0];
        assert AddRow(blobs, row) == [b1] + rest;
        WhereCons(b1, rest, keep);
        if keep(b.path, b.state) {
          assert ([b] + kept)[1..] == kept;
        }
      } else {
        WhereAddRow(rest, row, keep);
        AddRowCons(b, rest, row);
        WhereCons(b, AddRow(rest, row), keep);
        if keep(b.path, b.state) {
          AddRowCons(b, kept, row);
        } else {
          assert WhereBlobs(blobs, keep) == kept;
        }
      }
    }
  }

  /** A filter on the grouping key commutes with the grouping. */
  lemma {:induction false} WhereCommutes(rows: seq<Row>, keep: KeyFilter)
    ensures WhereBlobs(Aggregate(rows), keep) == Aggregate(WhereRows(rows, keep))
  {
    if rows != [] {
      var front, last := rows[..|rows| - 1], rows[|rows| - 1];
      WhereCommutes(front, keep);
      WhereAddRow(Aggregate(front), last, keep);
      if keep(last.path, last.state) {
        var kept := WhereRows(front, keep) + [last];
        assert kept[..|kept| - 1] == WhereRows(front, keep);
      } else {
        assert WhereRows(rows, keep) == WhereRows(front, keep);
      }
    }
  }

  ghost predicate HasKey(blobs: seq<Blob>, path: string, state: LocalState) {
    exists i :: 0 <= i < |blobs| && blobs[i].path == path && blobs[i].state == state
  }

  lemma {:induction false} AddRowKeys(blobs: seq<Blob>, row: Row, path: string, state: LocalState)
    ensures HasKey(AddRow(blobs, row), path, state) <==>
            HasKey(blobs, path, state) || (row.path == path && row.state == state)
  {
    var added := AddRow(blobs, row);
    if blobs == [] {
      assert (row.path == path && row.state == state) ==> added[0].path == path;
    } else {
      KeySplit(blobs, path, state);
      KeySplit(added, path, state);
      if blobs[0].path == row.path && blobs[0].state == row.state {
        assert added[1..] == blobs[1..];
      } else {
        AddRowKeys(blobs[1..], row, path, state);
        assert added[1..] == AddRow(blobs[1..], row);
      }
    }
  }

  lemma KeySplit(blobs: seq<Blob>, path: string, state: LocalState)
    requires blobs != []
    ensures HasKey(blobs, path, state) <==>
            (blobs[0].path == path && blobs[0].state == state) || HasKey(blobs[1..], path, state)
  {
    if HasKey(blobs[1..], path, state) {
      var i :| 0 <= i < |blobs[1..]| && blobs[1..][i].path == path && blobs[1..][i].state == state;
      assert blobs[i + 1] == blobs[1..][i];
    }
    if HasKey(blobs, path, state) {
      var i :| 0 <= i < |blobs| && blobs[i].path == path && blobs[i].state == state;
      assert i > 0 ==> blobs[1..][i - 1] == blobs[i];
    }
  }

  ghost predicate HasRow(rows: seq<Row>, path: string, state: LocalState) {
    exists i :: 0 <= i < |rows| && rows[i].path == path && rows[i].state == state
  }

  lemma RowSplit(rows: seq<Row>, path: string, state: LocalState)
    requires rows != []
    ensures var n := |rows| - 1;
            HasRow(rows, path, state) <==>
              HasRow(rows[..n], path, state) || (rows[n].path == path && rows[n].state == state)
  {
    var n := |rows| - 1;
    if i :| 0 <= i < n && rows[..n][i].path == path && rows[..n][i].state == state {
      assert rows[i] == rows[..n][i];
    }
    if i :| 0 <= i < |rows| && rows[i].path == path && rows[i].state == state {
      assert i < n ==> rows[..n][i] == rows[i];
    }
  }

  lemma {:induction false} AggregateKeys(rows: seq<Row>, path: string, state: LocalState)
    ensures HasKey(Aggregate(rows), path, state) <==> HasRow(rows, path, state)
  {
    if rows != [] {
      var n := |rows| - 1;
      AggregateKeys(rows[..n], path, state);
      AddRowKeys(Aggregate(rows[..n]), rows[n], path, state);
      RowSplit(rows, path, state);
    }
  }

  /** The sub-selects name the same paths, whether they read the rows or the groups. */
  lemma {:induction false} SameSubselect(rows: seq<Row>, states: set<LocalState>)
    ensures PathsOfBlobs(Aggregate(rows), states) == PathsOfRows(rows, states)
  {
    var blobs := Aggregate(rows);
    forall path ensures path in PathsOfBlobs(blobs, states) <==> path in PathsOfRows(rows, states) {
      if path in PathsOfBlobs(blobs, states) {
        var b :| b in blobs && b.state in states && b.path == path;
        assert HasKey(blobs, path, b.state);
        AggregateKeys(rows, path, b.state);
        var i :| 0 <= i < |rows| && rows[i].path == path && rows[i].state == b.state;
        assert rows[i] in rows;
      }
      if path in PathsOfRows(rows, states) {
        var r :| r in rows && r.state in states && r.path == path;
        AggregateKeys(rows, path, r.state);
        var i :| 0 <= i < |blobs| && blobs[i].path == path && blobs[i].state == r.state;
        assert blobs[i] in blobs;
      }
    }
  }

  /** Whatever the local blobs, both formulations fill the table with the same rows. */
  lemma QueriesAgree(rows: seq<Row>, orphaned: seq<Object>)
    ensures CteQuery(rows, orphaned) == LegacyQueries(rows, orphaned)
  {
    SameSubselect(rows, {Active});
    SameSubselect(rows, {Active, Shadow});
    WhereCommutes(rows, InState(Active, {}));
    WhereCommutes(rows, InState(Shadow, PathsOfRows(rows, {Active})));
    WhereCommutes(rows, InState(Detached, PathsOfRows(rows, {Active, Shadow})));
  }
}
