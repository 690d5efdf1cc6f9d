/** The order in which the space-usage queries read their rows does not matter. */
module RowOrder {
  import opened Folds
  import opened SpaceUsage
  import opened UsageTotals

  // ---------------------------------------------------------------- grouping by path

  lemma {:induction false} AddRowHit(b: Blob, rest: seq<Blob>, row: Row)
    requires SameKey(b, row)
    ensures AddRow([b] + rest, row) == [Merged(b, row)] + rest
  {
    assert ([b] + rest)[1..] == rest;
  }

  lemma MergedSwaps(b: Blob, x: Row, y: Row)
    ensures Merged(Merged(b, x), y) == Merged(Merged(b, y), x)
  {
  }

  lemma {:induction false} SwapOnEmpty(x: Row, y: Row)
    ensures Same(AddRow([NewBlob(x)], y), AddRow([NewBlob(y)], x))
  {
    assert [NewBlob(x)] == [NewBlob(x)] + [] && [NewBlob(y)] == [NewBlob(y)] + [];
    if SameKey(NewBlob(x), y) {
      AddRowHit(NewBlob(x), [], y);
      AddRowHit(NewBlob(y), [], x);
      NewBlobsSwap(x, y);
    } else {
      AddRowCons(NewBlob(x), [], y);
      AddRowCons(NewBlob(y), [], x);
      PairSwaps(NewBlob(x), NewBlob(y));
    }
  }

  lemma NewBlobsSwap(x: Row, y: Row)
    requires SameKey(NewBlob(x), y)
    ensures Merged(NewBlob(x), y) == Merged(NewBlob(y), x)
  {
  }

  /** One row goes to the first blob, the other one past it. */
  lemma {:induction false} FirstThenRest(b: Blob, rest: seq<Blob>, x: Row, y: Row)
    requires SameKey(b, x) && !SameKey(b, y)
    ensures AddRow(AddRow([b] + rest, x), y) == AddRow(AddRow([b] + rest, y), x)
  {
    AddRowHit(b, rest, x);
    AddRowCons(Merged(b, x), rest, y);
    AddRowCons(b, rest, y);
    AddRowHit(b, AddRow(rest, y), x);
  }

  lemma {:induction false} BothToFirst(b: Blob, rest: seq<Blob>, x: Row, y: Row)
    requires SameKey(b, x) && SameKey(b, y)
    ensures AddRow(AddRow([b] + rest, x), y) == AddRow(AddRow([b] + rest, y), x)
  {
    AddRowHit(b, rest, x);
    AddRowHit(b, rest, y);
    AddRowHit(Merged(b, x), rest, y);
    AddRowHit(Merged(b, y), rest, x);
    MergedSwaps(b, x, y);
  }

  lemma {:induction false} BothPastFirst(b: Blob, rest: seq<Blob>, x: Row, y: Row)
    requires !SameKey(b, x) && !SameKey(b, y)
    ensures AddRow(AddRow([b] + rest, x), y) == [b] + AddRow(AddRow(rest, x), y)
  {
    AddRowCons(b, rest, x);
    AddRowCons(b, AddRow(rest, x), y);
  }

  /** Two rows may enter in either order. */
  lemma {:induction false} AddRowSwaps(blobs: seq<Blob>, x: Row, y: Row)
    ensures Same(AddRow(AddRow(blobs, x), y), AddRow(AddRow(blobs, y), x))
  {
    if blobs == [] {
      SwapOnEmpty(x, y);
    } else {
      var b, rest := blobs[0], blobs[1..];
      assert blobs == [b] + rest;
      if SameKey(b, x) && SameKey(b, y) {
        BothToFirst(b, rest, x, y);
      } else if SameKey(b, x) {
        FirstThenRest(b, rest, x, y);
      } else if SameKey(b, y) {
        FirstThenRest(b, rest, y, x);
      } else {
        AddRowSwaps(rest, x, y);
        BothPastFirst(b, rest, x, y);
        BothPastFirst(b, rest, y, x);
      }
    }
  }

  /** The table after a row has entered: the row's blob is new, or takes the place of the one with its key. */
  lemma {:induction false} AddRowNew(blobs: seq<Blob>, row: Row)
    requires !HasKey(blobs, row.path, row.state)
    ensures multiset(AddRow(blobs, row)) == multiset(blobs) + multiset{NewBlob(row)}
  {
    if blobs != [] {
      var b, rest := blobs[0], blobs[1..];
      assert blobs == [b] + rest;
      KeySplit(blobs, row.path, row.state);
      AddRowNew(rest, row);
      AddRowCons(b, rest, row);
    }
  }

  lemma {:induction false} AddRowReplaces(blobs: seq<Blob>, row: Row, former: Blob)
    requires DistinctKeys(blobs) && former in blobs && SameKey(former, row)
    ensures multiset(AddRow(blobs, row)) == multiset(blobs) - multiset{former} + multiset{Merged(former, row)}
  {
    var b, rest := blobs[0], blobs[1..];
    assert blobs == [b] + rest;
    if SameKey(b, row) {
      var i :| 0 <= i < |blobs| && blobs[i] == former;
      assert i == 0;
      AddRowHit(b, rest, row);
      ReplaceHead(former, rest, Merged(former, row));
    } else {
      AddRowReplaces(rest, row, former);
      AddRowCons(b, rest, row);
      ReplaceBehind(b, rest, AddRow(rest, row), former, Merged(former, row));
    }
  }

  /** With distinct keys the same rows make the same table, in whatever order they stand. */
  lemma {:induction false} AddRowKeepsSame(a: seq<Blob>, b: seq<Blob>, row: Row)
    requires DistinctKeys(a) && DistinctKeys(b) && Same(a, b)
    ensures Same(AddRow(a, row), AddRow(b, row))
  {
    if HasKey(a, row.path, row.state) {
      var i :| 0 <= i < |a| && a[i].path == row.path && a[i].state == row.state;
      InBoth(a, b, a[i]);
      AddRowReplaces(a, row, a[i]);
      AddRowReplaces(b, row, a[i]);
    } else {
      KeysOfSame(a, b, row);
      AddRowNew(a, row);
      AddRowNew(b, row);
    }
  }

  lemma KeysOfSame(a: seq<Blob>, b: seq<Blob>, row: Row)
    requires Same(a, b)
    ensures HasKey(b, row.path, row.state) ==> HasKey(a, row.path, row.state)
  {
    if j :| 0 <= j < |b| && b[j].path == row.path && b[j].state == row.state {
      InBoth(a, b, b[j]);
      var i :| 0 <= i < |a| && a[i] == b[j];
    }
  }

  lemma AddRowIsOrderless()
    ensures Orderless(AddRow, DistinctKeys)
  {
    forall a, x | DistinctKeys(a) ensures DistinctKeys(AddRow(a, x)) {
      AddRowDistinct(a, x);
    }
    forall a, x, y ensures Same(AddRow(AddRow(a, x), y), AddRow(AddRow(a, y), x)) {
      AddRowSwaps(a, x, y);
    }
    forall a, b, x | DistinctKeys(a) && DistinctKeys(b) && Same(a, b) ensures Same(AddRow(a, x), AddRow(b, x)) {
      AddRowKeepsSame(a, b, x);
    }
  }

  lemma {:induction false} AggregateIsFold(rows: seq<Row>)
    ensures Aggregate(rows) == Fold(AddRow, rows)
  {
    if rows != [] {
      AggregateIsFold(rows[..|rows| - 1]);
    }
  }

  lemma {:induction false} AggregateOfPermutation(rows: seq<Row>, other: seq<Row>)
    requires Same(rows, other)
    ensures Same(Aggregate(rows), Aggregate(other))
  {
    AddRowIsOrderless();
    FoldOfPermutation(AddRow, DistinctKeys, rows, other);
    AggregateIsFold(rows);
    AggregateIsFold(other);
  }

  // ---------------------------------------------------------------- grouping by replicas

  ghost predicate HasReplicas(usages: seq<Usage>, replicas: multiset<string>) {
    exists i :: 0 <= i < |usages| && usages[i].replicas == replicas
  }

  ghost predicate DistinctReplicas(usages: seq<Usage>) {
    forall i, j :: 0 <= i < j < |usages| ==> usages[i].replicas != usages[j].replicas
  }

  function Grown(u: Usage, b: Blob): Usage {
    u.(size := u.size + Share(b))
  }

  lemma {:induction false} ShareMiss(u: Usage, rest: seq<Usage>, b: Blob, state: State)
    requires u.replicas != b.replicas
    ensures AddShare([u] + rest, b, state) == [u] + AddShare(rest, b, state)
  {
    assert ([u] + rest)[1..] == rest;
  }

  lemma {:induction false} ShareHit(u: Usage, rest: seq<Usage>, b: Blob, state: State)
    requires u.replicas == b.replicas
    ensures AddShare([u] + rest, b, state) == [Grown(u, b)] + rest
  {
    assert ([u] + rest)[1..] == rest;
  }

  lemma {:induction false} AddShareReplicas(usages: seq<Usage>, b: Blob, state: State, replicas: multiset<string>)
    ensures HasReplicas(AddShare(usages, b, state), replicas) <==>
              HasReplicas(usages, replicas) || b.replicas == replicas
  {
    if usages == [] {
      assert AddShare(usages, b, state)[0].replicas == b.replicas;
    } else {
      var u, rest := usages[0], usages[1..];
      assert usages == [u] + rest;
      ReplicasSplit(u, rest, replicas);
      if u.replicas == b.replicas {
        ShareHit(u, rest, b, state);
        ReplicasSplit(Grown(u, b), rest, replicas);
      } else {
        ShareMiss(u, rest, b, state);
        AddShareReplicas(rest, b, state, replicas);
        ReplicasSplit(u, AddShare(rest, b, state), replicas);
      }
    }
  }

  lemma ReplicasSplit(u: Usage, rest: seq<Usage>, replicas: multiset<string>)
    ensures HasReplicas([u] + rest, replicas) <==> u.replicas == replicas || HasReplicas(rest, replicas)
  {
    var all := [u] + rest;
    if i :| 0 <= i < |rest| && rest[i].replicas == replicas {
      assert all[i + 1] == rest[i];
    }
    if u.replicas == replicas {
      assert all[0] == u;
    }
    if i :| 0 <= i < |all| && all[i].replicas == replicas {
      assert i > 0 ==> rest[i - 1] == all[i];
    }
  }

  lemma {:induction false} AddShareDistinct(usages: seq<Usage>, b: Blob, state: State)
    requires DistinctReplicas(usages)
    ensures DistinctReplicas(AddShare(usages, b, state))
  {
    if usages != [] {
      var u, rest := usages[0], usages[1..];
      assert usages == [u] + rest;
      if u.replicas == b.replicas {
        ShareHit(u, rest, b, state);
      } else {
        ShareMiss(u, rest, b, state);
        AddShareDistinct(rest, b, state);
        AddShareReplicas(rest, b, state, u.replicas);
        var added := AddShare(rest, b, state);
        assert !HasReplicas(rest, u.replicas);
        forall j | 0 <= j < |added| ensures added[j].replicas != u.replicas {
        }
      }
    }
  }

  lemma {:induction false} AddShareSwaps(usages: seq<Usage>, x: Blob, y: Blob, state: State)
    ensures Same(AddShare(AddShare(usages, x, state), y, state), AddShare(AddShare(usages, y, state), x, state))
  {
    if usages == [] {
      SharesOnEmpty(x, y, state);
    } else {
      var u, rest := usages[0], usages[1..];
      assert usages == [u] + rest;
      if u.replicas == x.replicas && u.replicas == y.replicas {
        BothSharesToFirst(u, rest, x, y, state);
      } else if u.replicas == x.replicas {
        FirstShareThenRest(u, rest, x, y, state);
      } else if u.replicas == y.replicas {
        FirstShareThenRest(u, rest, y, x, state);
      } else {
        AddShareSwaps(rest, x, y, state);
        BothSharesPastFirst(u, rest, x, y, state);
      }
    }
  }

  lemma {:induction false} SharesOnEmpty(x: Blob, y: Blob, state: State)
    ensures Same(AddShare(AddShare([], x, state), y, state), AddShare(AddShare([], y, state), x, state))
  {
    var u, w := Usage(x.replicas, state, Share(x)), Usage(y.replicas, state, Share(y));
    assert [u] == [u] + [] && [w] == [w] + [];
    if x.replicas == y.replicas {
      ShareHit(u, [], y, state);
      ShareHit(w, [], x, state);
      assert Grown(u, y) == Grown(w, x);
    } else {
      ShareMiss(u, [], y, state);
      ShareMiss(w, [], x, state);
      assert multiset([u] + [w]) == multiset([w] + [u]);
    }
  }

  lemma {:induction false} BothSharesToFirst(u: Usage, rest: seq<Usage>, x: Blob, y: Blob, state: State)
    requires u.replicas == x.replicas && u.replicas == y.replicas
    ensures AddShare(AddShare([u] + rest, x, state), y, state) == AddShare(AddShare([u] + rest, y, state), x, state)
  {
    ShareHit(u, rest, x, state);
    ShareHit(u, rest, y, state);
    ShareHit(Grown(u, x), rest, y, state);
    ShareHit(Grown(u, y), rest, x, state);
    assert Grown(Grown(u, x), y) == Grown(Grown(u, y), x);
  }

  lemma {:induction false} FirstShareThenRest(u: Usage, rest: seq<Usage>, x: Blob, y: Blob, state: State)
    requires u.replicas == x.replicas && u.replicas != y.replicas
    ensures AddShare(AddShare([u] + rest, x, state), y, state) == AddShare(AddShare([u] + rest, y, state), x, state)
  {
    ShareHit(u, rest, x, state);
    ShareMiss(Grown(u, x), rest, y, state);
    ShareMiss(u, rest, y, state);
    ShareHit(u, AddShare(rest, y, state), x, state);
  }

  lemma {:induction false} BothSharesPastFirst(u: Usage, rest: seq<Usage>, x: Blob, y: Blob, state: State)
    requires u.replicas != x.replicas && u.replicas != y.replicas
    requires Same(AddShare(AddShare(rest, x, state), y, state), AddShare(AddShare(rest, y, state), x, state))
    ensures Same(AddShare(AddShare([u] + rest, x, state), y, state), AddShare(AddShare([u] + rest, y, state), x, state))
  {
    ShareMiss(u, rest, x, state);
    ShareMiss(u, rest, y, state);
    ShareMiss(u, AddShare(rest, x, state), y, state);
    ShareMiss(u, AddShare(rest, y, state), x, state);
  }

  lemma {:induction false} AddShareNew(usages: seq<Usage>, b: Blob, state: State)
    requires !HasReplicas(usages, b.replicas)
    ensures multiset(AddShare(usages, b, state)) == multiset(usages) + multiset{Usage(b.replicas, state, Share(b))}
  {
    if usages != [] {
      var u, rest := usages[0], usages[1..];
      assert usages == [u] + rest;
      ReplicasSplit(u, rest, b.replicas);
      AddShareNew(rest, b, state);
      ShareMiss(u, rest, b, state);
    }
  }

  lemma {:induction false} AddShareReplaces(usages: seq<Usage>, b: Blob, state: State, former: Usage)
    requires DistinctReplicas(usages) && former in usages && former.replicas == b.replicas
    ensures multiset(AddShare(usages, b, state)) == multiset(usages) - multiset{former} + multiset{Grown(former, b)}
  {
    var u, rest := usages[0], usages[1..];
    assert usages == [u] + rest;
    if u.replicas == b.replicas {
      var i :| 0 <= i < |usages| && usages[i] == former;
      assert i == 0;
      ShareHit(u, rest, b, state);
      ReplaceHead(former, rest, Grown(former, b));
    } else {
      AddShareReplaces(rest, b, state, former);
      ShareMiss(u, rest, b, state);
      ReplaceBehind(u, rest, AddShare(rest, b, state), former, Grown(former, b));
    }
  }

  lemma {:induction false} AddShareKeepsSame(s: seq<Usage>, t: seq<Usage>, b: Blob, state: State)
    requires DistinctReplicas(s) && DistinctReplicas(t) && Same(s, t)
    ensures Same(AddShare(s, b, state), AddShare(t, b, state))
  {
    if HasReplicas(s, b.replicas) {
      var i :| 0 <= i < |s| && s[i].replicas == b.replicas;
      InBoth(s, t, s[i]);
      AddShareReplaces(s, b, state, s[i]);
      AddShareReplaces(t, b, state, s[i]);
    } else {
      ReplicasOfSame(s, t, b.replicas);
      AddShareNew(s, b, state);
      AddShareNew(t, b, state);
    }
  }

  lemma ReplicasOfSame(s: seq<Usage>, t: seq<Usage>, replicas: multiset<string>)
    requires Same(s, t)
    ensures HasReplicas(t, replicas) ==> HasReplicas(s, replicas)
  {
    if j :| 0 <= j < |t| && t[j].replicas == replicas {
      InBoth(s, t, t[j]);
      var i :| 0 <= i < |s| && s[i] == t[j];
    }
  }

  function Sharing(state: State): (seq<Usage>, Blob) -> seq<Usage> {
    (usages: seq<Usage>, b: Blob) => AddShare(usages, b, state)
  }

  lemma SharingIsOrderless(state: State)
    ensures Orderless(Sharing(state), DistinctReplicas)
  {
    var step := Sharing(state);
    forall a, x | DistinctReplicas(a) ensures DistinctReplicas(step(a, x)) {
      AddShareDistinct(a, x, state);
    }
    forall a, x, y ensures Same(step(step(a, x), y), step(step(a, y), x)) {
      AddShareSwaps(a, x, y, state);
    }
    forall a, b, x | DistinctReplicas(a) && DistinctReplicas(b) && Same(a, b) ensures Same(step(a, x), step(b, x)) {
      AddShareKeepsSame(a, b, x, state);
    }
  }

  lemma {:induction false} GroupIsFold(blobs: seq<Blob>, state: State)
    ensures GroupByReplicas(blobs, state) == Fold(Sharing(state), blobs)
  {
    if blobs != [] {
      GroupIsFold(blobs[..|blobs| - 1], state);
    }
  }

  lemma {:induction false} GroupOfPermutation(blobs: seq<Blob>, other: seq<Blob>, state: State)
    requires Same(blobs, other)
    ensures Same(GroupByReplicas(blobs, state), GroupByReplicas(other, state))
  {
    SharingIsOrderless(state);
    FoldOfPermutation(Sharing(state), DistinctReplicas, blobs, other);
    GroupIsFold(blobs, state);
    GroupIsFold(other, state);
  }

  // ---------------------------------------------------------------- separate scans in any order

  function Filtering(keep: KeyFilter): (seq<Row>, Row) -> seq<Row> {
    (rows: seq<Row>, row: Row) => rows + if keep(row.path, row.state) then [row] else []
  }

  lemma FilteringIsOrderless(keep: KeyFilter)
    ensures Orderless(Filtering(keep), (rows: seq<Row>) => true)
  {
  }

  lemma {:induction false} WhereIsFold(rows: seq<Row>, keep: KeyFilter)
    ensures WhereRows(rows, keep) == Fold(Filtering(keep), rows)
  {
    if rows != [] {
      WhereIsFold(rows[..|rows| - 1], keep);
    }
  }

  lemma {:induction false} WhereOfPermutation(rows: seq<Row>, other: seq<Row>, keep: KeyFilter)
    requires Same(rows, other)
    ensures Same(WhereRows(rows, keep), WhereRows(other, keep))
  {
    FilteringIsOrderless(keep);
    FoldOfPermutation(Filtering(keep), (rows: seq<Row>) => true, rows, other);
    WhereIsFold(rows, keep);
    WhereIsFold(other, keep);
  }

  lemma PathsOfPermutation(rows: seq<Row>, other: seq<Row>, states: set<LocalState>)
    requires Same(rows, other)
    ensures PathsOfRows(rows, states) == PathsOfRows(other, states)
  {
    forall r ensures r in rows <==> r in other {
      InBoth(rows, other, r);
    }
  }

  /** One of the four queries, on the order in which it reads the rows. */
  lemma {:induction false} LegacyOfPermutation(rows: seq<Row>, other: seq<Row>, keep: KeyFilter, state: State)
    requires Same(rows, other)
    ensures Same(GroupByReplicas(Aggregate(WhereRows(rows, keep)), state),
                 GroupByReplicas(Aggregate(WhereRows(other, keep)), state))
  {
    WhereOfPermutation(rows, other, keep);
    AggregateOfPermutation(WhereRows(rows, keep), WhereRows(other, keep));
    GroupOfPermutation(Aggregate(WhereRows(rows, keep)), Aggregate(WhereRows(other, keep)), state);
  }

  lemma {:induction false} TotalConcatenated(a: seq<Object>, b: seq<Object>)
    ensures TotalObjects(a + b) == TotalObjects(a) + TotalObjects(b)
  {
    if a == [] {
      assert a + b == b;
    } else {
      assert (a + b)[1..] == a[1..] + b;
      TotalConcatenated(a[1..], b);
    }
  }

  lemma {:induction false} TotalOfPermutation(a: seq<Object>, b: seq<Object>)
    requires Same(a, b)
    ensures TotalObjects(a) == TotalObjects(b)
  {
    if a == [] {
      assert |multiset(b)| == 0;
    } else {
      var x, rest := a[0], a[1..];
      assert a == [x] + rest;
      var front, back := Around(b, x);
      CancelOne(multiset(rest), multiset(front + back), x);
      TotalOfPermutation(rest, front + back);
      TotalAround(front, x, back);
    }
  }

  lemma {:induction false} TotalAround(a: seq<Object>, x: Object, b: seq<Object>)
    ensures TotalObjects(a + [x] + b) == x.size + TotalObjects(a + b)
  {
    TotalConcatenated(a + [x], b);
    TotalConcatenated(a, [x]);
    TotalConcatenated(a, b);
    assert TotalObjects([x]) == x.size;
  }

  /** How the table of local blobs is read: once for each of the three selections and for each sub-select. */
  datatype Scans = Scans(
    active: seq<Row>, frozen: seq<Row>, frozenNot: seq<Row>, detached: seq<Row>, detachedNot: seq<Row>)
  {
    /** All of them read the same rows, each in an order of its own. */
    ghost predicate Of(rows: seq<Row>) {
      && Same(active, rows) && Same(frozen, rows) && Same(frozenNot, rows)
      && Same(detached, rows) && Same(detachedNot, rows)
    }
  }

  function LegacyOverScans(scans: Scans, orphaned: seq<Object>): seq<Usage> {
    GroupByReplicas(Aggregate(WhereRows(scans.active, InState(Active, {}))), ActiveData) +
    GroupByReplicas(Aggregate(WhereRows(scans.frozen, InState(Shadow, PathsOfRows(scans.frozenNot, {Active})))), UniqueFrozen) +
    GroupByReplicas(
      Aggregate(WhereRows(scans.detached, InState(Detached, PathsOfRows(scans.detachedNot, {Active, Shadow})))), UniqueDetached) +
    [OrphanedRow(orphaned)]
  }

  /** The single query, with its common table expression evaluated anew for each reference to it. */
  function CteOverScans(scans: Scans, orphaned: seq<Object>): seq<Usage> {
    GroupByReplicas(WhereBlobs(Aggregate(scans.active), InState(Active, {})), ActiveData) +
    GroupByReplicas(
      WhereBlobs(Aggregate(scans.frozen), InState(Shadow, PathsOfBlobs(Aggregate(scans.frozenNot), {Active}))), UniqueFrozen) +
    GroupByReplicas(
      WhereBlobs(Aggregate(scans.detached), InState(Detached, PathsOfBlobs(Aggregate(scans.detachedNot), {Active, Shadow}))),
      UniqueDetached) +
    [OrphanedRow(orphaned)]
  }

  /** On the same scans both formulations give the same list of rows. */
  lemma CteIsLegacy(scans: Scans, orphaned: seq<Object>)
    ensures CteOverScans(scans, orphaned) == LegacyOverScans(scans, orphaned)
  {
    SameSubselect(scans.frozenNot, {Active});
    SameSubselect(scans.detachedNot, {Active, Shadow});
    WhereCommutes(scans.active, InState(Active, {}));
    WhereCommutes(scans.frozen, InState(Shadow, PathsOfRows(scans.frozenNot, {Active})));
    WhereCommutes(scans.detached, InState(Detached, PathsOfRows(scans.detachedNot, {Active, Shadow})));
  }

  /** The legacy queries give the rows of a single scan, in whatever orders they read it. */
  lemma LegacyInAnyOrder(rows: seq<Row>, scans: Scans, orphaned: seq<Object>, others: seq<Object>)
    requires scans.Of(rows) && Same(orphaned, others)
    ensures Same(LegacyQueries(rows, orphaned), LegacyOverScans(scans, others))
  {
    TotalOfPermutation(orphaned, others);
    PathsOfPermutation(scans.frozenNot, rows, {Active});
    PathsOfPermutation(scans.detachedNot, rows, {Active, Shadow});
    LegacyOfPermutation(rows, scans.active, InState(Active, {}), ActiveData);
    LegacyOfPermutation(rows, scans.frozen, InState(Shadow, PathsOfRows(rows, {Active})), UniqueFrozen);
    LegacyOfPermutation(rows, scans.detached, InState(Detached, PathsOfRows(rows, {Active, Shadow})), UniqueDetached);
  }

  /** For every multiset of local blobs, in whatever orders either side reads it, both formulations give the same rows. */
  lemma QueriesAgreeInAnyOrder(
    rows: seq<Row>, cte: Scans, legacy: Scans, objects: seq<Object>, orphaned: seq<Object>, others: seq<Object>)
    requires cte.Of(rows) && legacy.Of(rows) && Same(objects, orphaned) && Same(objects, others)
    ensures Same(CteOverScans(cte, orphaned), LegacyOverScans(legacy, others))
  {
    CteIsLegacy(cte, orphaned);
    LegacyInAnyOrder(rows, cte, objects, orphaned);
    LegacyInAnyOrder(rows, legacy, objects, others);
  }
}
