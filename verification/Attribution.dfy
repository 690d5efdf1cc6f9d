/** To whom the space-usage statistics attribute the bytes, said over the rows of the local blobs. */
module Attribution {
  import opened RowOrder
  import opened SpaceUsage
  import opened UsageTotals

  // ---------------------------------------------------------------- the rows of a path in a state

  /** The replicas that have the path in the state, one occurrence for each row. */
  ghost function ReplicasOf(rows: seq<Row>, path: string, state: LocalState): multiset<string> {
    if rows == [] then multiset{}
    else
      var n := |rows| - 1;
      ReplicasOf(rows[..n], path, state) +
      if rows[n].path == path && rows[n].state == state then multiset{rows[n].replica} else multiset{}
  }

  ghost function SummedSize(rows: seq<Row>, path: string, state: LocalState): nat {
    if rows == [] then 0
    else
      var n := |rows| - 1;
      SummedSize(rows[..n], path, state) + if rows[n].path == path && rows[n].state == state then rows[n].size else 0
  }

  ghost function SummedCount(rows: seq<Row>, path: string, state: LocalState): nat {
    if rows == [] then 0
    else
      var n := |rows| - 1;
      SummedCount(rows[..n], path, state) + if rows[n].path == path && rows[n].state == state then rows[n].refCount else 0
  }

  lemma {:induction false} NothingWithoutRow(rows: seq<Row>, path: string, state: LocalState)
    requires !HasRow(rows, path, state)
    ensures ReplicasOf(rows, path, state) == multiset{}
    ensures SummedSize(rows, path, state) == 0 && SummedCount(rows, path, state) == 0
  {
    if rows != [] {
      RowSplit(rows, path, state);
      NothingWithoutRow(rows[..|rows| - 1], path, state);
    }
  }

  // ---------------------------------------------------------------- grouping by path

  ghost predicate Summarises(b: Blob, rows: seq<Row>) {
    && HasRow(rows, b.path, b.state)
    && b.replicas == ReplicasOf(rows, b.path, b.state)
    && b.size == SummedSize(rows, b.path, b.state)
    && b.refCount == SummedCount(rows, b.path, b.state)
  }

  /** A group after a row has entered: untouched, one row richer, or new. */
  lemma {:induction false} AddRowAt(blobs: seq<Blob>, row: Row, b: Blob)
    requires DistinctKeys(blobs) && b in AddRow(blobs, row)
    ensures || (b in blobs && !(b.path == row.path && b.state == row.state))
            || (b == Blob(multiset{row.replica}, row.path, row.state, row.size, row.refCount) &&
                !HasKey(blobs, row.path, row.state))
            || exists former :: former in blobs && former.path == row.path && former.state == row.state &&
                 b == Blob(former.replicas + multiset{row.replica}, row.path, row.state,
                           former.size + row.size, former.refCount + row.refCount)
  {
    if blobs != [] {
      var first, rest := blobs[0], blobs[1..];
      assert blobs == [first] + rest;
      if first.path == row.path && first.state == row.state {
        if b in rest {
          FirstKeyIsNew(blobs, b);
        } else {
          assert first in blobs;
        }
      } else {
        KeySplit(blobs, row.path, row.state);
        if b != first {
          AddRowAt(rest, row, b);
        }
      }
    }
  }

  /**
   * Grouping by path and state: one group for each path and state that has a row, with the replicas of these rows,
   * their summed size and their summed count.
   */
  lemma {:induction false} GroupsAreExact(rows: seq<Row>)
    ensures var blobs := Aggregate(rows);
            && (forall b :: b in blobs ==> Summarises(b, rows))
            && (forall path, state :: HasKey(blobs, path, state) <==> HasRow(rows, path, state))
            && forall i, j :: 0 <= i < j < |blobs| ==> !(blobs[i].path == blobs[j].path && blobs[i].state == blobs[j].state)
  {
    var blobs := Aggregate(rows);
    AggregateDistinct(rows);
    forall path, state ensures HasRow(rows, path, state) <==> HasKey(blobs, path, state) {
      AggregateKeys(rows, path, state);
    }
    if rows != [] {
      var n := |rows| - 1;
      GroupsAreExact(rows[..n]);
      AggregateDistinct(rows[..n]);
      forall b | b in blobs ensures Summarises(b, rows) {
        RowSplit(rows, b.path, b.state);
        AddRowAt(Aggregate(rows[..n]), rows[n], b);
        if !HasKey(Aggregate(rows[..n]), rows[n].path, rows[n].state) {
          AggregateKeys(rows[..n], rows[n].path, rows[n].state);
          NothingWithoutRow(rows[..n], rows[n].path, rows[n].state);
        }
      }
    }
  }

  // ---------------------------------------------------------------- grouping by replicas

  /** What the groups of these replicas weigh together. */
  ghost function SharesOf(blobs: seq<Blob>, replicas: multiset<string>): real {
    if blobs == [] then 0.0
    else
      var b := blobs[|blobs| - 1];
      SharesOf(blobs[..|blobs| - 1], replicas) + if b.replicas == replicas then b.size as real / b.refCount as real else 0.0
  }

  lemma {:induction false} NoSharesWithout(blobs: seq<Blob>, replicas: multiset<string>)
    requires forall b :: b in blobs ==> b.replicas != replicas
    ensures SharesOf(blobs, replicas) == 0.0
  {
    if blobs != [] {
      NoSharesWithout(blobs[..|blobs| - 1], replicas);
    }
  }

  lemma {:induction false} AddShareAt(usages: seq<Usage>, b: Blob, state: State, u: Usage)
    requires DistinctReplicas(usages) && u in AddShare(usages, b, state)
    ensures || (u in usages && u.replicas != b.replicas)
            || (u == Usage(b.replicas, state, b.size as real / b.refCount as real) && !HasReplicas(usages, b.replicas))
            || exists former :: former in usages && former.replicas == b.replicas &&
                 u == Usage(b.replicas, former.state, former.size + b.size as real / b.refCount as real)
  {
    if usages != [] {
      var first, rest := usages[0], usages[1..];
      assert usages == [first] + rest;
      if first.replicas == b.replicas {
        ShareHit(first, rest, b, state);
        if u in rest {
          var i :| 0 <= i < |rest| && rest[i] == u;
          assert usages[i + 1] == u;
        } else {
          assert first in usages;
        }
      } else {
        ShareMiss(first, rest, b, state);
        ReplicasSplit(first, rest, b.replicas);
        if u != first {
          AddShareAt(rest, b, state, u);
        }
      }
    }
  }

  /** Grouping by replicas: one row for each multiset that some group has, with what these groups weigh. */
  lemma {:induction false} UsagesAreExact(blobs: seq<Blob>, own: State)
    ensures var usages := GroupByReplicas(blobs, own);
            && DistinctReplicas(usages)
            && (forall u :: u in usages ==> u.state == own && u.size == SharesOf(blobs, u.replicas))
            && forall m :: HasReplicas(usages, m) <==> exists b :: b in blobs && b.replicas == m
  {
    if blobs != [] {
      var front, last := blobs[..|blobs| - 1], blobs[|blobs| - 1];
      var former, usages := GroupByReplicas(front, own), GroupByReplicas(blobs, own);
      UsagesAreExact(front, own);
      AddShareDistinct(former, last, own);
      assert blobs == front + [last];
      forall m ensures HasReplicas(usages, m) <==> exists b :: b in blobs && b.replicas == m {
        AddShareReplicas(former, last, own, m);
        assert last in blobs;
      }
      forall u | u in usages ensures u.state == own && u.size == SharesOf(blobs, u.replicas) {
        AddShareAt(former, last, own, u);
        if !HasReplicas(former, last.replicas) {
          NoSharesWithout(front, last.replicas);
        }
      }
    }
  }

  // ---------------------------------------------------------------- the statistics

  function Local(state: State): LocalState
    requires state != Orphaned
  {
    match state
    case ActiveData => Active
    case UniqueFrozen => Shadow
    case UniqueDetached => Detached
  }

  /** The state a path counts under: active data before frozen data, and that before detached data. */
  ghost predicate CountsUnder(rows: seq<Row>, path: string, state: State) {
    match state
    case ActiveData => HasRow(rows, path, Active)
    case UniqueFrozen => HasRow(rows, path, Shadow) && !HasRow(rows, path, Active)
    case UniqueDetached => HasRow(rows, path, Detached) && !HasRow(rows, path, Active) && !HasRow(rows, path, Shadow)
    case Orphaned => false
  }

  /** The paths counted under the state that these replicas have. */
  ghost function HeldBy(rows: seq<Row>, state: State, replicas: multiset<string>): set<string>
    requires state != Orphaned
  {
    set r | r in rows && CountsUnder(rows, r.path, state) && ReplicasOf(rows, r.path, Local(state)) == replicas :: r.path
  }

  /** The summed size of a path over its summed count. */
  ghost function Weighing(rows: seq<Row>, state: LocalState): string -> real {
    path => var count := SummedCount(rows, path, state);
            if count == 0 then 0.0 else SummedSize(rows, path, state) as real / count as real
  }

  ghost function SumOver(paths: set<string>, weight: string -> real): real {
    if paths == {} then 0.0
    else
      var p :| p in paths;
      weight(p) + SumOver(paths - {p}, weight)
  }

  lemma {:induction false} SumOverRemove(paths: set<string>, weight: string -> real, q: string)
    requires q in paths
    ensures SumOver(paths, weight) == weight(q) + SumOver(paths - {q}, weight)
  {
    var p :| p in paths && SumOver(paths, weight) == weight(p) + SumOver(paths - {p}, weight);
    if p != q {
      SumOverRemove(paths - {p}, weight, q);
      SumOverRemove(paths - {q}, weight, p);
      assert paths - {p} - {q} == paths - {q} - {p};
    }
  }

  ghost function PathsWith(blobs: seq<Blob>, replicas: multiset<string>): set<string> {
    set b | b in blobs && b.replicas == replicas :: b.path
  }

  lemma PathsWithLast(blobs: seq<Blob>, replicas: multiset<string>)
    requires blobs != [] && DistinctPaths(blobs)
    ensures var front, last := blobs[..|blobs| - 1], blobs[|blobs| - 1];
            && (last.replicas != replicas ==> PathsWith(blobs, replicas) == PathsWith(front, replicas))
            && (last.replicas == replicas ==>
                  last.path in PathsWith(blobs, replicas) &&
                  PathsWith(blobs, replicas) - {last.path} == PathsWith(front, replicas))
  {
    var n := |blobs| - 1;
    var front, last := blobs[..n], blobs[n];
    assert blobs == front + [last] && last in blobs;
    forall b | b in front ensures b.path != last.path {
      var i :| 0 <= i < n && blobs[i] == b;
    }
  }

  /** What groups of distinct paths weigh, said over the rows. */
  lemma {:induction false} SharesOverRows(rows: seq<Row>, blobs: seq<Blob>, state: LocalState, replicas: multiset<string>)
    requires DistinctPaths(blobs) && forall b :: b in blobs ==> Summarises(b, rows) && b.state == state
    ensures SharesOf(blobs, replicas) == SumOver(PathsWith(blobs, replicas), Weighing(rows, state))
  {
    if blobs != [] {
      var front, last := blobs[..|blobs| - 1], blobs[|blobs| - 1];
      SharesOverRows(rows, front, state, replicas);
      PathsWithLast(blobs, replicas);
      if last.replicas == replicas {
        assert Summarises(last, rows) && last.state == state;
        assert Weighing(rows, state)(last.path) == last.size as real / last.refCount as real;
        SumOverRemove(PathsWith(blobs, replicas), Weighing(rows, state), last.path);
      }
    }
  }

  /** What a query excludes: paths with rows of the states ahead of its own. */
  ghost predicate Excludes(rows: seq<Row>, state: State, excluded: set<string>)
    requires state != Orphaned
  {
    forall path :: HasRow(rows, path, Local(state)) ==> (path !in excluded <==> CountsUnder(rows, path, state))
  }

  lemma PathHasRow(rows: seq<Row>, states: set<LocalState>, path: string)
    ensures path in PathsOfRows(rows, states) <==> exists state :: state in states && HasRow(rows, path, state)
  {
    if r :| r in rows && r.state in states && r.path == path {
      assert HasRow(rows, path, r.state);
    }
    if state :| state in states && HasRow(rows, path, state) {
      var i :| 0 <= i < |rows| && rows[i].path == path && rows[i].state == state;
      assert rows[i] in rows;
    }
  }

  /** The groups that one query selects. */
  ghost function SelectedFor(rows: seq<Row>, state: State, excluded: set<string>): seq<Blob>
    requires state != Orphaned
  {
    WhereBlobs(Aggregate(rows), InState(Local(state), excluded))
  }

  lemma {:induction false} SelectedMeans(rows: seq<Row>, state: State, excluded: set<string>)
    requires state != Orphaned && Excludes(rows, state, excluded)
    ensures var kept := SelectedFor(rows, state, excluded);
            && DistinctPaths(kept)
            && (forall b :: b in kept ==> Summarises(b, rows) && b.state == Local(state) && CountsUnder(rows, b.path, state))
            && forall path :: CountsUnder(rows, path, state) ==> exists b :: b in kept && b.path == path
  {
    var blobs := Aggregate(rows);
    GroupsAreExact(rows);
    AggregateDistinct(rows);
    WhereInState(blobs, Local(state), excluded);
    WhereMembers(blobs, InState(Local(state), excluded));
    forall path | CountsUnder(rows, path, state)
      ensures exists b :: b in SelectedFor(rows, state, excluded) && b.path == path
    {
      assert HasKey(blobs, path, Local(state));
      var i :| 0 <= i < |blobs| && blobs[i].path == path && blobs[i].state == Local(state);
      assert blobs[i] in SelectedFor(rows, state, excluded);
    }
  }

  lemma {:induction false} PathsAreHeld(rows: seq<Row>, state: State, excluded: set<string>, replicas: multiset<string>)
    requires state != Orphaned && Excludes(rows, state, excluded)
    ensures PathsWith(SelectedFor(rows, state, excluded), replicas) == HeldBy(rows, state, replicas)
  {
    var kept := SelectedFor(rows, state, excluded);
    SelectedMeans(rows, state, excluded);
    forall path ensures path in PathsWith(kept, replicas) <==> path in HeldBy(rows, state, replicas) {
      if path in HeldBy(rows, state, replicas) {
        var b :| b in kept && b.path == path;
      }
      if path in PathsWith(kept, replicas) {
        var b :| b in kept && b.replicas == replicas && b.path == path;
        var i :| 0 <= i < |rows| && rows[i].path == path && rows[i].state == Local(state);
        assert rows[i] in rows;
      }
    }
  }

  /**
   * The rows of a state: one for each multiset of replicas that a path counted under it has, with the sum, over these
   * paths, of the summed size over the summed count.
   */
  ghost predicate Attributes(usages: seq<Usage>, rows: seq<Row>, state: State)
    requires state != Orphaned
  {
    && (forall u :: u in usages && u.state == state ==>
          HeldBy(rows, state, u.replicas) != {} &&
          u.size == SumOver(HeldBy(rows, state, u.replicas), Weighing(rows, Local(state))))
    && forall m :: HeldBy(rows, state, m) != {} ==> exists u :: u in usages && u.state == state && u.replicas == m
  }

  /** No two rows of a table agree in state and replicas. */
  ghost predicate DistinctRows(usages: seq<Usage>) {
    forall i, j :: 0 <= i < j < |usages| ==> !(usages[i].state == usages[j].state && usages[i].replicas == usages[j].replicas)
  }

  ghost predicate Only(usages: seq<Usage>, states: set<State>) {
    forall u :: u in usages ==> u.state in states
  }

  lemma {:induction false} QueryAttributes(rows: seq<Row>, state: State, excluded: set<string>)
    requires state != Orphaned && Excludes(rows, state, excluded)
    ensures var usages := GroupByReplicas(SelectedFor(rows, state, excluded), state);
            Attributes(usages, rows, state) && DistinctRows(usages) && Only(usages, {state})
  {
    var kept := SelectedFor(rows, state, excluded);
    var usages := GroupByReplicas(kept, state);
    SelectedMeans(rows, state, excluded);
    UsagesAreExact(kept, state);
    forall u | u in usages
      ensures HeldBy(rows, state, u.replicas) != {}
      ensures u.size == SumOver(HeldBy(rows, state, u.replicas), Weighing(rows, Local(state)))
    {
      assert HasReplicas(usages, u.replicas);
      var b :| b in kept && b.replicas == u.replicas;
      assert b.path in PathsWith(kept, u.replicas);
      SharesOverRows(rows, kept, Local(state), u.replicas);
      PathsAreHeld(rows, state, excluded, u.replicas);
    }
    forall m | HeldBy(rows, state, m) != {} ensures exists u :: u in usages && u.state == state && u.replicas == m {
      PathsAreHeld(rows, state, excluded, m);
      assert HasReplicas(usages, m);
      var i :| 0 <= i < |usages| && usages[i].replicas == m;
      assert usages[i] in usages;
    }
  }

  /** Rows of other states, ahead and behind, make no difference. */
  lemma AttributesAmong(before: seq<Usage>, usages: seq<Usage>, after: seq<Usage>, rows: seq<Row>, state: State)
    requires state != Orphaned && Attributes(usages, rows, state)
    requires forall u :: u in before || u in after ==> u.state != state
    ensures Attributes(before + usages + after, rows, state)
  {
    var all := before + usages + after;
    assert forall u :: u in all <==> u in before || u in usages || u in after;
    assert forall u :: u in all && u.state == state <==> u in usages && u.state == state;
  }

  lemma DistinctTogether(a: seq<Usage>, b: seq<Usage>, states: set<State>, others: set<State>)
    requires DistinctRows(a) && DistinctRows(b) && Only(a, states) && Only(b, others) && states !! others
    ensures DistinctRows(a + b) && Only(a + b, states + others)
  {
    forall i, j | 0 <= i < |a| && 0 <= j < |b| ensures a[i].state != b[j].state {
      assert a[i] in a && b[j] in b;
    }
  }

  /**
   * The statistics: under each of the three states, one row for each multiset of replicas that a path counted under it
   * has, weighing what these paths weigh; and one row for the orphaned objects, whose replicas are unknown.
   */
  lemma {:induction false} UsageIsAttributed(rows: seq<Row>, orphaned: seq<Object>)
    ensures var usages := CteQuery(rows, orphaned);
            && Attributes(usages, rows, ActiveData)
            && Attributes(usages, rows, UniqueFrozen)
            && Attributes(usages, rows, UniqueDetached)
            && (forall u :: u in usages && u.state == Orphaned ==>
                  u == Usage(multiset{"unknown_replicas"}, Orphaned, SizesOf(orphaned) as real))
            && (exists u :: u in usages && u.state == Orphaned)
            && DistinctRows(usages)
  {
    var active, shadow := PathsOfRows(rows, {Active}), PathsOfRows(rows, {Active, Shadow});
    var a := GroupByReplicas(SelectedFor(rows, ActiveData, {}), ActiveData);
    var f := GroupByReplicas(SelectedFor(rows, UniqueFrozen, active), UniqueFrozen);
    var d := GroupByReplicas(SelectedFor(rows, UniqueDetached, shadow), UniqueDetached);
    SameSubselect(rows, {Active});
    SameSubselect(rows, {Active, Shadow});
    ExcludedAreAhead(rows);
    QueryAttributes(rows, ActiveData, {});
    QueryAttributes(rows, UniqueFrozen, active);
    QueryAttributes(rows, UniqueDetached, shadow);
    TotalIsSum(orphaned);
    DistinctParts(a, f, d, OrphanedRow(orphaned));
    ThreeAttribute(a, f, d, OrphanedRow(orphaned), rows);
  }

  lemma DistinctParts(a: seq<Usage>, f: seq<Usage>, d: seq<Usage>, o: Usage)
    requires Only(a, {ActiveData}) && Only(f, {UniqueFrozen}) && Only(d, {UniqueDetached}) && o.state == Orphaned
    requires DistinctRows(a) && DistinctRows(f) && DistinctRows(d)
    ensures DistinctRows(a + f + d + [o])
    ensures forall u :: u in a + f + d + [o] && u.state == Orphaned <==> u == o
  {
    DistinctTogether(a, f, {ActiveData}, {UniqueFrozen});
    DistinctTogether(a + f, d, {ActiveData, UniqueFrozen}, {UniqueDetached});
    DistinctTogether(a + f + d, [o], {ActiveData, UniqueFrozen, UniqueDetached}, {Orphaned});
    assert forall u :: u in a + f + d + [o] <==> u in a + f + d || u == o;
  }

  lemma ThreeAttribute(a: seq<Usage>, f: seq<Usage>, d: seq<Usage>, o: Usage, rows: seq<Row>)
    requires Only(a, {ActiveData}) && Only(f, {UniqueFrozen}) && Only(d, {UniqueDetached}) && o.state == Orphaned
    requires Attributes(a, rows, ActiveData) && Attributes(f, rows, UniqueFrozen) && Attributes(d, rows, UniqueDetached)
    ensures Attributes(a + f + d + [o], rows, ActiveData) && Attributes(a + f + d + [o], rows, UniqueFrozen)
    ensures Attributes(a + f + d + [o], rows, UniqueDetached)
  {
    assert Attributes(a + f + d + [o], rows, ActiveData) by {
      AttributesAmong([], a, f + d + [o], rows, ActiveData);
      assert a + f + d + [o] == [] + a + (f + d + [o]);
    }
    assert Attributes(a + f + d + [o], rows, UniqueFrozen) by {
      AttributesAmong(a, f, d + [o], rows, UniqueFrozen);
      assert a + f + d + [o] == a + f + (d + [o]);
    }
    assert Attributes(a + f + d + [o], rows, UniqueDetached) by {
      AttributesAmong(a + f, d, [o], rows, UniqueDetached);
    }
  }

  /** The same paths as those the totals speak of. */
  lemma CountedIff(rows: seq<Row>, path: string, state: State)
    ensures path in CountedPaths(rows, state) <==> CountsUnder(rows, path, state)
  {
    PathHasRow(rows, {Active}, path);
    PathHasRow(rows, {Shadow}, path);
    PathHasRow(rows, {Detached}, path);
    PathHasRow(rows, {Active, Shadow}, path);
  }

  lemma ExcludedAreAhead(rows: seq<Row>)
    ensures Excludes(rows, ActiveData, {})
    ensures Excludes(rows, UniqueFrozen, PathsOfRows(rows, {Active}))
    ensures Excludes(rows, UniqueDetached, PathsOfRows(rows, {Active, Shadow}))
  {
    forall path: string
      ensures path in PathsOfRows(rows, {Active}) <==> HasRow(rows, path, Active)
      ensures path in PathsOfRows(rows, {Active, Shadow}) <==> HasRow(rows, path, Active) || HasRow(rows, path, Shadow)
    {
      PathHasRow(rows, {Active}, path);
      PathHasRow(rows, {Active, Shadow}, path);
    }
  }

  ghost function SizesOf(objects: seq<Object>): nat {
    if objects == [] then 0 else SizesOf(objects[..|objects| - 1]) + objects[|objects| - 1].size
  }

  lemma {:induction false} TotalIsSum(objects: seq<Object>)
    ensures TotalObjects(objects) == SizesOf(objects)
  {
    if objects != [] {
      var front, last := objects[..|objects| - 1], objects[|objects| - 1];
      assert objects == front + [last];
      TotalIsSum(front);
      TotalConcatenated(front, [last]);
      assert TotalObjects([last]) == last.size + TotalObjects([]);
    }
  }
}
