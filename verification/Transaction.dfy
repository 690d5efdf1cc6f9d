/** `ZKTransactionBuilder`: operations collected, sent as one transaction, the first error raised. */
module Transaction {
  import opened ZkTree

  /** One entry of the list the client library returns for a transaction. */
  datatype OpResult = Done | Exc(error: Error)

  datatype Raise = Nothing | Zk(error: Error) | RuntimeError

  /**
   * The result list: operations before the failing one are reported as rolled back (`padded`) or as
   * done, those after it as inconsistent.
   */
  function Results(t: Tree, ops: seq<Op>, padded: bool): (r: seq<OpResult>)
    ensures |r| == |ops|
  {
    match Multi(t, ops)
    case Committed(_) => seq(|ops|, i => Done)
    case Aborted(at, e) =>
      seq(|ops|, i => if i < at then (if padded then Exc(RolledBack) else Done)
                      else if i == at then Exc(e) else Exc(Inconsistent))
  }

  /** `_check_result_txn`: the first exception among the results paired with a path. */
  function FirstException(paths: seq<Path>, results: seq<OpResult>): Raise {
    if paths == [] || results == [] then Nothing
    else if results[0].Exc? then Zk(results[0].error)
    else FirstException(paths[1..], results[1..])
  }

  lemma {:induction false} FirstExceptionAt(paths: seq<Path>, results: seq<OpResult>, k: nat)
    requires |paths| == |results| && k < |results| && results[k].Exc?
    requires forall i :: 0 <= i < k ==> results[i].Done?
    ensures FirstException(paths, results) == Zk(results[k].error)
  {
    if k > 0 {
      assert results[0].Done?;
      FirstExceptionAt(paths[1..], results[1..], k - 1);
    }
  }

  lemma {:induction false} NoExceptionWhenDone(paths: seq<Path>, results: seq<OpResult>)
    requires forall i :: 0 <= i < |results| ==> results[i].Done?
    ensures FirstException(paths, results) == Nothing
  {
    if paths != [] && results != [] {
      NoExceptionWhenDone(paths[1..], results[1..]);
    }
  }

  /** What the builder raises for a transaction. */
  function Raised(t: Tree, ops: seq<Op>, padded: bool): Raise {
    match Multi(t, ops)
    case Committed(_) => Nothing
    case Aborted(at, e) => if at > 0 && padded then Zk(RolledBack) else Zk(e)
  }

  /** The raised exception is the failure itself only if no rolled-back entry comes ahead of it. */
  lemma {:induction false} FirstExceptionIsRaised(t: Tree, ops: seq<Op>, padded: bool, paths: seq<Path>)
    requires |paths| == |ops|
    ensures FirstException(paths, Results(t, ops, padded)) == Raised(t, ops, padded)
  {
    match Multi(t, ops)
    case Committed(_) => NoExceptionWhenDone(paths, Results(t, ops, padded));
    case Aborted(at, e) => FirstExceptionAt(paths, Results(t, ops, padded), if padded then 0 else at);
  }

  class Server {
    var tree: Tree

    constructor (tree: Tree)
      ensures this.tree == tree
    {
      this.tree := tree;
    }

    /** All or nothing; which of the two shapes the result list has is not known. */
    method Commit(ops: seq<Op>) returns (results: seq<OpResult>, ghost padded: bool)
      modifies this
      ensures tree == After(old(tree), ops) && results == Results(old(tree), ops, padded)
    {
      var shape: bool := *;
      results, padded := Results(tree, ops, shape), shape;
      tree := After(tree, ops);
    }
  }

  class Builder {
    const server: Server
    var txn: seq<Op>
    var pathToNodes: seq<Path>
    var committed: bool
    var resetCalled: bool

    ghost predicate Valid()
      reads this
    {
      |pathToNodes| == |txn|
    }

    constructor (server: Server)
      ensures Valid() && this.server == server && txn == [] && !committed && !resetCalled
    {
      this.server, this.txn, this.pathToNodes, this.committed, this.resetCalled := server, [], [], false, false;
    }

    method AddOperation(op: Op) returns (raised: Raise)
      requires Valid()
      modifies this`txn, this`pathToNodes
      ensures Valid()
      ensures committed ==> raised == RuntimeError && txn == old(txn) && pathToNodes == old(pathToNodes)
      ensures !committed ==> raised == Nothing && txn == old(txn) + [op] && pathToNodes == old(pathToNodes) + [op.path]
    {
      if committed {
        return RuntimeError;
      }
      txn, pathToNodes := txn + [op], pathToNodes + [op.path];
      return Nothing;
    }

    method CreateNode(path: Path, value: string) returns (raised: Raise)
      requires Valid()
      modifies this`txn, this`pathToNodes
      ensures Valid()
      ensures raised == if committed then RuntimeError else Nothing
      ensures txn == if committed then old(txn) else old(txn) + [Create(path, value)]
    {
      raised := AddOperation(Create(path, value));
    }

    method DeleteNode(path: Path) returns (raised: Raise)
      requires Valid()
      modifies this`txn, this`pathToNodes
      ensures Valid()
      ensures raised == if committed then RuntimeError else Nothing
      ensures txn == if committed then old(txn) else old(txn) + [Delete(path)]
    {
      raised := AddOperation(Delete(path));
    }

    /** Sends the collected operations; commits twice only as an error. */
    method Commit() returns (raised: Raise, ghost padded: bool)
      requires Valid()
      modifies this`committed, server
      ensures Valid()
      ensures old(committed) ==> raised == RuntimeError && server.tree == old(server.tree) && committed
      ensures !old(committed) ==> raised == Raised(old(server.tree), txn, padded) && server.tree == After(old(server.tree), txn)
      ensures !old(committed) ==> (committed <==> raised == Nothing)
    {
      padded := false;
      if committed {
        return RuntimeError, padded;
      }
      var results: seq<OpResult>;
      results, padded := server.Commit(txn);
      FirstExceptionIsRaised(old(server.tree), txn, padded, pathToNodes);
      raised := FirstException(pathToNodes, results);
      if raised == Nothing {
        committed := true;
      }
    }

    method Reset()
      modifies this`txn, this`pathToNodes, this`committed, this`resetCalled
      ensures Valid() && txn == [] && !committed && resetCalled
    {
      txn, pathToNodes, committed, resetCalled := [], [], false, true;
    }

    /** Leaving the `with` block: commit unless it failed, was committed or was reset; then reset. */
    method Exit(failed: bool) returns (raised: Raise, ghost padded: bool)
      requires Valid()
      modifies this, server
      ensures Valid()
      ensures failed || old(committed) || old(resetCalled) ==>
                raised == Nothing && server.tree == old(server.tree) && txn == [] && resetCalled
      ensures !failed && !old(committed) && !old(resetCalled) ==>
                && raised == Raised(old(server.tree), old(txn), padded)
                && server.tree == After(old(server.tree), old(txn))
                && (raised == Nothing ==> txn == [] && resetCalled)
    {
      padded := false;
      if !failed && !committed && !resetCalled {
        raised, padded := Commit();
        if raised != Nothing {
          return;
        }
      }
      Reset();
      return Nothing, padded;
    }
  }

  /** A transaction that raises has changed nothing. */
  lemma {:induction false} RaisedMeansUnchanged(t: Tree, ops: seq<Op>, padded: bool)
    ensures Raised(t, ops, padded) != Nothing <==> Multi(t, ops).Aborted?
    ensures Raised(t, ops, padded) != Nothing ==> After(t, ops) == t
  {
  }
}
