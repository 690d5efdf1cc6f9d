# Verified model of the ch-tools maintenance algorithms

ch-tools maintains ClickHouse clusters: it cleans up ZooKeeper, elects the first replica of a database,
creates zero-copy locks, accounts for and deletes objects in object storage, migrates databases and
deduplicates partitions. This project models the algorithms at the core of these commands in Dafny and
proves what they are meant to guarantee.

ZooKeeper is a finite tree of nodes under atomic operations (`ZkTree.dfy`); a transaction commits all its
operations or none. `ZooKeeper.Session` is a client whose requests may be interleaved with any finite list of
operations of other clients, so the deletion and lock-creation algorithms are proved under interference as
well as without it. Every method keeps the sequence of foreign operations, done and still to come, as it is;
those done are recorded with the tree each of them met, and the recorded trees lead from the tree before a call
to the tree after it with nothing but this client's own deletes in between. The election is a state machine over any number of participants, together with a proof
that the code of the acquiring step refines it.

| file | code modelled |
|---|---|
| `Wrappers.dfy`, `Folds.dfy` | optional values; folds whose result does not depend on the order |
| `Text.dfy`, `Sorting.dfy`, `Chunks.dfy` | string splitting and order, stable sorting, `chunked` |
| `ZkTree.dfy`, `ZooKeeper.dfy` | the data tree, single operations, transactions, a session among other clients |
| `RemoveSubpaths.dfy`, `DeleteRecursive.dfy` | `remove_subpaths`, `delete_nodes_transaction`, `delete_recursive` |
| `MatchedPaths.dfy` | `find_leafs_and_nodes` and the batch deletion that consumes it |
| `TreeInspector.dfy`, `ReplicatedObjects.dfy` | `ZookeeperTreeInspector`, the search for replicated objects, the drop lists |
| `Transaction.dfy`, `DatabaseLock.dfy` | `ZKTransactionBuilder`, `DatabaseLockManager` |
| `ZeroCopy.dfy` | creation of zero-copy locks |
| `SpaceUsage.dfy`, `RowOrder.dfy`, `UsageTotals.dfy`, `Attribution.dfy`, `ObjectCleanup.dfy`, `CleanupStats.dfy` | space-usage queries, budgeted deletion, deletion statistics |
| `TableUuid.dfy`, `Migration.dfy` | UUID synchronisation, the migration to the Replicated engine |
| `Deduplicate.dfy` | resumable deduplication |
| `KeyPath.dfy`, `InPlaceUpdate.dfy` | lookup and update by key path, `deep_merge` |
| `Escape.dfy` | escaping of names for ZooKeeper |

`dafny verify dfyconfig.toml` checks the whole project.

## Where the code falls short of what it promises

The model follows the code. Where a promise does not hold for all inputs, a concrete case and the exact
condition are proved.

- `remove_subpaths` (zookeeper.py:342-361) says it drops every path below another one. It does so exactly when
  no topmost path has both a path below it and a textual sibling whose next character sorts below `/`:
  `/a`, `/a-b`, `/a/b` keeps all three (`RemoveSubpaths.NestedPathSurvives`). The result of `delete_recursive`
  is right in that case too.
- A contender for the lock is meant to wait (database_replica.py:179-204). When the transaction reports the
  operations ahead of the failing one as rolled back, the builder raises `RolledBackError`, which nobody
  catches, exactly when the lock exists and the database root does not (`DatabaseLock.ContenderOutcome`). Otherwise
  it gives up exactly when both nodes are gone by the time it looks again (`DatabaseLock.ElectedIff`; both cases in
  `DatabaseLock.ContenderGivesUpSample`).
- `os.rename` replaces an empty directory. When a table is given a UUID that a later table still has and that
  table's directory is empty, a synchronisation that reports success has moved the first table's data on to the
  later table's new UUID (`TableUuid.EmptyDirectoryIsReplaced`, `TableUuid.EveryTableFollowsIff`).
- The settings of a deduplication are reset on the way out unless enabling the second one raises or one of the
  resets does (`Deduplicate.SettingsResetIff`, `Deduplicate.SettingsStayOn`): both are enabled ahead of the `try`.
- A partition whose attach failed is detached; when the next run's listing leaves it out, it stays so while
  that run succeeds (`Deduplicate.DetachedPartitionIsLost`). A run that succeeds leaves a selected partition completed
  and attached exactly when it does not find it detached and out of reach: with its table marked as done, below the
  start of the run, or missing from the listing (`Deduplicate.CompletedIffNotLeftOut`).
- A migration that fails after the engine was written, or partly written, is not undone, and the checks refuse to
  repeat it (`Migration.RepeatableIff`, `Migration.FailedRestoreIsFinal`).
- Only the first line of a metadata file is rewritten, while the parser takes the UUID from any line. A file that
  passes all checks can keep its old UUID (`TableUuid.UuidBelowHeaderStays`); it gives the new one exactly when its
  UUID was on the first line (`TableUuid.ParsedAfterIff`).
- A transaction that creates zero-copy locks checks the versions of the parts. That tells whether a part was set since
  it was seen (`ZkTree.CheckTellsSets`), but not whether it was removed and created anew (`ZkTree.CheckMissesNewNode`).
- Objects whose deletion the reply to a bulk request refuses are counted as deleted (`ObjectCleanup.RefusedIsCounted`).
  What is counted is gone exactly when each key that was there is accepted by some request
  (`ObjectCleanup.CountedAreGoneIff`).
- `escape_for_zookeeper` is undone by `unescape_from_zookeeper` exactly for names whose escaped characters have
  codes below 256; beyond that two names can share a node (`Escape.RoundTripIff`, `Escape.WideNamesCollide`).
- An append moves what negative list indices stand for, so that an update can change a lookup by a different path
  (`KeyPath.NegativeIndexMoves`). The lookups that an update leaves alone are exactly those that part from it along
  the structure (`KeyPath.UnaffectedIff`).

## Model

| member | source | states |
|---|---|---|
| Chunks.Chunked | ch_tools/chadmin/internal/utils.py:141-158 | the chunks put together are the input, all but the last have the full length, none is empty, and their number is the rounded-up quotient |
| Chunks.Isqrt | ch_tools/chadmin/internal/zookeeper.py:393 | the largest number whose square does not exceed the argument |
| ZkTree.ApplyKeepsWellFormed | ch_tools/chadmin/internal/zookeeper.py:307-339 | no operation leaves a node without its parent |
| ZkTree.MultiKeepsWellFormed | ch_tools/chadmin/internal/zookeeper.py:307-318 | neither does a transaction, committed or not |
| ZkTree.DeletesCommitted | ch_tools/chadmin/internal/zookeeper.py:313-320 | a delete transaction that commits removes exactly the listed nodes, each of which existed, and left nothing below them |
| ZkTree.ChildrenFirstCommits | ch_tools/chadmin/internal/zookeeper.py:364-371 | deletes that list every node once and after all its children always commit |
| ZkTree.CheckTellsSets | ch_tools/chadmin/internal/zero_copy.py:232-272 | while a node is not deleted, the check of a version read before passes exactly if the node was not set since |
| ZkTree.CheckMissesNewNode | ch_tools/chadmin/internal/zero_copy.py:232-272 | a node of version 0 that was deleted and created anew passes it |
| RemoveSubpaths.RemoveSubpaths | ch_tools/chadmin/internal/zookeeper.py:342-361 | the result is a duplicate-free part of the input that covers every input path, and is free of nested paths exactly when no low-sorting sibling splits a family |
| RemoveSubpaths.NestedFreeIff | ch_tools/chadmin/internal/zookeeper.py:350-361 | for the list the loop keeps: nesting survives if and only if some topmost path has both a descendant and a textual sibling below the separator |
| RemoveSubpaths.SplitPrefixIffCovers | ch_tools/chadmin/internal/zookeeper.py:352-360 | comparing split paths as list prefixes is the relation "the same path or below it" on the texts |
| RemoveSubpaths.NoLowCharacterNoSibling | ch_tools/chadmin/internal/zookeeper.py:350-355 | without characters below the separator there is no such sibling, so no nesting survives |
| RemoveSubpaths.NestedPathSurvives | ch_tools/chadmin/internal/zookeeper.py:342-348 | three paths for which the documented promise fails: any result for them keeps all three, one of them below another |
| ZooKeeper.Session.DeleteNode | ch_tools/chadmin/internal/zookeeper.py:331-339 | unless the node has children, everything left at or below it afterwards was created by other clients |
| ZooKeeper.Session.DeleteSubtree | ch_tools/chadmin/internal/zookeeper.py:331 | recursive deletion among other clients clears the subtree, or reports "not empty" only after another client has created a node strictly below its root |
| ZooKeeper.EvolvesTransitive | ch_tools/chadmin/internal/zookeeper.py:364-398 | interleavings of this client's deletes under the roots with the recorded operations of others compose |
| ZooKeeper.EvolvesAccounts | ch_tools/chadmin/internal/zookeeper.py:364-398 | what an interleaving means for single nodes: new and changed ones are the work of effective operations of others, lost ones too or they lie under the roots |
| ZooKeeper.ClearedStays | ch_tools/chadmin/internal/zookeeper.py:326-339 | a subtree once cleared holds only nodes that others created since, whatever happens later |
| DeleteRecursive.DeleteNodesTransaction | ch_tools/chadmin/internal/zookeeper.py:307-339 | whichever way it takes, all listed subtrees are cleared and nothing else is lost; undisturbed and committable, it removes exactly the listed nodes in one transaction |
| DeleteRecursive.DeleteUntilGone | ch_tools/chadmin/internal/zookeeper.py:327-339 | the retry loop ends with the subtree cleared, after at most one attempt more than other clients have created nodes strictly below it meanwhile |
| DeleteRecursive.CollectNodes | ch_tools/chadmin/internal/zookeeper.py:377-385 | the queue loop ends and collects every node at or below a root that others did not create meanwhile; undisturbed, in level order without duplicates |
| DeleteRecursive.WeightDrops | ch_tools/chadmin/internal/zookeeper.py:381-385 | taking a node off the queue and queueing its children leaves fewer nodes to visit |
| DeleteRecursive.ReversedIsBottomUp | ch_tools/chadmin/internal/zookeeper.py:395-398 | reversed, the collected list names no node ahead of its descendants |
| DeleteRecursive.ChunkCommits | ch_tools/chadmin/internal/zookeeper.py:395-398 | when the chunks before it are gone, the transaction of a chunk commits, also across chunk borders |
| DeleteRecursive.FewTransactions | ch_tools/chadmin/internal/zookeeper.py:392-398 | n nodes in chunks of at least isqrt(n) make at most isqrt(n) + 2 transactions |
| DeleteRecursive.DeleteChunks | ch_tools/chadmin/internal/zookeeper.py:392-398 | the chunk loop clears all collected nodes under interference, in transactions of isqrt(n) nodes and of 100 at least, the last one excepted; undisturbed, every transaction commits and the tree loses exactly the collected nodes |
| DeleteRecursive.TopmostPaths | ch_tools/chadmin/internal/zookeeper.py:376-377 | the roots cover all requested paths and are unrelated exactly when no sibling splits a family |
| DeleteRecursive.UnrelatedPathsDoNotSplit | ch_tools/chadmin/internal/zookeeper.py:364-377 | pairwise unrelated paths meet that condition |
| DeleteRecursive.CollectedExactly | ch_tools/chadmin/internal/zookeeper.py:377-398 | undisturbed, the deleted list names exactly the nodes at or below a requested path, once each and bottom-up |
| DeleteRecursive.Finish | ch_tools/chadmin/internal/zookeeper.py:364-398 | collecting and clearing the roots clears every requested path; without other writers the tree is the old one minus the requested subtrees |
| DeleteRecursive.DeleteRecursive | ch_tools/chadmin/internal/zookeeper.py:364-398 | under any interference nothing outside the requested subtrees is lost and all that remains in them is others' work; alone, the result is the old tree minus the subtrees, for nested, duplicate and missing paths; for existing paths that no sibling splits every transaction commits, each node goes once and bottom-up, in at most isqrt(n) + 2 transactions of the size that n asks for; a dry run changes nothing |
| MatchedPaths.LeafMatched | ch_tools/chadmin/internal/zookeeper.py:288-290 | for a leaf the promise of the search is the predicate itself |
| MatchedPaths.InnerMatched | ch_tools/chadmin/internal/zookeeper.py:292-302 | an inner node's leaves all match if and only if each child's leaves do |
| MatchedPaths.CountOneChild | ch_tools/chadmin/internal/zookeeper.py:294-299 | the stream of one child is counted once if it holds the child and not at all otherwise |
| MatchedPaths.LockCleaner.Yield | ch_tools/chadmin/internal/zookeeper_clean.py:621-628 | a flush in mid-search leaves the tree equal to the original minus all results handed over so far; it comes exactly when a batch is full |
| MatchedPaths.LockCleaner.Generate | ch_tools/chadmin/internal/zookeeper.py:284-304 | although the tree shrinks during the search, the results at or below a node are exactly the original nodes all of whose original leaves match |
| MatchedPaths.CleanLocks | ch_tools/chadmin/internal/zookeeper_clean.py:598-630 | deleting in batches while searching ends with the tree a search on a frozen copy asks for; each matched node is found once, after all its descendants; the root stays; a dry run changes nothing |
| TreeInspector.DeliveredConcat | ch_tools/chadmin/internal/zookeeper_clean.py:184-189 | what two lists of requests deliver is what the first delivers followed by what the second does |
| TreeInspector.CleanConcat | ch_tools/chadmin/internal/zookeeper_clean.py:184-189 | so with the absence of errors |
| TreeInspector.Inspector.UpdatePendingQueue | ch_tools/chadmin/internal/zookeeper_clean.py:102-114 | sending requests keeps the order of all open ones, and the bounded deque never drops one |
| TreeInspector.Inspector.UpdateActiveQueue | ch_tools/chadmin/internal/zookeeper_clean.py:116-138 | whatever completes when, the one abstract queue is the same before and after; a completed head always moves on |
| TreeInspector.Inspector.WaitForTaskFinished | ch_tools/chadmin/internal/zookeeper_clean.py:159-167 | the wait ends, never looks at the head of an empty active queue, and leaves the abstract queue as it was |
| TreeInspector.Inspector.Add | ch_tools/chadmin/internal/zookeeper_clean.py:184-189 | the new paths' nodes follow everything queued before |
| TreeInspector.Inspector.Get | ch_tools/chadmin/internal/zookeeper_clean.py:169-195 | hands out the first element of the abstract queue under every completion order, reports exhaustion exactly on the empty queue, and raises only when an open request fails |
| ReplicatedObjects.WantedIsLayer | ch_tools/chadmin/internal/zookeeper_clean.py:242-251 | what the loop queues for a node is nothing for an object and otherwise its children that are not excluded |
| ReplicatedObjects.VisitExhaustive | ch_tools/chadmin/internal/zookeeper_clean.py:240-251 | visiting a node never loses sight of a reachable one |
| ReplicatedObjects.VisitStep | ch_tools/chadmin/internal/zookeeper_clean.py:240-251 | visited and queued nodes stay distinct, ordered by depth, reachable and together exhaustive |
| ReplicatedObjects.FindObjects | ch_tools/chadmin/internal/zookeeper_clean.py:224-254 | ends and returns exactly the reachable nodes with a `replicas` child, each once and in breadth-first order |
| ReplicatedObjects.TableDropsExact | ch_tools/chadmin/internal/zookeeper_clean.py:317-319 | the replicas to drop of a table are exactly the listed ones on removed hosts, each once |
| ReplicatedObjects.DatabaseDropsExact | ch_tools/chadmin/internal/zookeeper_clean.py:310-316 | the pairs to drop of a database are exactly the shard and host of the listed names whose host is removed, each once |
| ReplicatedObjects.CollectObject | ch_tools/chadmin/internal/zookeeper_clean.py:281-321 | one object adds its own drops to the plan and nothing else; it fails exactly for a collected database with a malformed replica name |
| ReplicatedObjects.CollectObjects | ch_tools/chadmin/internal/zookeeper_clean.py:256-328 | collecting fails exactly when a reachable collected database has a replica name that does not split in two; otherwise every reachable object has exactly its removed replicas in the plan and nothing else is in it |
| Transaction.FirstExceptionIsRaised | ch_tools/chadmin/internal/zookeeper.py:92-114 | the first exception of the result list is the real failure, or the rolled-back mark when such entries come ahead of it |
| Transaction.RaisedMeansUnchanged | ch_tools/chadmin/internal/zookeeper.py:75-84 | the builder raises exactly when the transaction aborted, and then nothing has changed |
| Transaction.Builder.Commit | ch_tools/chadmin/internal/zookeeper.py:75-84 | sends the collected operations once; a second commit is an error without effect |
| Transaction.Builder.Exit | ch_tools/chadmin/internal/zookeeper.py:55-59 | leaving the block commits exactly if it neither failed nor was committed or reset |
| DatabaseLock.AcquireByCases | ch_tools/chadmin/internal/database_replica.py:168-173 | the acquiring transaction commits exactly when both parents exist and neither node does, and then adds the lock only; which operation fails otherwise |
| DatabaseLock.ContenderOutcome | ch_tools/chadmin/internal/database_replica.py:168-204 | a contender wins iff neither node exists, gets the caught error iff the root exists or the list is not padded, and an uncaught one iff only the lock exists and the list is padded |
| DatabaseLock.AcquireStep | ch_tools/chadmin/internal/database_replica.py:156-204 | entering the critical section requires the absence of lock and root and leaves the root unchanged; any other outcome leaves the tree unchanged |
| DatabaseLock.StepEffect | ch_tools/chadmin/internal/database_replica.py:93-251 | what any step of a participant may do to lock and root |
| DatabaseLock.ExclusiveNext | ch_tools/chadmin/internal/database_replica.py:156-251 | exclusion and the presence of the lock are kept by every step of every participant and by anything else that happens to the tree, only not to the lock |
| DatabaseLock.ExclusiveAlways | ch_tools/chadmin/internal/database_replica.py:156-251 | they hold in every state of every run, whatever was left over at its start |
| DatabaseLock.DecidedNext | ch_tools/chadmin/internal/database_replica.py:206-251 | where the database root stays and whoever ends normally has created it, each step keeps it created and the winner single |
| DatabaseLock.DecidedAlways | ch_tools/chadmin/internal/database_replica.py:206-251 | and so in every state of such a run |
| DatabaseLock.Election | ch_tools/chadmin/internal/database_replica.py:62-251 | in every interleaving at most one participant is between acquire and release with the lock present all the time; in runs where nobody deletes the database root and whoever ends normally has created it, at most one ever completes as first replica |
| DatabaseLock.NobodyGetsInMeanwhile | ch_tools/chadmin/internal/database_replica.py:168-204 | while one is inside, another's acquiring transaction changes nothing and does not get it in |
| DatabaseLock.ForcedRemovalBreaksExclusion | ch_tools/chadmin/internal/database_replica.py:161-163 | with forced removal, from any state in which one holds the lock without having created the root, a second one is inside four steps later |
| DatabaseLock.ElectedBySteps | ch_tools/chadmin/internal/database_replica.py:156-241 | the decision of one participant on the trees its requests meet is reached by steps of the state machine |
| DatabaseLock.ElectedIff | ch_tools/chadmin/internal/database_replica.py:168-241 | who enters first, who gives up and with which exception, who waits and who follows, by what the trees hold at each request |
| DatabaseLock.GivesUpWithoutParents | ch_tools/chadmin/internal/database_replica.py:168-204 | without a parent that one of the creates needs a participant gives up; which exception it raises |
| DatabaseLock.ContenderGivesUpSample | ch_tools/chadmin/internal/database_replica.py:168-204 | both ways for a contender to give up, on one tree |
| DatabaseLock.TryAcquire | ch_tools/chadmin/internal/database_replica.py:168-204 | the builder code is one acquire step of the state machine |
| ZeroCopy.ParentPathsToCreate | ch_tools/chadmin/internal/zero_copy.py:307-321 | asking only up to the first missing ancestor finds exactly the missing ones; among other clients it lists only ancestors that were missing at some time and leaves out only ones that were there at some time |
| ZeroCopy.ParentSortsFirst | ch_tools/chadmin/internal/zero_copy.py:275 | in the textual order a parent sorts strictly before its children |
| Text.StringLeIff | ch_tools/chadmin/internal/zero_copy.py:275 | the order of strings: a prefix first, else by the first character that differs |
| ZeroCopy.NewsCreatable | ch_tools/chadmin/internal/zero_copy.py:274-283 | for distinct locks of one depth, every create of the list finds its parent present or made before it and itself absent |
| ZeroCopy.CreatableCommits | ch_tools/chadmin/internal/zero_copy.py:267-285 | such a list always commits |
| ZeroCopy.NewsAdded | ch_tools/chadmin/internal/zero_copy.py:274-285 | without interference the transaction commits and adds exactly the locks and their missing ancestors, with the copied value on the chosen path only if that is a new ancestor |
| ZeroCopy.CommittedNews | ch_tools/chadmin/internal/zero_copy.py:267-285 | on any tree on which the transaction commits, whatever others did before, it adds exactly the locks and the ancestors missing at that moment, and changes nothing else |
| ZeroCopy.ChecksGuard | ch_tools/chadmin/internal/zero_copy.py:270-272 | the transaction commits only if every checked part is there in the version seen before |
| ZeroCopy.NeededExact | ch_tools/chadmin/internal/zero_copy.py:222-240 | the locks to create are exactly the missing ones whose part exists when that is to be checked |
| ZeroCopy.CheckLocks | ch_tools/chadmin/internal/zero_copy.py:218-240 | with each lock the version check of its own part is kept, in the same order |
| ZeroCopy.SendTransaction | ch_tools/chadmin/internal/zero_copy.py:261-291 | the tree after is that of the checks and creates applied to the tree met, the outcome is that of this transaction |
| ZeroCopy.CreateLocks | ch_tools/chadmin/internal/zero_copy.py:214-291 | under any interference: the attempt ends as its transaction does on the tree met, whose checks name versions the parts have had and whose parents were seen missing; if it created, every lock was absent and its part present in the very moment of the commit, and exactly the locks and the ancestors missing then are new, with the value that the old node had when it was read, or none; otherwise nothing is created; no lock is passed over unless it was there or its part was missing at some time. Undisturbed, the attempt never fails and adds exactly the needed locks and ancestors |
| ZeroCopy.CreateWithRetry | ch_tools/chadmin/internal/zero_copy.py:208-304 | the same for the last of up to three attempts; all before it failed on a parent or lock that had vanished or appeared and left nothing behind, and it ends so itself only as the third |
| SpaceUsage.WhereCommutes | ch_tools/common/commands/object_storage.py:1222-1261 | a filter on the grouping key may be applied before or after the grouping |
| SpaceUsage.SameSubselect | ch_tools/common/commands/object_storage.py:1245-1259 | the excluded paths are the same whether read from rows or from groups |
| SpaceUsage.QueriesAgree | ch_tools/common/commands/object_storage.py:1218-1341 | for all local rows and orphaned objects, read in one order, both formulations fill the table with the same rows; which rows these are says `Attribution.UsageIsAttributed` |
| RowOrder.AggregateOfPermutation | ch_tools/common/commands/object_storage.py:1222-1231 | grouping by path gives the same rows for any order of its input |
| RowOrder.GroupOfPermutation | ch_tools/common/commands/object_storage.py:1232-1239 | grouping by replicas gives the same rows for any order of its input |
| RowOrder.QueriesAgreeInAnyOrder | ch_tools/common/commands/object_storage.py:1218-1341 | the same rows up to order, those of `Attribution.UsageIsAttributed`, when every query, every sub-select and every reference to the common table expression scans the blobs in an order of its own, and the orphaned objects are listed in any order |
| Attribution.GroupsAreExact | ch_tools/common/commands/object_storage.py:1222-1231 | grouping by path and state gives one group for each path and state that has a row, with the multiset of the replicas of these rows, the sum of their sizes and the sum of their counts |
| Attribution.UsageIsAttributed | ch_tools/common/commands/object_storage.py:1218-1270 | for any sizes and counts: under each of the three states the table has exactly one row for each multiset of replicas that a path counted under it has, whose size is the sum, over these paths, of the summed size over the summed count; and one row for the orphaned objects, with their summed size and unknown replicas |
| Attribution.CountedIff | ch_tools/common/commands/object_storage.py:1232-1259 | a path counts as active if it has an active row, as frozen if it has a frozen one and no active one, as detached if it has a detached one only |
| UsageTotals.GroupTotal | ch_tools/common/commands/object_storage.py:1232-1239 | grouping by replicas keeps the total |
| UsageTotals.PathsPartition | ch_tools/common/commands/object_storage.py:1232-1259 | each local path is counted under exactly one of the three states |
| UsageTotals.UsageOfState | ch_tools/common/commands/object_storage.py:1232-1267 | the rows of a state weigh what the paths counted under it weigh |
| UsageTotals.UsageIsConserved | ch_tools/common/commands/object_storage.py:1218-1270 | when the size depends on the path only, the three states together weigh exactly what the distinct local paths weigh |
| UsageTotals.OrphansAreDisjoint | ch_tools/common/commands/object_storage.py:746-751 | an object is orphaned exactly when its path is counted under none of the states |
| CleanupStats.KeysSpelledOut | ch_tools/chadmin/internal/object_storage/s3_cleanup_stats.py:50-59 | the day and month keys, and that the month of a day key is the month key |
| CleanupStats.KeyIsNotTotal | ch_tools/chadmin/internal/object_storage/s3_cleanup_stats.py:36-48 | no day or month bucket collides with the total |
| CleanupStats.ResultStat.UpdateByItem | ch_tools/chadmin/internal/object_storage/s3_cleanup_stats.py:39-48 | after any sequence of updates the dictionary holds, under the total and every key that occurred, the number and size of exactly the objects counted there |
| CleanupStats.TotalIsTotal | ch_tools/chadmin/internal/object_storage/s3_cleanup_stats.py:39-41 | the total is the number and the summed size of all objects |
| CleanupStats.PeriodsAddUpToTotal | ch_tools/chadmin/internal/object_storage/s3_cleanup_stats.py:39-48 | by day or by month, the buckets add up to the total |
| CleanupStats.DaysMergeIntoMonths | ch_tools/chadmin/internal/object_storage/s3_cleanup_stats.py:50-59 | the day buckets of a month add up to what a monthly run over the same objects has under that month, nothing if it has no such bucket |
| CleanupStats.DaysHaveMonths | ch_tools/chadmin/internal/object_storage/s3_cleanup_stats.py:50-59 | no day is left out of the months |
| ObjectCleanup.SizeLimit | ch_tools/common/commands/object_storage.py:266-277 | the budget is at most the fraction of the listing, and less than a byte below it unless a nonzero byte limit is smaller, which it then is |
| ObjectCleanup.SmallestChoice | ch_tools/common/commands/object_storage.py:296-299 | no choice of k objects is smaller than the first k in order of size |
| ObjectCleanup.FittingIsLargest | ch_tools/common/commands/object_storage.py:280-301 | no choice of objects of a batch that fits the budget has more of them than the code keeps |
| ObjectCleanup.FittingIsPart | ch_tools/common/commands/object_storage.py:280-301 | what is kept are objects of the batch, and they fit |
| ObjectCleanup.PopUntilFits | ch_tools/common/commands/object_storage.py:297-299 | the trimming loop ends without popping an empty list |
| ObjectCleanup.ProcessBatch | ch_tools/common/commands/object_storage.py:280-301 | keeps what fits next to what was counted before, and reports the last batch exactly when not all fits |
| ObjectCleanup.CleanupS3 | ch_tools/chadmin/internal/object_storage/s3_cleanup.py:15-43 | every object is named once, in requests within the storage's limit, and counted once; the bucket loses exactly the keys that its requests accept; a dry run counts only |
| ObjectCleanup.CountedAreGoneIff | ch_tools/chadmin/internal/object_storage/s3_cleanup.py:33-43 | everything counted is gone if and only if each key that was there is accepted by some request |
| ObjectCleanup.RefusedIsCounted | ch_tools/chadmin/internal/object_storage/s3_cleanup.py:33-43 | an object whose request is refused stays and is counted |
| ObjectCleanup.CleanupOrphaned | ch_tools/common/commands/object_storage.py:304-338 | all batches are named whole, or all before the first that exceeds the budget and what fits of that one; what is counted is no more than the fraction of the listing and no more than a nonzero byte limit; the bucket loses exactly what its requests accept of the counted objects |
| ObjectCleanup.OutcomeFits | ch_tools/common/commands/object_storage.py:318-330 | whatever the stream, the bytes named for deletion never exceed the budget |
| ObjectCleanup.CutKeepsMost | ch_tools/common/commands/object_storage.py:296-299 | no other choice from the batch that is cut would have deleted more objects within the budget |
| TableUuid.ParsedIff | ch_tools/chadmin/internal/table_metadata_parser.py:114-163 | parsing succeeds exactly for files with one line that gives a well-formed UUID and one that gives a readable engine, wherever they are, and returns these |
| TableUuid.MacroIsRefused | ch_tools/chadmin/internal/table_metadata_manager.py:45-56 | a table whose replica path contains the UUID macro is always refused |
| TableUuid.WithUuid | ch_tools/chadmin/internal/table_metadata_manager.py:83-96 | only the first line changes, and it carries the new UUID afterwards if it carried one before |
| TableUuid.Untouched | ch_tools/chadmin/internal/table_metadata_manager.py:110-153 | renames leave directories they do not name alone |
| TableUuid.AllArrive | ch_tools/chadmin/internal/table_metadata_manager.py:110-153 | without a chain of names, each directory is under its new name after all renames |
| TableUuid.ChainOverwrites | ch_tools/chadmin/internal/table_metadata_manager.py:142-153 | a chain can only go through over an empty directory |
| TableUuid.DataFollowsIff | ch_tools/chadmin/internal/table_metadata_manager.py:110-153 | when all renames go through, all data is where it belongs if and only if there is no chain |
| TableUuid.FullStoresFollow | ch_tools/chadmin/internal/table_metadata_manager.py:110-153 | with data in every directory, renames that go through bring all of it where it belongs |
| TableUuid.EmptyDirectoryIsReplaced | ch_tools/chadmin/internal/table_metadata_manager.py:142-147 | the failing case, with the store it leaves behind |
| TableUuid.RenameKeepsData | ch_tools/chadmin/internal/table_metadata_manager.py:142-153 | a rename neither loses nor merges a directory with data |
| TableUuid.Disk.MoveTableStore | ch_tools/chadmin/internal/table_metadata_manager.py:110-153 | success is the rename, which an existing directory with data and a missing source prevent; on every exit the store is the old one or the renamed one, with all data |
| TableUuid.Disk.ChangeUuid | ch_tools/chadmin/internal/table_metadata_manager.py:156-235 | success updates the metadata and, unless the engine is View or MaterializedView, moves the data; with these two engines no directory is touched; refused checks change nothing; on any exit the file is the old one, the rewritten one or a cut one, the data is moved only behind a complete file, and nothing is lost |
| TableUuid.Disk.SyncTableUuids | ch_tools/chadmin/internal/database_migration.py:299-345 | a run that succeeds has renamed and rewritten for exactly the changed tables in order, and every table but those with engine View or MaterializedView has its data under its ZooKeeper UUID exactly if no such table is given a UUID that a later one still has, where each had data; one that fails has done so for the tables before some table, which is as far as its own change came, and left those after it alone; a dry run changes nothing and returns what a real run that succeeds returns, "unchanged" exactly when that does, and its errors are the real run's; no data is lost on any exit |
| TableUuid.ViewsAreNotMoved | ch_tools/chadmin/internal/table_metadata_manager.py:171-219 | a table with engine View or MaterializedView causes no rename |
| TableUuid.VerifyIff | ch_tools/chadmin/internal/table_metadata_manager.py:24-68 | the checks before a change, by what the file says |
| TableUuid.TargetIff | ch_tools/chadmin/internal/database_migration.py:313-317 | a table is given the UUID in the first clause of its metadata node; without a well-formed one the synchronisation raises |
| TableUuid.ReportUnchangedIff | ch_tools/chadmin/internal/database_migration.py:299-345 | the synchronisation reports no change exactly when every table has its ZooKeeper UUID |
| TableUuid.FirstDecides | ch_tools/chadmin/internal/database_migration.py:309-329 | a dry run ends at the first table that differs or cannot be read |
| TableUuid.MovesAreDistinct | ch_tools/chadmin/internal/database_migration.py:309-343 | distinct old and new UUIDs give renames from distinct to distinct names |
| TableUuid.ChainsMatch | ch_tools/chadmin/internal/database_migration.py:309-343 | the renames have a chain exactly when a table is given a UUID that a later changed table still has |
| TableUuid.EveryTableFollowsIff | ch_tools/chadmin/internal/database_migration.py:299-345 | after a run that succeeded, every store-backed table's data, changed or not, is under its ZooKeeper UUID if and only if there is no such pair of tables |
| TableUuid.FullTablesFollow | ch_tools/chadmin/internal/database_migration.py:299-345 | when no table's directory is empty, success means that all data is under the ZooKeeper UUIDs |
| TableUuid.MetadataFollows | ch_tools/chadmin/internal/database_migration.py:309-343 | when the metadata paths differ, a changed table's file differs in the UUID of its first line only, an unchanged one's not at all |
| TableUuid.HeadersFollowIff | ch_tools/chadmin/internal/database_migration.py:299-345 | success leaves a table's ZooKeeper UUID in the header of its metadata exactly if a changed table's header had a UUID before and an unchanged one's had this one |
| TableUuid.ParsedAfterIff | ch_tools/chadmin/internal/table_metadata_manager.py:71-102 | a file that parses does so after the rewriting, and gives the new UUID if and only if its UUID was on the first line or was that one |
| TableUuid.UuidBelowHeaderStays | ch_tools/chadmin/internal/table_metadata_manager.py:71-102 | a file that passes all checks and keeps its UUID |
| Migration.Migrator.TryAttach | ch_tools/chadmin/internal/database_migration.py:104-113 | a failed attach is kept quiet only when a restart was requested |
| Migration.Migrator.WithAttacher | ch_tools/chadmin/internal/database_migration.py:66-113 | what is called in which order on every path, when it raises, and that the database is attached afterwards unless the way back failed |
| Migration.Migrator.Enter | ch_tools/chadmin/internal/database_replica.py:206-241 | the calls in order; the participant becomes first, waits, follows or raises as the election decides on the trees it meets, and holds the lock only as first |
| Migration.Migrator.PreChecks | ch_tools/chadmin/internal/database_migration.py:153-164 | the checks before the lock, the dry synchronisation among them, change nothing on disk |
| Migration.Migrator.Sync | ch_tools/chadmin/internal/database_migration.py:398-399 | the synchronisation under the lock loses no data on any exit, and if it succeeds leaves files and directories synchronised with ZooKeeper as it is by then |
| Migration.Migrator.MigrateToReplicated | ch_tools/chadmin/internal/database_migration.py:377-404 | the calls of a whole run, its result and the state it leaves. Another engine, an old server, a digest, schemas, tables or UUIDs that do not fit stop it before the lock, and dry runs end there, without a call and with nothing changed; a digest or tables that differ under the lock make it raise without a detach and with engine and disk unchanged; if nothing of this is so and it got in, it does attempt the detach. The disk changes only by the synchronisation of a replica that is not the first, which loses no data |
| Migration.ReportFails | ch_tools/chadmin/internal/database_migration.py:299-345 | the dry synchronisation raises exactly if some table has no readable UUID in ZooKeeper and all before it have theirs from there |
| Migration.RunFollowsPlan | ch_tools/chadmin/internal/database_migration.py:377-404 | a run that meets no obstacle makes the calls of its plan one after the other up to the first that fails, and then only attaches the database again and releases the lock, as far as there is need |
| Migration.ObstacleEndsRun | ch_tools/chadmin/internal/database_migration.py:387-392 | one that meets an obstacle under the lock makes no call but those that enter and leave the lock |
| Migration.EveryRunReturnsOnce | ch_tools/chadmin/internal/database_migration.py:74-113 | after a detach that worked exactly one attach or restart is attempted, on every normal and exceptional path, and otherwise none; the replica is restored only after that and after nothing failed |
| Migration.LockIsReleasedLast | ch_tools/chadmin/internal/database_replica.py:243-251 | who acquired the lock attempts its release as the very last call, who did not never does |
| Migration.SuccessIsRestore | ch_tools/chadmin/internal/database_migration.py:377-404 | a run succeeds exactly when the replica was restored |
| Migration.EveryRunChangesWhileDetached | ch_tools/chadmin/internal/database_migration.py:392-399 | the engine and the UUIDs are changed only after a detach that worked and before the way back |
| Migration.RestartsIffChanged | ch_tools/chadmin/internal/database_migration.py:96-100 | the server is restarted exactly when the synchronisation succeeded and changed a UUID, and only a replica that is not the first synchronises |
| Migration.RepeatableIff | ch_tools/chadmin/internal/database_migration.py:166-181 | a failed run can be repeated if and only if it did not get to the write of the engine or that failed without a trace; its calls show which |
| Migration.FailedRestoreIsFinal | ch_tools/chadmin/internal/database_migration.py:377-404 | a run that fails in its last step and cannot be repeated |
| Deduplicate.StartIsNotPastArgument | ch_tools/chadmin/internal/deduplicate.py:195-203 | with a least partition given, no checkpoint moves the start past it |
| Deduplicate.ListedIsDue | ch_tools/chadmin/internal/deduplicate.py:104-121 | what a run lists: in ascending order, the chosen partitions that the server shows, at or after the checkpoint or the least partition given, whichever comes first; an empty bound counts as none |
| Deduplicate.Table.RunBody | ch_tools/chadmin/internal/deduplicate.py:104-157 | the body with its checkpoint handling, for every combination of failing calls |
| Deduplicate.Table.Run | ch_tools/chadmin/internal/deduplicate.py:102-167 | the whole run on a table, settings and mark included, for every combination of failing calls |
| Deduplicate.RunWorksThrough | ch_tools/chadmin/internal/deduplicate.py:124-147 | a run in which none of these fails detaches and attaches each of them once, in ascending order, and leaves no checkpoint |
| Deduplicate.RunStopsAt | ch_tools/chadmin/internal/deduplicate.py:124-147 | a run stops at the first that fails, having worked through exactly those before it, and leaves this one as the checkpoint if saving works |
| Deduplicate.NextRunResumes | ch_tools/chadmin/internal/deduplicate.py:104-147 | the next run then works on exactly the chosen partitions it sees from the failed one on, and on those from the least partition given on |
| Deduplicate.NothingBegun | ch_tools/chadmin/internal/deduplicate.py:102-123 | a run that fails ahead of its first partition leaves partitions and checkpoint alone |
| Deduplicate.RunSucceedsIff | ch_tools/chadmin/internal/deduplicate.py:102-167 | a run succeeds, and marks its table as done, exactly when it gets to the partitions, none of those it works on fails, and synchronising, resetting and marking work |
| Deduplicate.FaultsOutOfReach | ch_tools/chadmin/internal/deduplicate.py:195-203 | what goes wrong with partitions out of reach makes no difference to a run |
| Deduplicate.SavedStateCounts | ch_tools/chadmin/internal/deduplicate.py:45-62 | a table marked as done is left alone and a checkpoint counts, unless the saved state is to be ignored |
| Deduplicate.CleansUpIff | ch_tools/chadmin/internal/deduplicate.py:86-90 | marks and checkpoints are dropped after the run that leaves all tables marked as done, and kept by any other |
| Deduplicate.SettingsResetIff | ch_tools/chadmin/internal/deduplicate.py:176-192 | both settings are off afterwards if and only if the first enabling failed, or the second and both resets worked |
| Deduplicate.SettingsStayOn | ch_tools/chadmin/internal/deduplicate.py:176-192 | two ways for a setting to be left on |
| Deduplicate.ProcessSettles | ch_tools/chadmin/internal/deduplicate.py:124-147 | everything listed below a saved checkpoint is completed and attached, and everything listed if nothing failed |
| Deduplicate.TaskSkipsNothing | ch_tools/chadmin/internal/deduplicate.py:102-167 | after any run, what a later run would start behind is settled, and what is marked as done is settled altogether |
| Deduplicate.RunsSkipNothing | ch_tools/chadmin/internal/deduplicate.py:34-90 | the same after any sequence of runs over all tables, failed, successful, restarted from scratch |
| Deduplicate.FreshTables | ch_tools/chadmin/internal/deduplicate.py:34-90 | tables without saved state start with nothing skipped, as the next rows assume |
| Deduplicate.EveryPartitionSettled | ch_tools/chadmin/internal/deduplicate.py:34-167 | after any runs and one that succeeds every selected partition of every table is completed and attached, or is still detached and was left out of a listing for that |
| Deduplicate.CompletedIffNotLeftOut | ch_tools/chadmin/internal/deduplicate.py:34-167 | after any runs, one that succeeds leaves a selected partition completed and attached if and only if it does not find it detached and marked as done, below the start, or unlisted |
| Deduplicate.EveryPartitionCompleted | ch_tools/chadmin/internal/deduplicate.py:34-167 | when failed partitions are always listed again, every selected partition is completed and attached |
| Deduplicate.DetachedPartitionIsLost | ch_tools/chadmin/internal/deduplicate.py:124-147 | otherwise a partition can stay detached behind a run that succeeds |
| KeyPath.FailureKeepsAll | ch_tools/common/utils.py:140-191 | an update that raises has changed nothing, although missing parents are created on the way |
| KeyPath.UpdateWorksIff | ch_tools/common/utils.py:145-191 | an update works exactly when its path leads to no scalar, to no null outside a dictionary, and to no list with a key that is no number or out of range; the last key may be the index one past the end |
| KeyPath.GetAfterUpdate | ch_tools/common/utils.py:109-191 | a lookup by the updated path finds the new value |
| KeyPath.OthersUnchanged | ch_tools/common/utils.py:109-191 | a lookup by any path that parts from the updated one, at different keys of a dictionary or different positions of a list, finds what it found before, also when missing or null parents were created |
| KeyPath.UnaffectedIff | ch_tools/common/utils.py:109-191 | an update that works leaves a lookup alone for every value if and only if the two paths part, negative indices and appends included |
| KeyPath.NegativeIndexMoves | ch_tools/common/utils.py:166-170 | a lookup by -1 that finds something else after an append: these paths differ but do not part |
| KeyPath.MergeTwice | ch_tools/common/utils.py:76-86 | merging the same update again changes nothing |
| KeyPath.UpdateWins | ch_tools/common/utils.py:76-86 | whatever the update says at a path other than by a dictionary is found there afterwards |
| KeyPath.DictionariesStay | ch_tools/common/utils.py:76-86 | where the update has a dictionary, an empty one included, there is one afterwards |
| KeyPath.OthersStay | ch_tools/common/utils.py:76-86 | what the update does not mention is found as before |
| KeyPath.DeepMerge | ch_tools/common/utils.py:76-86 | the loop over the update's keys, in any order, computes the merge |
| InPlaceUpdate.Container.UpdatePath | ch_tools/common/utils.py:145-191 | updating dictionaries and lists in place, without sharing between them, has exactly the specified effect and outcome for any new value, nested ones included, and adds only new dictionaries and the nodes of that value |
| InPlaceUpdate.Container.UpdateItem | ch_tools/common/utils.py:157-186 | so with a list: replacing, appending at the end, refusing any other index |
| Escape.EscapeForZooKeeper | ch_tools/chadmin/internal/zookeeper.py:401-418 | the loop over the characters computes the escaped name |
| Escape.UnescapeFromZooKeeper | ch_tools/chadmin/internal/zookeeper.py:421-446 | the index loop computes the unescaped name |
| Escape.EscapedConcat | ch_tools/chadmin/internal/zookeeper.py:409-418 | names are escaped character by character |
| Escape.EscapedOne | ch_tools/chadmin/internal/zookeeper.py:411-416 | letters, digits and the underscore are kept, another character below 256 becomes a percent sign and its code in two hexadecimal digits, in capitals |
| Escape.LeftAloneIff | ch_tools/chadmin/internal/zookeeper.py:409-418 | a name stays as it is exactly when it consists of letters, digits and underscores |
| Escape.RoundTripIff | ch_tools/chadmin/internal/zookeeper.py:401-446 | unescaping an escaped name gives the name back if and only if every escaped character has a code below 256 |
| Escape.WideNamesCollide | ch_tools/chadmin/internal/zookeeper.py:410-416 | two different names beyond that share their escaped form |
| Escape.NoSlash | ch_tools/chadmin/internal/zookeeper.py:401-418 | no escaped name contains a separator |
| Escape.Injective | ch_tools/chadmin/internal/zookeeper.py:401-418 | different names below that bound have different escaped forms |
| Escape.TablePathsDiffer | ch_tools/chadmin/internal/database_replica.py:254-259 | a table's metadata node is a child of the metadata node of its database, and different tables have different nodes |

## Left out

- ObjectCleanup.SizeLimit: the product of listing and fraction is exact; rounding of floating-point numbers is not modelled.
- ObjectCleanup.CleanupS3: a bulk request that raises as a whole, which ends the run, is not modelled.
- Attribution.UsageIsAttributed: sizes are exact fractions, and a sorted array of replica names is the multiset of its elements.
- TreeInspector.Inspector.Get: after a request has failed with anything but a missing node, nothing is promised about the later content of the queue.
- ReplicatedObjects.CollectObjects: the tree does not change while it is searched; a node that vanishes before its value is read is not covered.
- MatchedPaths.CleanLocks: no other client writes below the root during the search; the generator is a recursion whose consumer runs at every yield.
- DatabaseLock.Election: runs with forced lock removal are excluded, for which `DatabaseLock.ForcedRemovalBreaksExclusion` shows that the claim is false; nobody but a participant creates or deletes the lock.
- TableUuid.Disk.ChangeUuid: detaching an attached table first is not modelled, as the synchronisation never asks for it.
- Migration.Migrator.Enter: the requests of the election may fail only as a whole, and whether the wait for the lock ends in time is an outcome.
- Migration.Migrator.MigrateToReplicated: a failing call other than the synchronisation and the write of the engine has no effect; the comparisons of schemas and of tables are outcomes, and both listings of the local tables agree.
- Deduplicate.Table.Run: a failing call has no effect except that a failed attach leaves its partition detached; dry runs are not modelled, and work on different tables, which is independent, is modelled table by table.
- KeyPath.DeepMerge: dictionaries are values, so that merged dictionaries share nested ones with the update is not captured.
- InPlaceUpdate.Container.UpdatePath: nodes are a tree without sharing, and the new value brings nodes of its own.
- RemoveSubpaths.RemoveSubpaths: the argument list is a value, so that it is left sorted is not captured.
- Escape.RoundTripIff: lone surrogates are not characters here; the alphabet test and the parsing of two characters as a number are parameters constrained on the characters that matter.
- Reconnecting, retrying and session handling of the ZooKeeper client, and the creation of a path with its ancestors as several requests (one step here).
- Regular expressions and SQL text: predicates on paths, exclusions and metadata clauses are uninterpreted, queries are relations.
- `_clean_zero_copy_locks_for_table_and_part`, the drop of replicas and the DDL queue in the ZooKeeper clean-up: they call the modelled deletion or the server.
- `_migrate_to_atomic`, schema comparison and the fallback restoration through `ZookeeperDatabaseManager`: they would add easy members only.
- Cluster-wide totals of `get_object_storage_space_usage`, where rows with equal keys overwrite each other.
- Command-line wiring, output, logging, diagnostics and monitoring checks.
