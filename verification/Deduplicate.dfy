/**
 * Resumable deduplication: each selected partition of a table is detached and attached again,
 * and a failed run leaves a checkpoint behind for the next one.
 */
module Deduplicate {
  import opened Sorting
  import opened Wrappers

  type Id = string

  /** The calls that may raise. One that does has no effect; a failed attach leaves the partition detached. */
  datatype Call =
    | EnableFetch | EnableCopy | ReadCheckpoint | ListPartitions | Forget
    | Detach(id: Id) | Attach(id: Id) | Save(id: Id)
    | Sync | ResetFetch | ResetCopy | MarkDone

  /**
   * A table: its node in ZooKeeper, its two settings, whether it is marked as done, and what has happened
   * to its partitions: completed in some run, now detached, left out of a listing because detached, and in which
   * order they were worked on.
   */
  datatype State = State(
    checkpoint: Option<Id>, fetch: bool, copy: bool, finished: bool,
    completed: set<Id>, detached: set<Id>, missed: set<Id>, touched: seq<Id>)

  /** The arguments of a run and the table's partitions in ascending order. */
  datatype Selection = Selection(listing: seq<Id>, least: Option<Id>, chosen: Id -> bool, le: (Id, Id) -> bool) {
    ghost predicate Valid() {
      && TotalPreorder(le)
      && (forall i, j :: 0 <= i < j < |listing| ==> !le(listing[j], listing[i]))
    }
  }

  /** What may go wrong in a run: the calls that raise, and detached partitions the listing leaves out. */
  datatype Faults = Faults(calls: set<Call>, unlisted: set<Id>)

  // ---------------------------------------------------------------- where a run starts

  /** Python's truth of an optional string. */
  predicate Truthy(id: Option<Id>) {
    id.Some? && id.value != ""
  }

  /** `_get_min_partition_to_deduplicate` */
  function Start(selection: Selection, checkpoint: Option<Id>): Option<Id> {
    if Truthy(selection.least) && Truthy(checkpoint) then
      if selection.le(selection.least.value, checkpoint.value) then selection.least else checkpoint
    else if Truthy(checkpoint) then checkpoint
    else selection.least
  }

  predicate AtLeast(id: Id, bound: Option<Id>, le: (Id, Id) -> bool) {
    Truthy(bound) ==> le(bound.value, id)
  }

  /** With a least partition given, a checkpoint never moves the start of a run past it. */
  lemma StartIsNotPastArgument(selection: Selection, checkpoint: Option<Id>, id: Id)
    requires selection.Valid() && Truthy(selection.least) && AtLeast(id, selection.least, selection.le)
    ensures AtLeast(id, Start(selection, checkpoint), selection.le)
  {
    var le := selection.le;
    if Truthy(checkpoint) && !le(selection.least.value, checkpoint.value) {
      assert le(checkpoint.value, selection.least.value);
    }
  }

  // ---------------------------------------------------------------- one run on one table

  function Listed(listing: seq<Id>, hidden: set<Id>, selection: Selection, start: Option<Id>): seq<Id> {
    if listing == [] then []
    else
      var id, rest := listing[0], Listed(listing[1..], hidden, selection, start);
      if id !in hidden && selection.chosen(id) && AtLeast(id, start, selection.le) then [id] + rest else rest
  }

  function Reattached(s: State, id: Id): State {
    s.(completed := s.completed + {id}, detached := s.detached - {id}, touched := s.touched + [id])
  }

  function Saved(s: State, id: Id, faults: Faults): State {
    if Save(id) in faults.calls then s else s.(checkpoint := Some(id))
  }

  /** The loop over the partitions. */
  function Process(s: State, ids: seq<Id>, faults: Faults): (State, bool)
    decreases |ids|
  {
    if ids == [] then (s, true)
    else
      var id := ids[0];
      var tried := s.(touched := s.touched + [id]);
      if Detach(id) in faults.calls then (Saved(tried, id, faults), false)
      else if Attach(id) in faults.calls then (Saved(tried.(detached := s.detached + {id}), id, faults), false)
      else Process(Reattached(s, id), ids[1..], faults)
  }

  /** What `_task` does between switching the settings on and off. */
  function Body(s: State, selection: Selection, faults: Faults): (State, bool) {
    if ReadCheckpoint in faults.calls || ListPartitions in faults.calls then (s, false)
    else
      var hidden := faults.unlisted * s.detached;
      var ids := Listed(selection.listing, hidden, selection, Start(selection, s.checkpoint));
      var listed := s.(missed := s.missed + hidden);
      if s.checkpoint.Some? && Forget in faults.calls then (listed, false)
      else
        var (after, ok) := Process(listed.(checkpoint := None), ids, faults);
        (after, ok && Sync !in faults.calls)
  }

  /** `_task`: settings on, body, settings off whatever happened, and the mark. */
  function Task(s: State, selection: Selection, faults: Faults): (State, bool) {
    if EnableFetch in faults.calls then (s, false)
    else if EnableCopy in faults.calls then (s.(fetch := true), false)
    else
      var (after, ok) := Body(s.(fetch := true, copy := true), selection, faults);
      if ResetFetch in faults.calls then (after, false)
      else if ResetCopy in faults.calls then (after.(fetch := false), false)
      else
        var reset := after.(fetch := false, copy := false);
        if ok && MarkDone !in faults.calls then (reset.(finished := true), true) else (reset, false)
  }

  /** A table as `_task` changes it. */
  class Table {
    var checkpoint: Option<Id>
    var fetch: bool
    var copy: bool
    var finished: bool
    ghost var completed: set<Id>
    ghost var detached: set<Id>
    ghost var missed: set<Id>
    ghost var touched: seq<Id>

    ghost function View(): State
      reads this
    {
      State(checkpoint, fetch, copy, finished, completed, detached, missed, touched)
    }

    method DetachAttach(id: Id, faults: Faults) returns (ok: bool)
      modifies this`completed, this`detached, this`touched
      ensures ok <==> Detach(id) !in faults.calls && Attach(id) !in faults.calls
      ensures touched == old(touched) + [id]
      ensures ok ==> completed == old(completed) + {id} && detached == old(detached) - {id}
      ensures !ok ==> completed == old(completed)
      ensures Detach(id) in faults.calls ==> detached == old(detached)
      ensures !ok && Detach(id) !in faults.calls ==> detached == old(detached) + {id}
    {
      touched := touched + [id];
      if Detach(id) in faults.calls {
        return false;
      }
      detached := detached + {id};
      if Attach(id) in faults.calls {
        return false;
      }
      detached, completed := detached - {id}, completed + {id};
      assert detached == old(detached) - {id};
      return true;
    }

    /** The loop over the partitions; the first that fails is saved. */
    method Loop(ids: seq<Id>, faults: Faults) returns (ok: bool)
      modifies this`checkpoint, this`completed, this`detached, this`touched
      ensures (View(), ok) == Process(old(View()), ids, faults)
    {
      var i := 0;
      assert ids[0..] == ids;
      while i < |ids|
        invariant 0 <= i <= |ids|
        invariant Process(View(), ids[i..], faults) == Process(old(View()), ids, faults)
      {
        assert ids[i..][0] == ids[i] && ids[i..][1..] == ids[i + 1..];
        var done := DetachAttach(ids[i], faults);
        if !done {
          if Save(ids[i]) !in faults.calls {
            checkpoint := Some(ids[i]);
          }
          return false;
        }
        i := i + 1;
      }
      return true;
    }

    /** The body of `_task`; `ids` is the server's answer to the query for partitions. */
    method RunBody(selection: Selection, faults: Faults, ids: seq<Id>) returns (ok: bool)
      requires ids == Listed(selection.listing, faults.unlisted * detached, selection, Start(selection, checkpoint))
      requires ReadCheckpoint !in faults.calls && ListPartitions !in faults.calls
      modifies this`checkpoint, this`completed, this`detached, this`missed, this`touched
      ensures (View(), ok) == Body(old(View()), selection, faults)
    {
      missed := missed + faults.unlisted * detached;
      if checkpoint.Some? {
        if Forget in faults.calls {
          return false;
        }
        checkpoint := None;
      }
      ok := Loop(ids, faults);
      ok := ok && Sync !in faults.calls;
    }

    /** `_task` with the settings around it. */
    method Run(selection: Selection, faults: Faults, ids: seq<Id>) returns (ok: bool)
      requires ids == Listed(selection.listing, faults.unlisted * detached, selection, Start(selection, checkpoint))
      modifies this
      ensures (View(), ok) == Task(old(View()), selection, faults)
    {
      if EnableFetch in faults.calls {
        return false;
      }
      fetch := true;
      if EnableCopy in faults.calls {
        return false;
      }
      copy := true;
      ok := false;
      if ReadCheckpoint !in faults.calls && ListPartitions !in faults.calls {
        ok := RunBody(selection, faults, ids);
      }
      if ResetFetch in faults.calls {
        return false;
      }
      fetch := false;
      if ResetCopy in faults.calls {
        return false;
      }
      copy := false;
      if !ok || MarkDone in faults.calls {
        return false;
      }
      finished := true;
    }
  }

  /** Both settings are off again exactly when the second was not left unset behind the first, and both resets work. */
  lemma SettingsResetIff(s: State, selection: Selection, faults: Faults)
    requires !s.fetch && !s.copy
    ensures var after := Task(s, selection, faults).0;
            (!after.fetch && !after.copy) <==>
            (EnableFetch in faults.calls ||
             (EnableCopy !in faults.calls && ResetFetch !in faults.calls && ResetCopy !in faults.calls))
  {
    BodyKeepsSettings(s.(fetch := true, copy := true), selection, faults);
  }

  /** A setting left on in either way: the second one could not be enabled, or the first one not be reset. */
  lemma SettingsStayOn(s: State, selection: Selection)
    ensures Task(s, selection, Faults({EnableCopy}, {})).0.fetch
    ensures Task(s, selection, Faults({ResetFetch}, {})).0.fetch && Task(s, selection, Faults({ResetFetch}, {})).0.copy
  {
    BodyKeepsSettings(s.(fetch := true, copy := true), selection, Faults({ResetFetch}, {}));
  }

  lemma BodyKeepsSettings(s: State, selection: Selection, faults: Faults)
    ensures var after := Body(s, selection, faults).0;
            after.fetch == s.fetch && after.copy == s.copy && after.finished == s.finished
  {
    var hidden := faults.unlisted * s.detached;
    var ids := Listed(selection.listing, hidden, selection, Start(selection, s.checkpoint));
    ProcessKeepsSettings(s.(missed := s.missed + hidden, checkpoint := None), ids, faults);
  }

  lemma {:induction false} ProcessKeepsSettings(s: State, ids: seq<Id>, faults: Faults)
    ensures var after := Process(s, ids, faults).0;
            && after.fetch == s.fetch && after.copy == s.copy && after.finished == s.finished
            && after.missed == s.missed && s.completed <= after.completed
    decreases |ids|
  {
    if ids != [] {
      var id := ids[0];
      ProcessKeepsSettings(Reattached(s, id), ids[1..], faults);
    }
  }

  // ---------------------------------------------------------------- no selected partition is skipped

  ghost predicate Selected(selection: Selection, id: Id) {
    id in selection.listing && selection.chosen(id) && AtLeast(id, selection.least, selection.le)
  }

  /** Completed and attached, or still detached and left out of a listing for that. */
  ghost predicate Settled(s: State, id: Id) {
    if id in s.detached then id in s.missed else id in s.completed
  }

  /** A run from here would not come past the partition. */
  ghost predicate Passed(selection: Selection, checkpoint: Option<Id>, id: Id) {
    !AtLeast(id, Start(selection, checkpoint), selection.le)
  }

  ghost predicate NothingSkipped(selection: Selection, s: State) {
    forall id :: Selected(selection, id) && (s.finished || Passed(selection, s.checkpoint, id)) ==> Settled(s, id)
  }

  /** Tables without saved state start out with nothing skipped. */
  lemma FreshSkipsNothing(selection: Selection, s: State)
    requires s.checkpoint.None? && !s.finished
    ensures NothingSkipped(selection, s)
  {
  }

  lemma {:induction false} ListedHas(listing: seq<Id>, hidden: set<Id>, selection: Selection, start: Option<Id>, id: Id)
    ensures id in Listed(listing, hidden, selection, start) <==>
              id in listing && id !in hidden && selection.chosen(id) && AtLeast(id, start, selection.le)
  {
    if listing != [] {
      ListedHas(listing[1..], hidden, selection, start, id);
    }
  }

  ghost predicate Ascending(ids: seq<Id>, le: (Id, Id) -> bool) {
    forall i, j :: 0 <= i < j < |ids| ==> !le(ids[j], ids[i])
  }

  lemma {:induction false} ListedAscends(listing: seq<Id>, hidden: set<Id>, selection: Selection, start: Option<Id>)
    requires Ascending(listing, selection.le)
    ensures Ascending(Listed(listing, hidden, selection, start), selection.le)
  {
    if listing != [] {
      var ids := Listed(listing[1..], hidden, selection, start);
      ListedAscends(listing[1..], hidden, selection, start);
      forall j | 0 <= j < |ids| ensures !selection.le(ids[j], listing[0]) {
        ListedHas(listing[1..], hidden, selection, start, ids[j]);
      }
    }
  }

  lemma FirstIsAlone(ids: seq<Id>, le: (Id, Id) -> bool)
    requires ids != [] && Ascending(ids, le) && forall a, b :: le(a, b) || le(b, a)
    ensures ids[0] !in ids[1..]
  {
    forall j | 1 <= j < |ids| ensures ids[j] != ids[0] {
      assert !le(ids[j], ids[0]);
    }
  }

  /** After the loop, what is listed below a saved checkpoint is complete; without a failure everything is. */
  lemma {:induction false} ProcessSettles(s: State, ids: seq<Id>, faults: Faults, le: (Id, Id) -> bool, k: int)
    requires 0 <= k < |ids| && Ascending(ids, le) && s.checkpoint.None?
    requires forall a, b :: le(a, b) || le(b, a)
    ensures var (after, ok) := Process(s, ids, faults);
            && (ok ==> after.checkpoint.None? && ids[k] in after.completed && ids[k] !in after.detached)
            && (after.checkpoint.Some? && !le(after.checkpoint.value, ids[k]) ==>
                  ids[k] in after.completed && ids[k] !in after.detached)
    decreases |ids|
  {
    var id := ids[0];
    if Detach(id) !in faults.calls && Attach(id) !in faults.calls {
      var next := Reattached(s, id);
      if k > 0 {
        ProcessSettles(next, ids[1..], faults, le, k - 1);
      } else {
        FirstIsAlone(ids, le);
        OthersStay(next, ids[1..], faults, id, le);
      }
    } else {
      assert k > 0 ==> !le(ids[k], id);
      assert le(id, ids[k]);
    }
  }

  lemma {:induction false} OthersStay(s: State, ids: seq<Id>, faults: Faults, id: Id, le: (Id, Id) -> bool)
    requires id !in ids && s.checkpoint.None?
    ensures var (after, ok) := Process(s, ids, faults);
            && (ok ==> after.checkpoint.None?)
            && (id in s.completed ==> id in after.completed)
            && (id in after.detached <==> id in s.detached)
    decreases |ids|
  {
    if ids != [] {
      var first := ids[0];
      OthersStay(Reattached(s, first), ids[1..], faults, id, le);
    }
  }

  /** One pass of the loop over what was listed from `start` on. */
  lemma {:induction false} LoopKeepsPartition(
    s: State, selection: Selection, faults: Faults, hidden: set<Id>, start: Option<Id>, id: Id)
    requires selection.Valid() && s.checkpoint.None? && Selected(selection, id)
    requires hidden <= s.missed && hidden <= s.detached && (!AtLeast(id, start, selection.le) ==> Settled(s, id))
    ensures var (after, ok) := Process(s, Listed(selection.listing, hidden, selection, start), faults);
            (ok || Passed(selection, after.checkpoint, id)) ==> Settled(after, id)
  {
    var ids := Listed(selection.listing, hidden, selection, start);
    var (after, ok) := Process(s, ids, faults);
    ListedHas(selection.listing, hidden, selection, start, id);
    ListedAscends(selection.listing, hidden, selection, start);
    ProcessKeepsSettings(s, ids, faults);
    if id in ids {
      var k :| 0 <= k < |ids| && ids[k] == id;
      ProcessSettles(s, ids, faults, selection.le, k);
      if Truthy(selection.least) {
        StartIsNotPastArgument(selection, after.checkpoint, id);
      }
    } else {
      OthersStay(s, ids, faults, id, selection.le);
    }
  }

  lemma BodyKeepsPartition(s: State, selection: Selection, faults: Faults, id: Id)
    requires selection.Valid() && Selected(selection, id) && !s.finished
    requires Passed(selection, s.checkpoint, id) ==> Settled(s, id)
    ensures var (after, ok) := Body(s, selection, faults);
            (ok || Passed(selection, after.checkpoint, id)) ==> Settled(after, id)
  {
    var hidden := faults.unlisted * s.detached;
    var begun := s.(missed := s.missed + hidden, checkpoint := None);
    LoopKeepsPartition(begun, selection, faults, hidden, Start(selection, s.checkpoint), id);
  }

  /** A run on one table skips nothing, and one that succeeds has settled every selected partition. */
  lemma TaskSkipsNothing(s: State, selection: Selection, faults: Faults)
    requires selection.Valid() && NothingSkipped(selection, s) && !s.finished
    ensures var (after, ok) := Task(s, selection, faults);
            NothingSkipped(selection, after) && (ok ==> after.finished)
  {
    var (after, ok) := Task(s, selection, faults);
    var set2 := s.(fetch := true, copy := true);
    BodyKeepsSettings(set2, selection, faults);
    forall id | Selected(selection, id) && (after.finished || Passed(selection, after.checkpoint, id))
      ensures Settled(after, id)
    {
      BodyKeepsPartition(set2, selection, faults, id);
    }
  }

  // ---------------------------------------------------------------- where a run resumes, and what it works on

  /** At or after one of the bounds given, the least partition of the call or the checkpoint; all, if there is none. */
  ghost predicate InReach(selection: Selection, checkpoint: Option<Id>, id: Id) {
    var least := selection.least;
    || ((least == None || least == Some("")) && (checkpoint == None || checkpoint == Some("")))
    || (least.Some? && least.value != "" && selection.le(least.value, id))
    || (checkpoint.Some? && checkpoint.value != "" && selection.le(checkpoint.value, id))
  }

  /** The partitions a run has to work on: those chosen that its listing shows, in reach. */
  ghost function Due(s: State, selection: Selection, faults: Faults): set<Id> {
    set id | id in selection.listing && selection.chosen(id) && !(id in s.detached && id in faults.unlisted) &&
             InReach(selection, s.checkpoint, id)
  }

  ghost predicate Fails(id: Id, faults: Faults) {
    Detach(id) in faults.calls || Attach(id) in faults.calls
  }

  /** The run gets to its first partition. */
  ghost predicate Begins(s: State, faults: Faults) {
    && EnableFetch !in faults.calls && EnableCopy !in faults.calls
    && ReadCheckpoint !in faults.calls && ListPartitions !in faults.calls
    && (s.checkpoint.Some? ==> Forget !in faults.calls)
  }

  /** What was worked on in between: exactly these partitions, once each and in ascending order. */
  ghost predicate Touched(s: State, after: State, ids: set<Id>, le: (Id, Id) -> bool) {
    && s.touched <= after.touched
    && Ascending(after.touched[|s.touched|..], le)
    && forall id :: id in after.touched[|s.touched|..] <==> id in ids
  }

  /** The partitions due that come before this one. */
  ghost function Before(due: set<Id>, id: Id, le: (Id, Id) -> bool): set<Id> {
    set x | x in due && !le(id, x)
  }

  /** The list of a run, without the bound it starts from. */
  lemma {:induction false} ListedIsDue(s: State, selection: Selection, faults: Faults)
    requires selection.Valid()
    ensures var ids := Listed(selection.listing, faults.unlisted * s.detached, selection, Start(selection, s.checkpoint));
            Ascending(ids, selection.le) && forall id :: id in ids <==> id in Due(s, selection, faults)
  {
    var hidden, start := faults.unlisted * s.detached, Start(selection, s.checkpoint);
    var ids := Listed(selection.listing, hidden, selection, start);
    ListedAscends(selection.listing, hidden, selection, start);
    forall id ensures id in ids <==> id in Due(s, selection, faults) {
      ListedHas(selection.listing, hidden, selection, start, id);
    }
  }

  /** The state once these partitions are worked on without a failure. */
  ghost function Through(s: State, ids: seq<Id>): State {
    var done := set id | id in ids;
    s.(completed := s.completed + done, detached := s.detached - done, touched := s.touched + ids)
  }

  lemma ThroughOneMore(s: State, ids: seq<Id>, id: Id)
    ensures Reattached(Through(s, ids), id) == Through(s, ids + [id])
  {
    var done := set x | x in ids;
    assert (set x | x in ids + [id]) == done + {id};
    assert s.completed + done + {id} == s.completed + (done + {id});
    assert s.detached - done - {id} == s.detached - (done + {id});
    assert s.touched + ids + [id] == s.touched + (ids + [id]);
  }

  /** The loop past its first n partitions. */
  lemma {:induction false} LoopGoesOn(s: State, ids: seq<Id>, faults: Faults, n: nat)
    requires n <= |ids| && forall i :: 0 <= i < n ==> !Fails(ids[i], faults)
    ensures Process(s, ids, faults) == Process(Through(s, ids[..n]), ids[n..], faults)
  {
    if n == 0 {
      assert Through(s, []) == s;
      assert ids[..0] == [] && ids[0..] == ids;
    } else {
      LoopGoesOn(s, ids, faults, n - 1);
      ThroughOneMore(s, ids[..n - 1], ids[n - 1]);
      assert ids[..n - 1] + [ids[n - 1]] == ids[..n];
      assert ids[n - 1..][0] == ids[n - 1] && ids[n - 1..][1..] == ids[n..];
    }
  }

  /** The loop as a run enters it. */
  lemma {:induction false} TaskIsLoop(s: State, selection: Selection, faults: Faults, ids: seq<Id>)
    requires Begins(s, faults)
    requires ids == Listed(selection.listing, faults.unlisted * s.detached, selection, Start(selection, s.checkpoint))
    ensures var begun := s.(fetch := true, copy := true, missed := s.missed + faults.unlisted * s.detached, checkpoint := None);
            var (after, ok) := Task(s, selection, faults);
            var (looped, done) := Process(begun, ids, faults);
            && after.completed == looped.completed && after.detached == looped.detached
            && after.touched == looped.touched && after.checkpoint == looped.checkpoint
            && (ok <==> done && {Sync, ResetFetch, ResetCopy, MarkDone} !! faults.calls)
  {
    assert {Sync, ResetFetch, ResetCopy, MarkDone} !! faults.calls <==>
             Sync !in faults.calls && ResetFetch !in faults.calls && ResetCopy !in faults.calls && MarkDone !in faults.calls;
  }

  /** A run that does not get to its first partition changes nothing that concerns them. */
  lemma NothingBegun(s: State, selection: Selection, faults: Faults)
    requires !Begins(s, faults)
    ensures var (after, ok) := Task(s, selection, faults);
            && !ok && after.touched == s.touched && after.checkpoint == s.checkpoint
            && after.completed == s.completed && after.detached == s.detached && after.finished == s.finished
  {
  }

  /** A run in which no partition due fails: each of them is detached and attached once, in ascending order. */
  lemma RunWorksThrough(s: State, selection: Selection, faults: Faults)
    requires selection.Valid() && Begins(s, faults)
    requires forall id :: id in Due(s, selection, faults) ==> !Fails(id, faults)
    ensures var (after, ok) := Task(s, selection, faults);
            var due := Due(s, selection, faults);
            && Touched(s, after, due, selection.le) && after.checkpoint == None
            && after.completed == s.completed + due && after.detached == s.detached - due
            && (ok <==> {Sync, ResetFetch, ResetCopy, MarkDone} !! faults.calls)
  {
    var ids := Listed(selection.listing, faults.unlisted * s.detached, selection, Start(selection, s.checkpoint));
    var begun := s.(fetch := true, copy := true, missed := s.missed + faults.unlisted * s.detached, checkpoint := None);
    ListedIsDue(s, selection, faults);
    TaskIsLoop(s, selection, faults, ids);
    LoopGoesOn(begun, ids, faults, |ids|);
    assert ids[..|ids|] == ids && ids[|ids|..] == [];
    assert (set id | id in ids) == Due(s, selection, faults);
    assert (s.touched + ids)[|s.touched|..] == ids;
  }

  /**
   * A run that fails at a partition due, the first that does: those due ahead of it are worked through, and the failed
   * one is what it leaves as the checkpoint, if it can.
   */
  lemma RunStopsAt(s: State, selection: Selection, faults: Faults, failed: Id)
    requires selection.Valid() && Begins(s, faults)
    requires failed in Due(s, selection, faults) && Fails(failed, faults)
    requires forall id :: id in Due(s, selection, faults) && Fails(id, faults) ==> selection.le(failed, id)
    ensures var (after, ok) := Task(s, selection, faults);
            var before := Before(Due(s, selection, faults), failed, selection.le);
            && !ok && after.checkpoint == (if Save(failed) in faults.calls then None else Some(failed))
            && Touched(s, after, before + {failed}, selection.le)
            && after.completed == s.completed + before
            && after.detached == s.detached - before + (if Detach(failed) in faults.calls then {} else {failed})
  {
    var ids := Listed(selection.listing, faults.unlisted * s.detached, selection, Start(selection, s.checkpoint));
    var begun := s.(fetch := true, copy := true, missed := s.missed + faults.unlisted * s.detached, checkpoint := None);
    ListedIsDue(s, selection, faults);
    TaskIsLoop(s, selection, faults, ids);
    var k := FirstToFail(ids, Due(s, selection, faults), faults, failed, selection.le);
    LoopStops(begun, ids, faults, k);
    assert (s.touched + ids[..k + 1])[|s.touched|..] == ids[..k + 1];
  }

  lemma FirstToFail(ids: seq<Id>, due: set<Id>, faults: Faults, failed: Id, le: (Id, Id) -> bool) returns (k: nat)
    requires Ascending(ids, le) && (forall id :: id in ids <==> id in due) && TotalPreorder(le)
    requires failed in due && forall id :: id in due && Fails(id, faults) ==> le(failed, id)
    ensures k < |ids| && ids[k] == failed && forall i :: 0 <= i < k ==> !Fails(ids[i], faults)
    ensures (set id | id in ids[..k]) == Before(due, failed, le)
    ensures forall id :: id in ids[..k + 1] <==> id in Before(due, failed, le) + {failed}
  {
    k :| 0 <= k < |ids| && ids[k] == failed;
    forall i | 0 <= i < k ensures !Fails(ids[i], faults) {
      assert !le(failed, ids[i]) && ids[i] in due;
    }
    HeadIsBefore(ids, k, due, le);
    assert ids[..k + 1] == ids[..k] + [failed];
  }

  /** The loop up to the k-th, the first that fails. */
  lemma {:induction false} LoopStops(s: State, ids: seq<Id>, faults: Faults, k: nat)
    requires k < |ids| && Fails(ids[k], faults) && forall i :: 0 <= i < k ==> !Fails(ids[i], faults)
    ensures var (after, ok) := Process(s, ids, faults);
            var done := set id | id in ids[..k];
            && !ok && after.completed == s.completed + done
            && after.detached == s.detached - done + (if Detach(ids[k]) in faults.calls then {} else {ids[k]})
            && after.touched == s.touched + ids[..k + 1]
            && after.checkpoint == if Save(ids[k]) in faults.calls then s.checkpoint else Some(ids[k])
  {
    LoopGoesOn(s, ids, faults, k);
    assert ids[k..][0] == ids[k];
    assert s.touched + ids[..k] + [ids[k]] == s.touched + ids[..k + 1];
    var through := Through(s, ids[..k]);
    assert through.detached + {} == through.detached;
  }

  lemma HeadIsBefore(ids: seq<Id>, k: nat, due: set<Id>, le: (Id, Id) -> bool)
    requires k < |ids| && Ascending(ids, le) && (forall id :: id in ids <==> id in due) && TotalPreorder(le)
    ensures (set id | id in ids[..k]) == Before(due, ids[k], le)
  {
    forall id ensures id in ids[..k] <==> id in Before(due, ids[k], le) {
      if id in due && !le(ids[k], id) {
        var i :| 0 <= i < |ids| && ids[i] == id;
        assert i < k;
        assert ids[..k][i] == id;
      }
      if id in ids[..k] {
        var i :| 0 <= i < k && ids[i] == id;
        assert !le(ids[k], ids[i]);
      }
    }
  }

  /** A run succeeds, and marks its table, exactly when it begins, no partition due fails and the rest works. */
  lemma {:induction false} RunSucceedsIff(s: State, selection: Selection, faults: Faults)
    requires selection.Valid() && !s.finished
    ensures var (after, ok) := Task(s, selection, faults);
            && after.finished == ok
            && (ok <==>
                  && Begins(s, faults) && (forall id :: id in Due(s, selection, faults) ==> !Fails(id, faults))
                  && {Sync, ResetFetch, ResetCopy, MarkDone} !! faults.calls)
  {
    var ids := Listed(selection.listing, faults.unlisted * s.detached, selection, Start(selection, s.checkpoint));
    var begun := s.(fetch := true, copy := true, missed := s.missed + faults.unlisted * s.detached, checkpoint := None);
    BodyKeepsSettings(s.(fetch := true, copy := true), selection, faults);
    if !Begins(s, faults) {
      NothingBegun(s, selection, faults);
    } else if id :| id in Due(s, selection, faults) && Fails(id, faults) {
      ListedIsDue(s, selection, faults);
      TaskIsLoop(s, selection, faults, ids);
      LoopFails(begun, ids, faults, id);
    } else {
      RunWorksThrough(s, selection, faults);
    }
  }

  lemma {:induction false} LoopFails(s: State, ids: seq<Id>, faults: Faults, id: Id)
    requires id in ids && Fails(id, faults)
    ensures !Process(s, ids, faults).1
    decreases |ids|
  {
    if !Fails(ids[0], faults) {
      assert id in ids[1..];
      LoopFails(Reattached(s, ids[0]), ids[1..], faults, id);
    }
  }

  /** What goes wrong below the bound a run resumes from makes no difference to it. */
  lemma {:induction false} FaultsOutOfReach(s: State, selection: Selection, faults: Faults, others: Faults)
    requires selection.Valid() && faults.unlisted == others.unlisted
    requires forall call :: (call in faults.calls) != (call in others.calls) ==>
               (call.Detach? || call.Attach? || call.Save?) && !InReach(selection, s.checkpoint, call.id)
    ensures Task(s, selection, faults) == Task(s, selection, others)
  {
    var begun := s.(fetch := true, copy := true, missed := s.missed + faults.unlisted * s.detached, checkpoint := None);
    var ids := Listed(selection.listing, faults.unlisted * s.detached, selection, Start(selection, s.checkpoint));
    ListedIsDue(s, selection, faults);
    assert forall id :: id in ids ==> InReach(selection, s.checkpoint, id);
    SameLoop(begun, ids, faults, others);
    SameTask(s, selection, faults, others);
  }

  /** The calls that do not concern one partition. */
  ghost predicate SameAround(faults: Faults, others: Faults) {
    && (EnableFetch in faults.calls <==> EnableFetch in others.calls)
    && (EnableCopy in faults.calls <==> EnableCopy in others.calls)
    && (ReadCheckpoint in faults.calls <==> ReadCheckpoint in others.calls)
    && (ListPartitions in faults.calls <==> ListPartitions in others.calls)
    && (Forget in faults.calls <==> Forget in others.calls)
    && (Sync in faults.calls <==> Sync in others.calls)
    && (ResetFetch in faults.calls <==> ResetFetch in others.calls)
    && (ResetCopy in faults.calls <==> ResetCopy in others.calls)
    && (MarkDone in faults.calls <==> MarkDone in others.calls)
  }

  lemma {:induction false} SameTask(s: State, selection: Selection, faults: Faults, others: Faults)
    requires faults.unlisted == others.unlisted && SameAround(faults, others)
    requires var begun := s.(fetch := true, copy := true, missed := s.missed + faults.unlisted * s.detached, checkpoint := None);
             var ids := Listed(selection.listing, faults.unlisted * s.detached, selection, Start(selection, s.checkpoint));
             Process(begun, ids, faults) == Process(begun, ids, others)
    ensures Task(s, selection, faults) == Task(s, selection, others)
  {
    var on := s.(fetch := true, copy := true);
    assert Body(on, selection, faults) == Body(on, selection, others);
  }

  lemma {:induction false} SameLoop(s: State, ids: seq<Id>, faults: Faults, others: Faults)
    requires forall id :: id in ids ==>
               && (Detach(id) in faults.calls <==> Detach(id) in others.calls)
               && (Attach(id) in faults.calls <==> Attach(id) in others.calls)
               && (Save(id) in faults.calls <==> Save(id) in others.calls)
    ensures Process(s, ids, faults) == Process(s, ids, others)
    decreases |ids|
  {
    if ids != [] {
      SameLoop(Reattached(s, ids[0]), ids[1..], faults, others);
    }
  }

  /**
   * A run behind one that failed and saved where: it works on the chosen partitions it sees from the failed one on, and
   * on those from the least partition of the call on, if one is given.
   */
  lemma NextRunResumes(s: State, selection: Selection, faults: Faults, failed: Id, next: Faults)
    requires selection.Valid() && Begins(s, faults) && !s.finished && failed != ""
    requires failed in Due(s, selection, faults) && Fails(failed, faults) && Save(failed) !in faults.calls
    requires forall id :: id in Due(s, selection, faults) && Fails(id, faults) ==> selection.le(failed, id)
    requires var after := Task(s, selection, faults).0;
             Begins(after, next) && forall id :: id in Due(after, selection, next) ==> !Fails(id, next)
    ensures var after := Task(s, selection, faults).0;
            var again := Task(after, selection, next).0;
            && after.checkpoint == Some(failed) && again.checkpoint == None
            && after.touched <= again.touched && Ascending(again.touched[|after.touched|..], selection.le)
            && forall id :: id in again.touched[|after.touched|..] <==>
                 && id in selection.listing && selection.chosen(id) && !(id in after.detached && id in next.unlisted)
                 && (|| selection.le(failed, id)
                     || (selection.least.Some? && selection.least.value != "" && selection.le(selection.least.value, id)))
  {
    var after := Task(s, selection, faults).0;
    RunStopsAt(s, selection, faults, failed);
    RunSucceedsIff(s, selection, faults);
    RunWorksThrough(after, selection, next);
  }

  // ---------------------------------------------------------------- any number of runs over all tables

  datatype Attempt = Skipped | Started(faults: Faults)

  /** A run: whether it begins by dropping the saved state, what became of each table, whether it could clean up. */
  datatype Run = Run(ignoreSaved: bool, attempts: map<string, Attempt>, cleanup: bool)

  type Tables = map<string, State>

  function Forgotten(s: State): State {
    s.(checkpoint := None, finished := false)
  }

  function Begun(s: State, run: Run): State {
    if run.ignoreSaved then Forgotten(s) else s
  }

  /** One table in a run; a table that is marked as done is left alone. */
  function RunTable(s: State, selection: Selection, run: Run, name: string): (State, bool) {
    var begun := Begun(s, run);
    if begun.finished then (begun, true)
    else if name in run.attempts && run.attempts[name].Started? then Task(begun, selection, run.attempts[name].faults)
    else (begun, false)
  }

  predicate Succeeds(tables: Tables, selections: map<string, Selection>, run: Run)
    requires tables.Keys <= selections.Keys
  {
    forall t :: t in tables ==> RunTable(tables[t], selections[t], run, t).1
  }

  function Worked(tables: Tables, selections: map<string, Selection>, run: Run): Tables
    requires tables.Keys <= selections.Keys
  {
    map t | t in tables :: RunTable(tables[t], selections[t], run, t).0
  }

  /** `deduplicate`: a run that succeeds removes everything it kept in ZooKeeper. */
  function AfterRun(tables: Tables, selections: map<string, Selection>, run: Run): (after: Tables)
    requires tables.Keys <= selections.Keys
    ensures after.Keys == tables.Keys
  {
    var worked := Worked(tables, selections, run);
    if Succeeds(tables, selections, run) && run.cleanup then map t | t in worked :: Forgotten(worked[t]) else worked
  }

  /** What a run finds saved: the mark of a table and its checkpoint count unless the run drops them first. */
  lemma SavedStateCounts(s: State, selection: Selection, run: Run, name: string)
    requires name in run.attempts && run.attempts[name].Started?
    ensures var faults := run.attempts[name].faults;
            && (run.ignoreSaved ==>
                  RunTable(s, selection, run, name) == Task(s.(checkpoint := None, finished := false), selection, faults))
            && (!run.ignoreSaved && !s.finished ==> RunTable(s, selection, run, name) == Task(s, selection, faults))
            && (!run.ignoreSaved && s.finished ==> RunTable(s, selection, run, name) == (s, true))
  {
  }

  /** A run that leaves every table marked as done forgets marks and checkpoints, if it can; any other keeps them. */
  lemma CleansUpIff(tables: Tables, selections: map<string, Selection>, run: Run)
    requires tables.Keys <= selections.Keys && forall t :: t in tables ==> selections[t].Valid()
    ensures var worked, after := Worked(tables, selections, run), AfterRun(tables, selections, run);
            && ((forall t :: t in tables ==> worked[t].finished) && run.cleanup ==>
                  forall t :: t in tables ==> after[t] == worked[t].(checkpoint := None, finished := false))
            && (!((forall t :: t in tables ==> worked[t].finished) && run.cleanup) ==> after == worked)
  {
    forall t | t in tables
      ensures RunTable(tables[t], selections[t], run, t).1 <==> Worked(tables, selections, run)[t].finished
    {
      var begun := Begun(tables[t], run);
      if !begun.finished && t in run.attempts && run.attempts[t].Started? {
        RunSucceedsIff(begun, selections[t], run.attempts[t].faults);
      }
    }
  }

  function AfterRuns(tables: Tables, selections: map<string, Selection>, runs: seq<Run>): (after: Tables)
    requires tables.Keys <= selections.Keys
    ensures after.Keys == tables.Keys
  {
    if runs == [] then tables
    else AfterRun(AfterRuns(tables, selections, runs[..|runs| - 1]), selections, runs[|runs| - 1])
  }

  ghost predicate NoneSkipped(tables: Tables, selections: map<string, Selection>)
    requires tables.Keys <= selections.Keys
  {
    forall t :: t in tables ==> selections[t].Valid() && NothingSkipped(selections[t], tables[t])
  }

  lemma RunTableSkipsNothing(s: State, selection: Selection, run: Run, name: string)
    requires selection.Valid() && NothingSkipped(selection, s)
    ensures var (after, ok) := RunTable(s, selection, run, name);
            NothingSkipped(selection, after) && (ok ==> after.finished)
  {
    var begun := Begun(s, run);
    if !begun.finished && name in run.attempts && run.attempts[name].Started? {
      TaskSkipsNothing(begun, selection, run.attempts[name].faults);
    }
  }

  lemma {:induction false} RunsSkipNothing(tables: Tables, selections: map<string, Selection>, runs: seq<Run>)
    requires tables.Keys <= selections.Keys && NoneSkipped(tables, selections)
    ensures NoneSkipped(AfterRuns(tables, selections, runs), selections)
  {
    if runs != [] {
      var before, run := AfterRuns(tables, selections, runs[..|runs| - 1]), runs[|runs| - 1];
      RunsSkipNothing(tables, selections, runs[..|runs| - 1]);
      var after := AfterRun(before, selections, run);
      forall t | t in after ensures selections[t].Valid() && NothingSkipped(selections[t], after[t]) {
        RunTableSkipsNothing(before[t], selections[t], run, t);
      }
    }
  }

  /**
   * After any runs and then one that succeeds, every selected partition of every table has been completed and is
   * attached, unless a failed attach has left it detached and some run listed the table without it.
   */
  lemma {:induction false} EveryPartitionSettled(
      tables: Tables, selections: map<string, Selection>, runs: seq<Run>, last: Run)
    requires tables.Keys <= selections.Keys && NoneSkipped(tables, selections)
    requires Succeeds(AfterRuns(tables, selections, runs), selections, last)
    ensures var final := Worked(AfterRuns(tables, selections, runs), selections, last);
            forall t, id :: t in final && Selected(selections[t], id) ==> Settled(final[t], id)
  {
    var before := AfterRuns(tables, selections, runs);
    var final := Worked(before, selections, last);
    RunsSkipNothing(tables, selections, runs);
    forall t, id | t in final && Selected(selections[t], id) ensures Settled(final[t], id) {
      RunTableSkipsNothing(before[t], selections[t], last, t);
    }
  }

  /** Tables without saved state. */
  ghost predicate Fresh(tables: Tables, selections: map<string, Selection>)
    requires tables.Keys <= selections.Keys
  {
    forall t :: t in tables ==> selections[t].Valid() && tables[t].checkpoint.None? && !tables[t].finished
  }

  lemma FreshTables(tables: Tables, selections: map<string, Selection>)
    requires tables.Keys <= selections.Keys && Fresh(tables, selections)
    ensures NoneSkipped(tables, selections)
  {
    forall t | t in tables ensures NothingSkipped(selections[t], tables[t]) {
      FreshSkipsNothing(selections[t], tables[t]);
    }
  }

  /** The run would hide a detached partition: behind the mark, behind its start, or by its listing. */
  ghost predicate LeavesOut(s: State, selection: Selection, run: Run, name: string, id: Id) {
    && id in s.detached
    && (|| Begun(s, run).finished
        || Passed(selection, Begun(s, run).checkpoint, id)
        || (name in run.attempts && run.attempts[name].Started? && id in run.attempts[name].faults.unlisted))
  }

  /** What a run that succeeds makes of a partition, by whether its listing has it. */
  lemma TaskCompletesIff(s: State, selection: Selection, faults: Faults, id: Id)
    requires selection.Valid() && NothingSkipped(selection, s) && !s.finished
    requires Selected(selection, id) && Task(s, selection, faults).1
    ensures var after := Task(s, selection, faults).0;
            (id in after.completed && id !in after.detached) <==>
            !(id in s.detached && (Passed(selection, s.checkpoint, id) || id in faults.unlisted))
  {
    var hidden, start := faults.unlisted * s.detached, Start(selection, s.checkpoint);
    var ids := Listed(selection.listing, hidden, selection, start);
    var begun := s.(fetch := true, copy := true, missed := s.missed + hidden, checkpoint := None);
    ListedHas(selection.listing, hidden, selection, start, id);
    ListedAscends(selection.listing, hidden, selection, start);
    if id in ids {
      var k :| 0 <= k < |ids| && ids[k] == id;
      ProcessSettles(begun, ids, faults, selection.le, k);
    } else {
      OthersStay(begun, ids, faults, id, selection.le);
    }
  }

  lemma RunTableCompletesIff(s: State, selection: Selection, run: Run, name: string, id: Id)
    requires selection.Valid() && NothingSkipped(selection, s)
    requires Selected(selection, id) && RunTable(s, selection, run, name).1
    ensures var after := RunTable(s, selection, run, name).0;
            (id in after.completed && id !in after.detached) <==> !LeavesOut(s, selection, run, name, id)
  {
    var begun := Begun(s, run);
    if begun.finished {
      assert Settled(s, id);
    } else {
      TaskCompletesIff(begun, selection, run.attempts[name].faults, id);
    }
  }

  /**
   * After any runs, one that succeeds leaves a selected partition completed and attached if and only if it does not
   * find it detached and out of its reach: the table marked as done, the partition below the start, or unlisted.
   */
  lemma {:induction false} CompletedIffNotLeftOut(
    tables: Tables, selections: map<string, Selection>, runs: seq<Run>, last: Run, t: string, id: Id)
    requires tables.Keys <= selections.Keys && NoneSkipped(tables, selections)
    requires Succeeds(AfterRuns(tables, selections, runs), selections, last)
    requires t in tables && Selected(selections[t], id)
    ensures var before := AfterRuns(tables, selections, runs);
            var final := Worked(before, selections, last)[t];
            (id in final.completed && id !in final.detached) <==> !LeavesOut(before[t], selections[t], last, t, id)
  {
    RunsSkipNothing(tables, selections, runs);
    RunTableCompletesIff(AfterRuns(tables, selections, runs)[t], selections[t], last, t, id);
  }

  ghost predicate ListsAll(run: Run) {
    forall t :: t in run.attempts && run.attempts[t].Started? ==> run.attempts[t].faults.unlisted == {}
  }

  ghost predicate NoneMissed(tables: Tables) {
    forall t :: t in tables ==> tables[t].missed == {}
  }

  ghost predicate AllListAll(runs: seq<Run>) {
    forall r :: 0 <= r < |runs| ==> ListsAll(runs[r])
  }

  lemma {:induction false} RunsMissNothing(tables: Tables, selections: map<string, Selection>, runs: seq<Run>)
    requires tables.Keys <= selections.Keys && NoneMissed(tables) && AllListAll(runs)
    ensures NoneMissed(AfterRuns(tables, selections, runs))
  {
    if runs != [] {
      var n := |runs| - 1;
      assert forall r :: 0 <= r < n ==> runs[..n][r] == runs[r];
      RunsMissNothing(tables, selections, runs[..n]);
      RunMissesNothing(AfterRuns(tables, selections, runs[..n]), selections, runs[n]);
    }
  }

  lemma RunMissesNothing(tables: Tables, selections: map<string, Selection>, run: Run)
    requires tables.Keys <= selections.Keys && NoneMissed(tables) && ListsAll(run)
    ensures NoneMissed(Worked(tables, selections, run)) && NoneMissed(AfterRun(tables, selections, run))
  {
    forall t | t in tables ensures RunTable(tables[t], selections[t], run, t).0.missed == {} {
      RunTableMissesNothing(tables[t], selections[t], run, t);
    }
  }

  lemma RunTableMissesNothing(s: State, selection: Selection, run: Run, name: string)
    requires ListsAll(run) && s.missed == {}
    ensures RunTable(s, selection, run, name).0.missed == {}
  {
    if name in run.attempts && run.attempts[name].Started? {
      var faults := run.attempts[name].faults;
      var begun := Begun(s, run);
      var on := begun.(fetch := true, copy := true);
      var hidden := faults.unlisted * on.detached;
      var ids := Listed(selection.listing, hidden, selection, Start(selection, on.checkpoint));
      ProcessKeepsSettings(on.(missed := on.missed + hidden, checkpoint := None), ids, faults);
    }
  }

  /** When a failed partition is always listed again, nothing selected is left out. */
  lemma {:induction false} EveryPartitionCompleted(
      tables: Tables, selections: map<string, Selection>, runs: seq<Run>, last: Run)
    requires tables.Keys <= selections.Keys && NoneSkipped(tables, selections)
    requires NoneMissed(tables) && AllListAll(runs) && ListsAll(last)
    requires Succeeds(AfterRuns(tables, selections, runs), selections, last)
    ensures var final := Worked(AfterRuns(tables, selections, runs), selections, last);
            forall t, id :: t in final && Selected(selections[t], id) ==>
              id in final[t].completed && id !in final[t].detached
  {
    var before := AfterRuns(tables, selections, runs);
    var final := Worked(before, selections, last);
    EveryPartitionSettled(tables, selections, runs, last);
    RunsMissNothing(tables, selections, runs);
    RunMissesNothing(before, selections, last);
    forall t, id | t in final && Selected(selections[t], id)
      ensures id in final[t].completed && id !in final[t].detached
    {
      assert Settled(final[t], id) && id !in final[t].missed;
    }
  }

  /** Without that, a partition stays detached for good: its attach fails and the next run does not see it. */
  lemma DetachedPartitionIsLost(s: State, selection: Selection, id: Id)
    requires s.checkpoint.None? && !s.finished && id !in s.completed
    requires selection.listing == [id] && selection.chosen(id) && AtLeast(id, selection.least, selection.le)
    ensures var (failed, ok) := Task(s, selection, Faults({Attach(id)}, {}));
            var (after, done) := Task(failed, selection, Faults({}, {id}));
            !ok && done && id in after.detached && id !in after.completed
  {
    var start := Start(selection, None);
    var (failed, ok) := Task(s, selection, Faults({Attach(id)}, {}));
    assert [id][1..] == [];
    assert Listed([id], {}, selection, start) == [id] by {
      assert Listed([], {}, selection, start) == [];
    }
    assert Faults({Attach(id)}, {}).unlisted * s.detached == {};
    assert failed.checkpoint == Some(id) && id in failed.detached;
    ListedHas([id], {id} * failed.detached, selection, Start(selection, failed.checkpoint), id);
    assert forall x :: x in Listed([id], {id} * failed.detached, selection, Start(selection, Some(id))) ==> x == id;
    assert Listed([id], {id} * failed.detached, selection, Start(selection, Some(id))) == [];
  }
}
