/** Deleting orphaned objects in batches, within a budget of bytes. */
module ObjectCleanup {
  import opened Chunks
  import opened CleanupStats
  import opened Sorting

  const KEYS_BATCH_SIZE := 1000
  const BULK_DELETE_CHUNK_SIZE := 1000

  /** What one bulk deletion request to the storage may name at most. */
  const REQUEST_LIMIT := 1000

  // ---------------------------------------------------------------- the budget

  lemma NotNegative(a: real, b: real)
    requires a >= 0.0 && b >= 0.0
    ensures a * b >= 0.0
  {
  }

  /** A share is no larger than the whole. */
  lemma ShareOfWhole(size: real, fraction: real)
    requires size >= 0.0 && 0.0 <= fraction <= 1.0
    ensures 0.0 <= size * fraction <= size
  {
    NotNegative(size, fraction);
    NotNegative(size, 1.0 - fraction);
    assert size * (1.0 - fraction) == size - size * fraction;
  }

  /** Python's `int` of a number that is not negative. */
  function Truncate(x: real): (n: nat)
    requires x >= 0.0
    ensures n as real <= x < n as real + 1.0
  {
    x.Floor
  }

  /** The smaller of the rounded-down share and a byte limit that is not zero. */
  function Limited(share: real, listing: nat, maxBytes: nat): (limit: nat)
    requires 0.0 <= share <= listing as real
    ensures limit as real <= share && limit <= listing
    ensures maxBytes != 0 ==> limit <= maxBytes
    ensures (maxBytes == 0 || limit < maxBytes) ==> share < limit as real + 1.0
  {
    var byFraction := Truncate(share);
    if maxBytes != 0 && maxBytes < byFraction then maxBytes else byFraction
  }

  /** `_calculate_size_limits`; the command line admits fractions from 0 to 1 and no negative sizes. */
  function SizeLimit(listing: nat, maxBytes: nat, fraction: real): (limit: nat)
    requires 0.0 <= fraction <= 1.0
    ensures limit as real <= listing as real * fraction && limit <= listing
    ensures maxBytes != 0 ==> limit <= maxBytes
    ensures (maxBytes == 0 || limit < maxBytes) ==> listing as real * fraction < limit as real + 1.0
  {
    ShareOfWhole(listing as real, fraction);
    Limited(listing as real * fraction, listing, maxBytes)
  }

  function BySize(): (Item, Item) -> bool {
    (a: Item, b: Item) => a.size <= b.size
  }

  // ---------------------------------------------------------------- specification

  /** A list cut from its end until it fits. */
  ghost function Trimmed(objects: seq<Item>, limit: nat): (kept: seq<Item>)
    ensures SizesOf(kept) <= limit && kept <= objects
  {
    if SizesOf(objects) <= limit then objects else Trimmed(objects[..|objects| - 1], limit)
  }

  /** What of one batch is deleted within the remaining budget. */
  ghost function Fitting(batch: seq<Item>, limit: nat): seq<Item> {
    if SizesOf(batch) <= limit then batch else Trimmed(Sort(batch, BySize()), limit)
  }

  lemma {:induction false} SizesAppend(a: seq<Item>, b: seq<Item>)
    ensures SizesOf(a + b) == SizesOf(a) + SizesOf(b)
  {
    if b == [] {
      assert a + b == a;
    } else {
      SizesAppend(a, b[..|b| - 1]);
      assert (a + b)[..|a + b| - 1] == a + b[..|b| - 1];
    }
  }

  // ---------------------------------------------------------------- the last batch keeps as many objects as possible

  lemma DropLast(s: seq<Item>)
    requires s != []
    ensures multiset(s) == multiset(s[..|s| - 1]) + multiset{s[|s| - 1]}
  {
    assert s == s[..|s| - 1] + [s[|s| - 1]];
  }

  lemma TakeOut(t: seq<Item>, x: Item) returns (rest: seq<Item>)
    requires x in t
    ensures multiset(t) == multiset(rest) + multiset{x} && |t| == |rest| + 1
    ensures SizesOf(t) == SizesOf(rest) + x.size
  {
    var i :| 0 <= i < |t| && t[i] == x;
    rest := t[..i] + t[i + 1..];
    assert t == t[..i] + ([x] + t[i + 1..]);
    SizesAppend(t[..i], [x] + t[i + 1..]);
    SizesAppend([x], t[i + 1..]);
    SizesAppend(t[..i], t[i + 1..]);
    assert SizesOf([x]) == x.size;
  }

  lemma LastIsLargest(s: seq<Item>, k: nat)
    requires 1 <= k <= |s| && SortedBy(s, BySize())
    ensures SizesOf(s[..k]) <= SizesOf(s[..|s| - 1][..k - 1]) + s[|s| - 1].size
  {
    assert s[..k][..k - 1] == s[..|s| - 1][..k - 1];
    assert k == |s| || BySize()(s[k - 1], s[|s| - 1]);
  }

  lemma SubtractOne(a: multiset<Item>, b: multiset<Item>, x: Item)
    requires a + multiset{x} <= b + multiset{x}
    ensures a <= b
  {
    forall y ensures a[y] <= b[y] {
      assert (a + multiset{x})[y] <= (b + multiset{x})[y];
    }
  }

  lemma SubtractAbsent(a: multiset<Item>, b: multiset<Item>, x: Item)
    requires a <= b + multiset{x} && x !in a
    ensures a <= b
  {
    forall y ensures a[y] <= b[y] {
      assert a[y] <= (b + multiset{x})[y];
    }
  }

  /** No choice of as many objects is smaller than the beginning of the sorted list. */
  lemma {:induction false} SmallestChoice(s: seq<Item>, t: seq<Item>)
    requires SortedBy(s, BySize()) && multiset(t) <= multiset(s)
    ensures |t| <= |s| && SizesOf(s[..|t|]) <= SizesOf(t)
  {
    if s == [] {
      SubListShorter(t, s);
    } else {
      var last, front := s[|s| - 1], s[..|s| - 1];
      DropLast(s);
      if last in t {
        var rest := TakeOut(t, last);
        SubtractOne(multiset(rest), multiset(front), last);
        SmallestChoice(front, rest);
        LastIsLargest(s, |t|);
      } else {
        SubtractAbsent(multiset(t), multiset(front), last);
        SmallestChoice(front, t);
        assert s[..|t|] == front[..|t|];
      }
    }
  }

  /** Cutting stops as soon as the list fits. */
  lemma {:induction false} TrimmedIsLongest(s: seq<Item>, limit: nat, k: nat)
    requires k <= |s| && SizesOf(s[..k]) <= limit
    ensures k <= |Trimmed(s, limit)|
  {
    if SizesOf(s) > limit {
      assert s[..|s|] == s;
      assert s[..k] == s[..|s| - 1][..k];
      TrimmedIsLongest(s[..|s| - 1], limit, k);
    }
  }

  lemma {:induction false} PrefixMembers(s: seq<Item>, k: nat)
    requires k <= |s|
    ensures multiset(s[..k]) <= multiset(s)
  {
    assert s == s[..k] + s[k..];
  }

  lemma SubListShorter(t: seq<Item>, batch: seq<Item>)
    requires multiset(t) <= multiset(batch)
    ensures |t| <= |batch|
  {
    var rest := multiset(batch) - multiset(t);
    assert multiset(batch) == multiset(t) + rest;
    assert |multiset(batch)| == |multiset(t)| + |rest|;
  }

  /** What is kept of a batch is part of it and fits, and no other choice of objects that fits has more. */
  lemma {:induction false} FittingIsLargest(batch: seq<Item>, limit: nat, t: seq<Item>)
    requires multiset(t) <= multiset(batch) && SizesOf(t) <= limit
    ensures |t| <= |Fitting(batch, limit)|
  {
    if SizesOf(batch) <= limit {
      SubListShorter(t, batch);
    } else {
      var sorted := Sort(batch, BySize());
      SortKeepsMembers(batch, BySize());
      SortIsSorted(batch, BySize());
      SmallestChoice(sorted, t);
      TrimmedIsLongest(sorted, limit, |t|);
    }
  }

  lemma FittingIsPart(batch: seq<Item>, limit: nat)
    ensures multiset(Fitting(batch, limit)) <= multiset(batch) && SizesOf(Fitting(batch, limit)) <= limit
  {
    if SizesOf(batch) > limit {
      var sorted := Sort(batch, BySize());
      SortKeepsMembers(batch, BySize());
      var kept := Trimmed(sorted, limit);
      assert sorted[..|kept|] == kept;
      PrefixMembers(sorted, |kept|);
    }
  }

  // ---------------------------------------------------------------- the whole stream

  /** What of the budget is left. */
  ghost function Room(used: seq<Item>, limit: nat): nat {
    if SizesOf(used) <= limit then limit - SizesOf(used) else 0
  }

  /** What is deleted when `whole` fits the budget and `batch` after it does not. */
  ghost predicate CutIn(deleted: seq<Item>, whole: seq<Item>, batch: seq<Item>, limit: nat) {
    && SizesOf(whole) <= limit < SizesOf(whole) + SizesOf(batch)
    && deleted == whole + Fitting(batch, Room(whole, limit))
  }

  /** All batches are deleted, or all before the first that exceeds the budget and what fits of that one. */
  ghost predicate Outcome(deleted: seq<Item>, batches: seq<seq<Item>>, k: nat, limit: nat) {
    && k <= |batches|
    && (k == |batches| ==> SizesOf(deleted) <= limit && deleted == Flatten(batches))
    && (k < |batches| ==> CutIn(deleted, Flatten(batches[..k]), batches[k], limit))
  }

  /** Whatever the stream, what is deleted fits the budget. */
  lemma {:induction false} OutcomeFits(deleted: seq<Item>, batches: seq<seq<Item>>, k: nat, limit: nat)
    requires Outcome(deleted, batches, k, limit)
    ensures SizesOf(deleted) <= limit
  {
    if k < |batches| {
      CutFits(deleted, Flatten(batches[..k]), batches[k], limit);
    }
  }

  lemma {:induction false} CutFits(deleted: seq<Item>, whole: seq<Item>, batch: seq<Item>, limit: nat)
    requires CutIn(deleted, whole, batch, limit)
    ensures SizesOf(deleted) <= limit
  {
    FittingIsPart(batch, Room(whole, limit));
    FitsBehind(whole, Fitting(batch, Room(whole, limit)), limit);
  }

  lemma {:induction false} FitsBehind(whole: seq<Item>, kept: seq<Item>, limit: nat)
    requires SizesOf(whole) + SizesOf(kept) <= limit
    ensures SizesOf(whole + kept) <= limit
  {
    SizesAppend(whole, kept);
  }

  /** Nothing larger in number could have been taken of the batch that is cut. */
  lemma {:induction false} CutKeepsMost(
      deleted: seq<Item>, whole: seq<Item>, batch: seq<Item>, limit: nat, other: seq<Item>)
    requires CutIn(deleted, whole, batch, limit)
    requires multiset(other) <= multiset(batch) && SizesOf(whole) + SizesOf(other) <= limit
    ensures |whole| + |other| <= |deleted|
  {
    KeptBehind(whole, batch, Room(whole, limit), other);
  }

  lemma {:induction false} KeptBehind(whole: seq<Item>, batch: seq<Item>, room: nat, other: seq<Item>)
    requires multiset(other) <= multiset(batch) && SizesOf(other) <= room
    ensures |whole| + |other| <= |whole + Fitting(batch, room)|
  {
    FittingIsLargest(batch, room, other);
  }

  // ---------------------------------------------------------------- the code

  /** Whether the reply to a request, by its number, reports an error for a key, which then stays. */
  type Refusals = (nat, string) -> bool

  ghost predicate Accepted(items: seq<Item>, refuses: Refusals, first: nat, i: int) {
    0 <= i < |items| && !refuses(first + i / 1000, items[i].path)
  }

  /** The keys that requests from number `first` on remove, each naming as many of the items as it may. */
  ghost function Removed(items: seq<Item>, refuses: Refusals, first: nat): set<string> {
    set i | 0 <= i < |items| && Accepted(items, refuses, first, i) :: items[i].path
  }

  function RequestsFor(n: nat): nat {
    (n + 999) / 1000
  }

  lemma RemovedHas(items: seq<Item>, refuses: Refusals, first: nat, i: nat)
    requires Accepted(items, refuses, first, i)
    ensures items[i].path in Removed(items, refuses, first)
  {
  }

  /** Full requests first, then those for the rest. */
  lemma RemovedAppend(a: seq<Item>, b: seq<Item>, refuses: Refusals, first: nat, requests: nat)
    requires |a| == requests * 1000
    ensures Removed(a + b, refuses, first) == Removed(a, refuses, first) + Removed(b, refuses, first + requests)
  {
    var all := a + b;
    forall i | 0 <= i < |all|
      ensures Accepted(all, refuses, first, i) <==>
                if i < |a| then Accepted(a, refuses, first, i) else Accepted(b, refuses, first + requests, i - |a|)
    {
      assert i >= |a| ==> i / 1000 == requests + (i - |a|) / 1000;
    }
    forall p | p in Removed(a, refuses, first) ensures p in Removed(all, refuses, first) {
      var i :| 0 <= i < |a| && Accepted(a, refuses, first, i) && a[i].path == p;
      RemovedHas(all, refuses, first, i);
    }
    forall p | p in Removed(b, refuses, first + requests) ensures p in Removed(all, refuses, first) {
      var i :| 0 <= i < |b| && Accepted(b, refuses, first + requests, i) && b[i].path == p;
      assert all[|a| + i] == b[i];
      RemovedHas(all, refuses, first, |a| + i);
    }
    forall p | p in Removed(all, refuses, first)
      ensures p in Removed(a, refuses, first) + Removed(b, refuses, first + requests)
    {
      var i :| 0 <= i < |all| && Accepted(all, refuses, first, i) && all[i].path == p;
      if i < |a| {
        RemovedHas(a, refuses, first, i);
      } else {
        RemovedHas(b, refuses, first + requests, i - |a|);
      }
    }
  }

  /** The keys left when requests from number `first` on have named the items, all of them in a dry run. */
  ghost function Left(keys: set<string>, items: seq<Item>, refuses: Refusals, first: nat, dryRun: bool): set<string> {
    if dryRun then keys else keys - Removed(items, refuses, first)
  }

  lemma LeftAppend(
      keys: set<string>, a: seq<Item>, b: seq<Item>, refuses: Refusals, first: nat, requests: nat, dryRun: bool)
    requires |a| == requests * 1000
    ensures Left(keys, a + b, refuses, first, dryRun) ==
            Left(Left(keys, a, refuses, first, dryRun), b, refuses, if dryRun then first else first + requests, dryRun)
  {
    RemovedAppend(a, b, refuses, first, requests);
  }

  ghost function Paths(items: seq<Item>): set<string> {
    set i | 0 <= i < |items| :: items[i].path
  }

  /** Everything counted as deleted is gone exactly when each key that was there is accepted by some request. */
  lemma CountedAreGoneIff(keys: set<string>, items: seq<Item>, refuses: Refusals, first: nat)
    ensures Paths(items) !! keys - Removed(items, refuses, first) <==>
              forall p :: p in Paths(items) && p in keys ==>
                exists i :: Accepted(items, refuses, first, i) && items[i].path == p
  {
    forall p ensures p in Removed(items, refuses, first) <==>
                     exists i :: Accepted(items, refuses, first, i) && items[i].path == p
    {
      if i :| Accepted(items, refuses, first, i) && items[i].path == p {
        RemovedHas(items, refuses, first, i);
      }
    }
    if forall p :: p in Paths(items) && p in keys ==> exists i :: Accepted(items, refuses, first, i) && items[i].path == p {
      assert forall p :: p in Paths(items) ==> p !in keys - Removed(items, refuses, first);
    } else {
      var p :| p in Paths(items) && p in keys && !exists i :: Accepted(items, refuses, first, i) && items[i].path == p;
      assert p in keys - Removed(items, refuses, first);
    }
  }

  /** An object that stays although it is counted: its request is refused. */
  lemma RefusedIsCounted(item: Item, refuses: Refusals)
    requires refuses(0, item.path)
    ensures item.path in Paths([item]) && {item.path} - Removed([item], refuses, 0) == {item.path}
  {
    assert item.path == [item][0].path;
    forall i ensures !Accepted([item], refuses, 0, i) {
      assert 0 <= i < 1 ==> i / 1000 == 0;
    }
  }

  /** The storage: the names of its objects, the requests it has served, and what it refuses. */
  class Bucket {
    var keys: set<string>
    var requests: nat
    const refuses: Refusals

    /** `_bulk_delete`: the errors in the reply are not looked at. */
    method BulkDelete(items: seq<Item>)
      requires |items| <= REQUEST_LIMIT
      modifies this
      ensures requests == old(requests) + 1
      ensures keys == old(keys) - Removed(items, refuses, old(requests))
    {
      var i := 0;
      while i < |items|
        invariant 0 <= i <= |items|
        invariant requests == old(requests)
        invariant forall p :: p in keys <==>
                    p in old(keys) && forall j :: Accepted(items, refuses, requests, j) && j < i ==> items[j].path != p
      {
        assert i / BULK_DELETE_CHUNK_SIZE == 0;
        if !refuses(requests, items[i].path) {
          assert Accepted(items, refuses, requests, i);
          keys := keys - {items[i].path};
        }
        i := i + 1;
      }
      forall p | p in keys ensures p !in Removed(items, refuses, requests) {
      }
      forall j | Accepted(items, refuses, requests, j) ensures items[j].path in Removed(items, refuses, requests) {
        RemovedHas(items, refuses, requests, j);
      }
      requests := requests + 1;
    }
  }

  lemma NextChunk(chunks: seq<seq<Item>>, i: nat, done: seq<Item>, items: seq<Item>)
    requires i < |chunks| && done + Flatten(chunks[i..]) == items && AllValid(items)
    ensures done + chunks[i] + Flatten(chunks[i + 1..]) == items && AllValid(chunks[i])
  {
    assert chunks[i..][1..] == chunks[i + 1..];
    assert forall k :: 0 <= k < |chunks[i]| ==> chunks[i][k] == items[|done| + k];
  }

  /** `cleanup_s3_object_storage`: delete chunk by chunk, then count every object of the chunk. */
  method CleanupS3(bucket: Bucket, items: seq<Item>, stat: ResultStat, dryRun: bool)
    requires stat.Valid() && AllValid(items)
    modifies bucket, stat`stats, stat`seen
    ensures stat.Valid() && stat.seen == old(stat.seen) + items
    ensures bucket.requests == old(bucket.requests) + if dryRun then 0 else RequestsFor(|items|)
    ensures bucket.keys == Left(old(bucket.keys), items, bucket.refuses, old(bucket.requests), dryRun)
  {
    var chunks := Chunked(items, BULK_DELETE_CHUNK_SIZE);
    ghost var done: seq<Item> := [];
    ghost var first := bucket.requests;
    var i := 0;
    assert chunks[0..] == chunks;
    while i < |chunks|
      invariant 0 <= i <= |chunks|
      invariant done + Flatten(chunks[i..]) == items
      invariant i < |chunks| ==> |done| == i * BULK_DELETE_CHUNK_SIZE
      invariant i == |chunks| > 0 ==> (i - 1) * BULK_DELETE_CHUNK_SIZE < |done| <= i * BULK_DELETE_CHUNK_SIZE
      invariant stat.Valid() && stat.seen == old(stat.seen) + done
      invariant bucket.requests == first + if dryRun then 0 else i
      invariant bucket.keys == Left(old(bucket.keys), done, bucket.refuses, first, dryRun)
    {
      NextChunk(chunks, i, done, items);
      LeftAppend(old(bucket.keys), done, chunks[i], bucket.refuses, first, i, dryRun);
      if !dryRun {
        bucket.BulkDelete(chunks[i]);
      }
      UpdateStat(chunks[i], stat);
      done := done + chunks[i];
      i := i + 1;
    }
    assert done == items;
  }

  method UpdateStat(chunk: seq<Item>, stat: ResultStat)
    requires stat.Valid() && AllValid(chunk)
    modifies stat`stats, stat`seen
    ensures stat.Valid() && stat.seen == old(stat.seen) + chunk
  {
    var j := 0;
    while j < |chunk|
      invariant 0 <= j <= |chunk|
      invariant stat.Valid() && stat.seen == old(stat.seen) + chunk[..j]
    {
      stat.UpdateByItem(chunk[j]);
      j := j + 1;
    }
    assert chunk[..j] == chunk;
  }

  /** `_process_objects_batch` */
  method ProcessBatch(objects: seq<Item>, maxSize: nat, stat: ResultStat)
    returns (kept: seq<Item>, isLastBatch: bool)
    requires stat.Valid() && SizesOf(stat.seen) <= maxSize
    modifies stat`stats
    ensures stat.Valid()
    ensures kept == Fitting(objects, Room(stat.seen, maxSize))
    ensures isLastBatch <==> SizesOf(stat.seen) + SizesOf(objects) > maxSize
  {
    var total := stat.Total();
    TotalIsTotal(stat.period, stat.seen);
    var batchSize := TotalSize(objects);
    isLastBatch := false;
    kept := objects;
    if total.totalSize + batchSize > maxSize {
      isLastBatch := true;
      var sorted := Sort(objects, BySize());
      SortKeepsSize(objects);
      kept := PopUntilFits(sorted, total.totalSize, batchSize, maxSize, Room(stat.seen, maxSize));
    }
  }

  lemma {:induction false} SortKeepsSize(objects: seq<Item>)
    ensures SizesOf(Sort(objects, BySize())) == SizesOf(objects)
  {
    SortKeepsMembers(objects, BySize());
    SameSize(Sort(objects, BySize()), objects);
  }

  method PopUntilFits(
      sorted: seq<Item>, total: nat, size: nat, maxSize: nat, ghost room: nat) returns (objects: seq<Item>)
    requires size == SizesOf(sorted) && total + room == maxSize
    ensures objects == Trimmed(sorted, room)
  {
    objects := sorted;
    var batchSize := size;
    while total + batchSize > maxSize
      invariant batchSize == SizesOf(objects)
      invariant Trimmed(objects, room) == Trimmed(sorted, room)
      decreases |objects|
    {
      batchSize := batchSize - objects[|objects| - 1].size;
      objects := objects[..|objects| - 1];
    }
  }

  method TotalSize(objects: seq<Item>) returns (size: nat)
    ensures size == SizesOf(objects)
  {
    size := 0;
    var i := 0;
    while i < |objects|
      invariant 0 <= i <= |objects|
      invariant size == SizesOf(objects[..i])
    {
      assert objects[..i + 1][..i] == objects[..i];
      size := size + objects[i].size;
      i := i + 1;
    }
    assert objects[..i] == objects;
  }

  lemma {:induction false} SameSize(s: seq<Item>, t: seq<Item>)
    requires multiset(s) == multiset(t)
    ensures SizesOf(s) == SizesOf(t)
  {
    if s == [] {
      assert |multiset(t)| == 0;
    } else {
      var last := s[|s| - 1];
      DropLast(s);
      assert last in multiset(t);
      var rest := TakeOut(t, last);
      assert multiset(rest) == multiset(t) - multiset{last};
      assert multiset(s[..|s| - 1]) == multiset(s) - multiset{last};
      SameSize(s[..|s| - 1], rest);
    }
  }

  /** `_cleanup_orphaned_objects`: batches from the stream until it ends or one exceeds the budget. */
  method CleanupOrphaned(
    stream: seq<Item>, bucket: Bucket, listing: nat, maxBytes: nat, fraction: real, period: Period, dryRun: bool)
    returns (stat: ResultStat, ghost batches: seq<seq<Item>>, ghost cut: nat)
    requires 0.0 <= fraction <= 1.0 && AllValid(stream)
    modifies bucket
    ensures fresh(stat) && stat.Valid() && stat.period == period
    ensures SizesOf(stat.seen) as real <= listing as real * fraction
    ensures maxBytes != 0 ==> SizesOf(stat.seen) <= maxBytes
    ensures IsChunking(batches, stream, 1000)
    ensures Outcome(stat.seen, batches, cut, SizeLimit(listing, maxBytes, fraction))
    ensures bucket.keys == Left(old(bucket.keys), stat.seen, bucket.refuses, old(bucket.requests), dryRun)
  {
    ghost var first := bucket.requests;
    stat := new ResultStat(period);
    var maxSize := SizeLimit(listing, maxBytes, fraction);
    var chunks := Chunked(stream, KEYS_BATCH_SIZE);
    batches := chunks;
    assert chunks[..0] == [];
    var i := 0;
    while i < |chunks|
      invariant 0 <= i <= |chunks|
      invariant fresh(stat) && stat.Valid() && stat.period == period
      invariant stat.seen == Flatten(chunks[..i]) && SizesOf(stat.seen) <= maxSize
      invariant i < |chunks| ==> |stat.seen| == i * BULK_DELETE_CHUNK_SIZE
      invariant i < |chunks| ==> bucket.requests == if dryRun then first else first + i
      invariant bucket.keys == Left(old(bucket.keys), stat.seen, bucket.refuses, first, dryRun)
    {
      ghost var whole := stat.seen;
      ChunkDated(chunks, stream, i);
      FlattenAppend(chunks[..i], chunks[i]);
      assert chunks[..i + 1] == chunks[..i] + [chunks[i]];
      var kept, isLastBatch := CleanupBatch(chunks[i], bucket, maxSize, stat, dryRun);
      LeftAppend(old(bucket.keys), whole, kept, bucket.refuses, first, i, dryRun);
      if isLastBatch {
        cut := i;
        CutFits(stat.seen, whole, chunks[i], maxSize);
        return;
      }
      i := i + 1;
    }
    assert chunks[..i] == chunks;
    cut := i;
  }

  /** One turn of the loop. */
  method CleanupBatch(batch: seq<Item>, bucket: Bucket, maxSize: nat, stat: ResultStat, dryRun: bool)
    returns (kept: seq<Item>, isLastBatch: bool)
    requires stat.Valid() && SizesOf(stat.seen) <= maxSize && AllValid(batch)
    modifies bucket, stat`stats, stat`seen
    ensures stat.Valid() && stat.seen == old(stat.seen) + kept
    ensures bucket.requests == old(bucket.requests) + if dryRun then 0 else RequestsFor(|kept|)
    ensures bucket.keys == Left(old(bucket.keys), kept, bucket.refuses, old(bucket.requests), dryRun)
    ensures !isLastBatch ==> kept == batch && SizesOf(stat.seen) <= maxSize
    ensures isLastBatch ==> CutIn(stat.seen, old(stat.seen), batch, maxSize)
  {
    ghost var whole := stat.seen;
    kept, isLastBatch := ProcessBatch(batch, maxSize, stat);
    BatchKept(whole, batch, kept, isLastBatch, maxSize);
    CleanupS3(bucket, kept, stat, dryRun);
  }

  lemma {:induction false} BatchKept(
      whole: seq<Item>, batch: seq<Item>, kept: seq<Item>, isLastBatch: bool, maxSize: nat)
    requires SizesOf(whole) <= maxSize && AllValid(batch)
    requires kept == Fitting(batch, Room(whole, maxSize))
    requires isLastBatch <==> SizesOf(whole) + SizesOf(batch) > maxSize
    ensures AllValid(kept)
    ensures !isLastBatch ==> kept == batch && SizesOf(whole + kept) <= maxSize
    ensures isLastBatch ==> CutIn(whole + kept, whole, batch, maxSize)
  {
    FittingDated(batch, Room(whole, maxSize));
    SizesAppend(whole, kept);
  }

  lemma {:induction false} ChunkDated(chunks: seq<seq<Item>>, stream: seq<Item>, i: nat)
    requires Flatten(chunks) == stream && AllValid(stream) && i < |chunks|
    ensures AllValid(chunks[i])
    decreases i
  {
    if i == 0 {
      assert forall k :: 0 <= k < |chunks[0]| ==> chunks[0][k] == stream[k];
    } else {
      var rest := Flatten(chunks[1..]);
      assert forall k :: 0 <= k < |rest| ==> rest[k] == stream[|chunks[0]| + k];
      ChunkDated(chunks[1..], rest, i - 1);
    }
  }

  lemma FittingDated(batch: seq<Item>, limit: nat)
    requires AllValid(batch)
    ensures AllValid(Fitting(batch, limit))
  {
    var sorted := Sort(batch, BySize());
    SortKeepsMembers(batch, BySize());
    SameMembers(sorted, batch);
    var kept := Fitting(batch, limit);
    forall i | 0 <= i < |kept| ensures kept[i].lastModified.Valid() {
      assert kept[i] in batch;
    }
  }
}
