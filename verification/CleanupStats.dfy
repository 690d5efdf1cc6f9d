/** `ResultStat`: how many objects of which total size were deleted, in all and by day or month. */
module CleanupStats {
  import opened Text

  datatype Period = Day | Month | All

  /** A modification time by the fields of its printed form, `Y-M-D h:m:s`. */
  datatype Timestamp = Timestamp(year: string, month: string, day: string, time: string) {
    predicate Valid() {
      Field(year) && Field(month) && Field(day) && Field(time)
    }

    static predicate Field(s: string) {
      '-' !in s && ' ' !in s
    }

    function Format(): string {
      year + "-" + (month + "-" + (day + " " + time))
    }
  }

  datatype Item = Item(path: string, size: nat, lastModified: Timestamp)

  datatype Stat = Stat(deleted: nat, totalSize: nat) {
    function Plus(size: nat): Stat {
      Stat(deleted + 1, totalSize + size)
    }

    function Add(other: Stat): Stat {
      Stat(deleted + other.deleted, totalSize + other.totalSize)
    }
  }

  const TOTAL := "Total"
  const ZERO := Stat(0, 0)

  /** The first two fields at the dashes. */
  function MonthOf(s: string): string {
    var ymd := Split(s, '-');
    Join(if |ymd| > 2 then ymd[..2] else ymd, '-')
  }

  /** `_get_stat_key` */
  function StatKey(period: Period, t: Timestamp): string {
    match period
    case All => TOTAL
    case Month => MonthOf(t.Format())
    case Day => Split(t.Format(), ' ')[0]
  }

  lemma {:induction false} SplitFirst(a: string, b: string, sep: char)
    requires sep !in a
    ensures Split(a + [sep] + b, sep) == [a] + Split(b, sep)
  {
    SplitConcat(a, b, sep);
    SplitNoSeparator(a, sep);
  }

  lemma MonthOfThree(y: string, m: string, rest: string)
    requires '-' !in y && '-' !in m && '-' !in rest
    ensures MonthOf(y + "-" + (m + "-" + rest)) == y + "-" + m
  {
    SplitFirst(y, m + "-" + rest, '-');
    SplitFirst(m, rest, '-');
    SplitNoSeparator(rest, '-');
    assert Split(y + "-" + (m + "-" + rest), '-') == [y, m, rest];
    assert [y, m, rest][..2] == [y, m];
    JoinTwo(y, m);
  }

  lemma DayOfFormat(t: Timestamp)
    requires t.Valid()
    ensures StatKey(Day, t) == t.year + "-" + (t.month + "-" + t.day)
  {
    var day := t.year + "-" + (t.month + "-" + t.day);
    assert t.Format() == day + " " + t.time;
    SplitFirst(day, t.time, ' ');
  }

  /** Both keys spelled out; the month of a day key is the month key. */
  lemma KeysSpelledOut(t: Timestamp)
    requires t.Valid()
    ensures StatKey(Day, t) == t.year + "-" + (t.month + "-" + t.day)
    ensures StatKey(Month, t) == t.year + "-" + t.month
    ensures MonthOf(StatKey(Day, t)) == StatKey(Month, t)
  {
    DayOfFormat(t);
    MonthOfThree(t.year, t.month, t.day + " " + t.time);
    MonthOfThree(t.year, t.month, t.day);
  }

  lemma JoinTwo(a: string, b: string)
    ensures Join([a, b], '-') == a + "-" + b
  {
    assert [a, b][1..] == [b];
  }

  lemma KeyIsNotTotal(period: Period, t: Timestamp)
    requires t.Valid() && period != All
    ensures StatKey(period, t) != "Total"
  {
    KeysSpelledOut(t);
    assert '-' !in TOTAL;
    assert StatKey(period, t)[|t.year|] == '-';
  }

  // ---------------------------------------------------------------- specification

  /** Number and total size of the items that satisfy `keep`. */
  ghost function Summary(items: seq<Item>, keep: Item -> bool): Stat {
    if items == [] then ZERO
    else
      var last := items[|items| - 1];
      var front := Summary(items[..|items| - 1], keep);
      if keep(last) then front.Plus(last.size) else front
  }

  /** Which items count under a key. */
  function Counts(period: Period, key: string): Item -> bool {
    (item: Item) => key == TOTAL || (period != All && StatKey(period, item.lastModified) == key)
  }

  function KeyIn(period: Period, keys: set<string>): Item -> bool {
    (item: Item) => StatKey(period, item.lastModified) in keys
  }

  function Keys(period: Period, items: seq<Item>): set<string> {
    if items == [] then {}
    else {TOTAL} + if period == All then {} else set i | i in items :: StatKey(period, i.lastModified)
  }

  /** The dictionary after a sequence of updates. */
  ghost function StatsOf(period: Period, items: seq<Item>): map<string, Stat> {
    map key | key in Keys(period, items) :: Summary(items, Counts(period, key))
  }

  class ResultStat {
    const period: Period
    var stats: map<string, Stat>
    ghost var seen: seq<Item>

    /** Reading the total of an empty dictionary leaves a zero entry behind. */
    ghost predicate Valid()
      reads this
    {
      stats == StatsOf(period, seen) || (seen == [] && stats == map[TOTAL := ZERO])
    }

    constructor (period: Period)
      ensures Valid() && this.period == period && seen == []
    {
      this.period, this.stats, this.seen := period, map[], [];
    }

    method Total() returns (total: Stat)
      requires Valid()
      modifies this`stats
      ensures Valid() && TOTAL in stats && total == stats[TOTAL]
      ensures total == Summary(seen, Counts(period, TOTAL))
    {
      if TOTAL !in stats {
        stats := stats[TOTAL := ZERO];
      }
      total := stats[TOTAL];
    }

    method UpdateByItem(item: Item)
      requires Valid() && item.lastModified.Valid()
      modifies this`stats, this`seen
      ensures Valid() && seen == old(seen) + [item]
    {
      ghost var before := seen;
      var total := Total();
      ghost var entries := stats;
      stats := stats[TOTAL := total.Plus(item.size)];
      seen := seen + [item];
      if period != All {
        var key := StatKey(period, item.lastModified);
        stats := stats[key := (if key in stats then stats[key] else ZERO).Plus(item.size)];
      }
      assert stats == Updated(period, entries, item);
      StatsStep(period, before, item, entries);
    }
  }

  /** What the dictionary says under any key, absent ones counting as zero. */
  function Entry(stats: map<string, Stat>, key: string): Stat {
    if key in stats then stats[key] else ZERO
  }

  /** The dictionary once its total has been touched. */
  ghost predicate Entries(period: Period, items: seq<Item>, stats: map<string, Stat>) {
    && stats.Keys == Keys(period, items) + {TOTAL}
    && (forall k :: k in stats ==> stats[k] == Summary(items, Counts(period, k)))
  }

  /** One more item touches the total and the item's own bucket, and nothing else. */
  lemma {:induction false} SummaryStep(period: Period, items: seq<Item>, item: Item, key: string)
    ensures var before := Summary(items, Counts(period, key));
            Summary(items + [item], Counts(period, key)) ==
            if Counts(period, key)(item) then before.Plus(item.size) else before
  {
    var grown := items + [item];
    assert grown[..|grown| - 1] == items;
  }

  /** What `update_by_item` does to the dictionary whose total has been touched. */
  function Updated(period: Period, stats: map<string, Stat>, item: Item): map<string, Stat> {
    var total := stats[TOTAL := Entry(stats, TOTAL).Plus(item.size)];
    var key := StatKey(period, item.lastModified);
    if period == All then total else total[key := Entry(total, key).Plus(item.size)]
  }

  lemma {:induction false} UpdatedEntry(
      period: Period, items: seq<Item>, item: Item, before: map<string, Stat>, key: string)
    requires item.lastModified.Valid() && Entries(period, items, before)
    requires key in Updated(period, before, item)
    ensures Updated(period, before, item)[key] == Summary(items + [item], Counts(period, key))
  {
    SummaryStep(period, items, item, key);
    var own := StatKey(period, item.lastModified);
    if period != All {
      KeyIsNotTotal(period, item.lastModified);
      if own !in before {
        NoSummaryWithoutKey(period, items, own);
      }
    }
  }

  lemma StatsStep(period: Period, items: seq<Item>, item: Item, before: map<string, Stat>)
    requires item.lastModified.Valid() && Entries(period, items, before)
    ensures Updated(period, before, item) == StatsOf(period, items + [item])
  {
    var after := Updated(period, before, item);
    KeysGrow(period, items, item);
    forall k | k in after ensures after[k] == Summary(items + [item], Counts(period, k)) {
      UpdatedEntry(period, items, item, before, k);
    }
  }

  lemma KeysGrow(period: Period, items: seq<Item>, item: Item)
    ensures Keys(period, items + [item]) == Keys(period, items) + {TOTAL} +
            if period == All then {} else {StatKey(period, item.lastModified)}
  {
  }

  lemma {:induction false} NoSummaryWithoutKey(period: Period, items: seq<Item>, key: string)
    requires period != All && key != TOTAL && key !in Keys(period, items)
    ensures Summary(items, Counts(period, key)) == ZERO
  {
    if items != [] {
      var front, last := items[..|items| - 1], items[|items| - 1];
      assert items == front + [last] && last in items;
      assert Keys(period, front) <= Keys(period, items);
      NoSummaryWithoutKey(period, front, key);
    }
  }

  // ---------------------------------------------------------------- what the buckets add up to

  /** The sum over some keys. */
  ghost function SumOf(f: string -> Stat, keys: set<string>): Stat {
    if keys == {} then ZERO
    else
      var k :| k in keys;
      f(k).Add(SumOf(f, keys - {k}))
  }

  lemma {:induction false} SumOfRemove(f: string -> Stat, keys: set<string>, key: string)
    requires key in keys
    ensures SumOf(f, keys) == f(key).Add(SumOf(f, keys - {key}))
  {
    var k :| k in keys && SumOf(f, keys) == f(k).Add(SumOf(f, keys - {k}));
    if k != key {
      var rest := keys - {k} - {key};
      assert rest == keys - {key} - {k};
      SumOfRemove(f, keys - {k}, key);
      SumOfRemove(f, keys - {key}, k);
      AddSwap(f(k), f(key), SumOf(f, rest));
    }
  }

  lemma AddSwap(a: Stat, b: Stat, c: Stat)
    ensures a.Add(b.Add(c)) == b.Add(a.Add(c))
  {
  }

  lemma {:induction false} SumOfSame(f: string -> Stat, g: string -> Stat, keys: set<string>)
    requires forall k :: k in keys ==> f(k) == g(k)
    ensures SumOf(f, keys) == SumOf(g, keys)
  {
    if keys != {} {
      var k :| k in keys;
      SumOfRemove(f, keys, k);
      SumOfRemove(g, keys, k);
      SumOfSame(f, g, keys - {k});
    }
  }

  ghost function ReadFrom(stats: map<string, Stat>): string -> Stat {
    k => Entry(stats, k)
  }

  /** The bucket of every possible key. */
  ghost function Bucket(period: Period, items: seq<Item>): string -> Stat {
    k => Summary(items, Counts(period, k))
  }

  lemma {:induction false} SumOfZeros(keys: set<string>)
    ensures SumOf(k => ZERO, keys) == ZERO
  {
    if keys != {} {
      var key :| key in keys;
      SumOfZeros(keys - {key});
      SumOfRemove(k => ZERO, keys, key);
      AddZero(ZERO);
    }
  }

  lemma AddZero(a: Stat)
    ensures a.Add(ZERO) == a
  {
  }

  /** Every item is in exactly one bucket, so buckets add up to a summary over their items. */
  lemma {:induction false} BucketsRegroup(period: Period, items: seq<Item>, keys: set<string>)
    requires period != All && TOTAL !in keys
    ensures SumOf(Bucket(period, items), keys) == Summary(items, KeyIn(period, keys))
  {
    var buckets := Bucket(period, items);
    if items == [] {
      SumOfZeros(keys);
      SumOfSame(buckets, k => ZERO, keys);
    } else {
      BucketsRegroup(period, items[..|items| - 1], keys);
      BucketsGrow(period, items, keys);
    }
  }

  lemma {:induction false} BucketsGrow(period: Period, items: seq<Item>, keys: set<string>)
    requires period != All && TOTAL !in keys && items != []
    ensures var last := items[|items| - 1];
            var before := SumOf(Bucket(period, items[..|items| - 1]), keys);
            SumOf(Bucket(period, items), keys) ==
            if KeyIn(period, keys)(last) then before.Plus(last.size) else before
  {
    var front, last := items[..|items| - 1], items[|items| - 1];
    var buckets, before := Bucket(period, items), Bucket(period, front);
    var key := StatKey(period, last.lastModified);
    SumOfSame(buckets, before, keys - {key});
    if key in keys {
      SumOfRemove(buckets, keys, key);
      SumOfRemove(before, keys, key);
    } else {
      assert keys - {key} == keys;
    }
  }

  lemma {:induction false} SummaryEqual(items: seq<Item>, a: Item -> bool, b: Item -> bool)
    requires forall i :: 0 <= i < |items| ==> a(items[i]) == b(items[i])
    ensures Summary(items, a) == Summary(items, b)
  {
    if items != [] {
      SummaryEqual(items[..|items| - 1], a, b);
    }
  }

  /** The total is the number and the total size of everything seen. */
  ghost function SizesOf(items: seq<Item>): nat {
    if items == [] then 0 else SizesOf(items[..|items| - 1]) + items[|items| - 1].size
  }

  lemma {:induction false} TotalIsTotal(period: Period, items: seq<Item>)
    ensures Summary(items, Counts(period, "Total")) == Stat(|items|, SizesOf(items))
  {
    if items != [] {
      TotalIsTotal(period, items[..|items| - 1]);
    }
  }

  ghost predicate AllValid(items: seq<Item>) {
    forall i :: 0 <= i < |items| ==> items[i].lastModified.Valid()
  }

  /** By day or by month, the buckets of all periods add up to the total. */
  lemma PeriodsAddUpToTotal(period: Period, items: seq<Item>)
    requires period != All && items != [] && AllValid(items)
    ensures var stats := StatsOf(period, items);
            SumOf(ReadFrom(stats), stats.Keys - {TOTAL}) == stats[TOTAL]
  {
    var stats := StatsOf(period, items);
    var keys := Keys(period, items) - {TOTAL};
    assert stats.Keys - {TOTAL} == keys;
    BucketsRegroup(period, items, keys);
    SumOfSame(ReadFrom(stats), Bucket(period, items), keys);
    EveryItemHasAPeriod(period, items);
  }

  lemma {:induction false} EveryItemHasAPeriod(period: Period, items: seq<Item>)
    requires period != All && AllValid(items)
    ensures Summary(items, KeyIn(period, Keys(period, items) - {TOTAL})) == Summary(items, Counts(period, TOTAL))
  {
    var keys := Keys(period, items) - {TOTAL};
    forall i | 0 <= i < |items| ensures KeyIn(period, keys)(items[i]) {
      assert items[i] in items;
      KeyIsNotTotal(period, items[i].lastModified);
    }
    SummaryEqual(items, KeyIn(period, keys), Counts(period, TOTAL));
  }

  /** The keys of the days that belong to a month. */
  ghost function DaysOf(stats: map<string, Stat>, month: string): set<string> {
    set k | k in stats && k != TOTAL && MonthOf(k) == month
  }

  /** What the dictionary says under a key is the summary over its objects, also when the key is absent. */
  lemma {:induction false} EntryIsSummary(period: Period, items: seq<Item>, key: string)
    requires period != All && key != TOTAL
    ensures Entry(StatsOf(period, items), key) == Summary(items, Counts(period, key))
  {
    if key !in Keys(period, items) {
      NoSummaryWithoutKey(period, items, key);
    }
  }

  /** Merging the daily buckets by month gives the buckets of a monthly run over the same objects. */
  lemma DaysMergeIntoMonths(items: seq<Item>, month: string)
    requires AllValid(items) && month != TOTAL
    ensures var daily, monthly := StatsOf(Day, items), StatsOf(Month, items);
            SumOf(ReadFrom(daily), DaysOf(daily, month)) == Entry(monthly, month)
  {
    var daily := StatsOf(Day, items);
    var days := DaysOf(daily, month);
    BucketsRegroup(Day, items, days);
    SumOfSame(ReadFrom(daily), Bucket(Day, items), days);
    DaysOfMonth(items, month);
    EntryIsSummary(Month, items, month);
  }

  lemma {:induction false} DaysOfMonth(items: seq<Item>, month: string)
    requires AllValid(items) && month != TOTAL
    ensures Summary(items, KeyIn(Day, DaysOf(StatsOf(Day, items), month))) == Summary(items, Counts(Month, month))
  {
    var days := DaysOf(StatsOf(Day, items), month);
    forall i | 0 <= i < |items|
      ensures StatKey(Day, items[i].lastModified) in days <==> Counts(Month, month)(items[i])
    {
      assert items[i] in items;
      KeysSpelledOut(items[i].lastModified);
      KeyIsNotTotal(Day, items[i].lastModified);
    }
    SummaryEqual(items, KeyIn(Day, days), Counts(Month, month));
  }

  /** The month of an object's day has a bucket of its own in a monthly run. */
  lemma DaysHaveMonths(items: seq<Item>, i: nat)
    requires AllValid(items) && i < |items|
    ensures var month := MonthOf(StatKey(Day, items[i].lastModified));
            month in StatsOf(Month, items) && month != TOTAL
  {
    assert items[i] in items;
    KeysSpelledOut(items[i].lastModified);
    KeyIsNotTotal(Month, items[i].lastModified);
  }
}
