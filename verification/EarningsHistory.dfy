/** The earnings endpoint: every interval and `meta` report exactly the rows of their own span. */
module EarningsHistory {
  import opened Wrappers
  import opened Buckets
  import opened GroupingKey
  import opened Names
  import opened Earnings

  // ---- the queries ----

  function KeyedIn(rows: seq<Entry>, b: Buckets, key: int, pool: string): int
    requires |b.timestamps| >= 2
  {
    if rows == [] then 0
    else
      var r := rows[0];
      (if InRange(b, r.timestamp) && GroupKey(b, r.timestamp) == key && r.pool == pool then r.amount else 0)
      + KeyedIn(rows[1..], b, key, pool)
  }

  predicate KeyedHas(rows: seq<Entry>, b: Buckets, key: int, pool: string)
    requires |b.timestamps| >= 2
  {
    exists i :: 0 <= i < |rows| && InRange(b, rows[i].timestamp) && GroupKey(b, rows[i].timestamp) == key && rows[i].pool == pool
  }

  function BondKeyed(rows: seq<Bond>, b: Buckets, key: int): int
    requires |b.timestamps| >= 2
  {
    if rows == [] then 0
    else
      var r := rows[0];
      (if InRange(b, r.timestamp) && GroupKey(b, r.timestamp) == key then r.amount else 0) + BondKeyed(rows[1..], b, key)
  }

  /** `grouped` is what `GROUP BY bucket, pool` gives, in any order. */
  ghost predicate Answers(grouped: Grouped, rows: seq<Entry>, b: Buckets)
    requires |b.timestamps| >= 2
  {
    && (forall k, p :: GroupedHas(grouped, k, p) <==> KeyedHas(rows, b, k, p))
    && (forall k, p :: GroupedAt(grouped, k, p) == KeyedIn(rows, b, k, p))
  }

  function BondAt(bond: map<int, int>, key: int): int {
    if key in bond then bond[key] else 0
  }

  ghost predicate BondAnswers(bond: map<int, int>, rows: seq<Bond>, b: Buckets)
    requires |b.timestamps| >= 2
  {
    forall k :: BondAt(bond, k) == BondKeyed(rows, b, k)
  }

  // ---- the endpoint ----

  /** A map from pools to sums, for the rows of one span. */
  ghost predicate MapOf(m: map<string, int>, rows: seq<Entry>, from: int, until: int) {
    && (forall p :: p in m <==> HasPool(rows, from, until, p))
    && (forall p :: At(m, p) == InPool(rows, from, until, p))
  }

  predicate NonNegative(rows: seq<Entry>) {
    forall i :: 0 <= i < |rows| ==> rows[i].timestamp >= 0
  }

  predicate BondsNonNegative(rows: seq<Bond>) {
    forall i :: 0 <= i < |rows| ==> rows[i].timestamp >= 0
  }

  method History(fees: seq<Entry>, rewards: seq<Entry>, bonds: seq<Bond>, b: Buckets,
                 feeGroups: Grouped, rewardGroups: Grouped, bond: map<int, int>)
    returns (intervals: seq<Item>, meta: Item)
    requires WellFormed(b) && NonNegative(fees) && NonNegative(rewards) && BondsNonNegative(bonds)
    requires Answers(feeGroups, fees, b) && Answers(rewardGroups, rewards, b) && BondAnswers(bond, bonds, b)
    ensures |intervals| == b.Count()
    ensures forall j :: 0 <= j < b.Count()
              ==> Reports(intervals[j], fees, rewards, bonds, b.timestamps[j], b.timestamps[j + 1])
    ensures Reports(meta, fees, rewards, bonds, b.timestamps[0], b.timestamps[b.Count()])
  {
    hide Answers, BondAnswers, Collects, MapOf, Reports, IsRun, Merged;
    var byFees := Collect(feeGroups);
    var byRewards := Collect(rewardGroups);
    var metaFees: map<string, int>, metaRewards: map<string, int>, metaBond := map[], map[], 0;
    intervals := [];
    ghost var first := b.timestamps[0];
    NothingYet(fees, first);
    NothingYet(rewards, first);
    NoBondYet(bonds, first);
    var i := 0;
    while i < b.Count()
      invariant 0 <= i <= b.Count() && |intervals| == i
      invariant forall j :: 0 <= j < i ==> Reports(intervals[j], fees, rewards, bonds, b.timestamps[j], b.timestamps[j + 1])
      invariant MapOf(metaFees, fees, first, b.timestamps[i]) && MapOf(metaRewards, rewards, first, b.timestamps[i])
      invariant metaBond == BondIn(bonds, first, b.timestamps[i])
    {
      var from, until := b.timestamps[i], b.timestamps[i + 1];
      var bucketFees, bucketRewards, bucketBond := BucketOf(byFees, from), BucketOf(byRewards, from), BondAt(bond, from);
      BucketMap(byFees, feeGroups, fees, b, i);
      BucketMap(byRewards, rewardGroups, rewards, b, i);
      BucketBond(bond, bonds, b, i);
      SpansMeet(b, i);
      Extends(metaFees, bucketFees, fees, first, from, until);
      Extends(metaRewards, bucketRewards, rewards, first, from, until);
      BondAdds(bonds, first, from, until);
      metaFees := AddInto(metaFees, bucketFees);
      metaRewards := AddInto(metaRewards, bucketRewards);
      metaBond := metaBond + bucketBond;
      var item := Build(from, until, bucketFees, bucketRewards, bucketBond, fees, rewards, bonds);
      intervals := intervals + [item];
      i := i + 1;
    }
    meta := Build(b.timestamps[0], b.timestamps[b.Count()], metaFees, metaRewards, metaBond, fees, rewards, bonds);
  }

  /** `BuildItem` on the sums of one span reports that span. */
  method Build(start: int, end: int, fees: map<string, int>, rewards: map<string, int>, bondE8: int,
               ghost feeRows: seq<Entry>, ghost rewardRows: seq<Entry>, ghost bonds: seq<Bond>)
    returns (item: Item)
    requires MapOf(fees, feeRows, start, end) && MapOf(rewards, rewardRows, start, end)
    requires bondE8 == BondIn(bonds, start, end)
    ensures Reports(item, feeRows, rewardRows, bonds, start, end)
  {
    hide SumAt, InAll, InPool, HasPool, At, Ascending, EarningsOf;
    item := BuildItem(start, end, fees, rewards, bondE8);
    SumAtIsAll(PoolNames(item.pools), fees, feeRows, start, end);
    SumAtIsAll(PoolNames(item.pools), rewards, rewardRows, start, end);
  }

  // ---- one bucket's groups ----

  lemma {:induction false} KeyedIsIn(rows: seq<Entry>, b: Buckets, j: nat, pool: string)
    requires WellFormed(b) && NonNegative(rows) && j < b.Count()
    ensures KeyedIn(rows, b, b.timestamps[j], pool) == InPool(rows, b.timestamps[j], b.timestamps[j + 1], pool)
    decreases |rows|
  {
    hide GroupKey, WellFormed, InSpan, InRange;
    if rows != [] {
      KeyedIsIn(rows[1..], b, j, pool);
      KeyedIsInBucket(b, j, rows[0].timestamp);
    }
  }

  lemma KeyedHasIsHas(rows: seq<Entry>, b: Buckets, j: nat, pool: string)
    requires WellFormed(b) && NonNegative(rows) && j < b.Count()
    ensures KeyedHas(rows, b, b.timestamps[j], pool) <==> HasPool(rows, b.timestamps[j], b.timestamps[j + 1], pool)
  {
    hide GroupKey, WellFormed, InSpan, InRange;
    forall i | 0 <= i < |rows|
      ensures InRange(b, rows[i].timestamp) && GroupKey(b, rows[i].timestamp) == b.timestamps[j]
         <==> InSpan(b.timestamps[j], b.timestamps[j + 1], rows[i].timestamp)
    {
      KeyedIsInBucket(b, j, rows[i].timestamp);
    }
  }

  lemma {:induction false} BondKeyedIsIn(rows: seq<Bond>, b: Buckets, j: nat)
    requires WellFormed(b) && BondsNonNegative(rows) && j < b.Count()
    ensures BondKeyed(rows, b, b.timestamps[j]) == BondIn(rows, b.timestamps[j], b.timestamps[j + 1])
    decreases |rows|
  {
    hide GroupKey, WellFormed, InSpan, InRange;
    if rows != [] {
      BondKeyedIsIn(rows[1..], b, j);
      KeyedIsInBucket(b, j, rows[0].timestamp);
    }
  }

  lemma BucketMap(collected: map<int, map<string, int>>, grouped: Grouped, rows: seq<Entry>, b: Buckets, j: nat)
    requires WellFormed(b) && NonNegative(rows) && j < b.Count() && Answers(grouped, rows, b)
    requires Collects(collected, grouped)
    ensures MapOf(BucketOf(collected, b.timestamps[j]), rows, b.timestamps[j], b.timestamps[j + 1])
  {
    hide WellFormed, BucketOf, At, GroupedHas, GroupedAt, KeyedHas, KeyedIn, HasPool, InPool;
    forall p
      ensures KeyedIn(rows, b, b.timestamps[j], p) == InPool(rows, b.timestamps[j], b.timestamps[j + 1], p)
      ensures KeyedHas(rows, b, b.timestamps[j], p) <==> HasPool(rows, b.timestamps[j], b.timestamps[j + 1], p)
    {
      KeyedIsIn(rows, b, j, p);
      KeyedHasIsHas(rows, b, j, p);
    }
  }

  lemma BucketBond(bond: map<int, int>, rows: seq<Bond>, b: Buckets, j: nat)
    requires WellFormed(b) && BondsNonNegative(rows) && j < b.Count() && BondAnswers(bond, rows, b)
    ensures BondAt(bond, b.timestamps[j]) == BondIn(rows, b.timestamps[j], b.timestamps[j + 1])
  {
    hide WellFormed, BondAt;
    BondKeyedIsIn(rows, b, j);
  }

  // ---- spans add up ----

  lemma NothingYet(rows: seq<Entry>, at: int)
    ensures MapOf(map[], rows, at, at)
  {
    forall p ensures InPool(rows, at, at, p) == 0 {
      NoPoolNoSum(rows, at, at, p);
    }
  }

  lemma {:induction false} NoBondYet(rows: seq<Bond>, at: int)
    ensures BondIn(rows, at, at) == 0
  {
    if rows != [] {
      NoBondYet(rows[1..], at);
    }
  }

  lemma {:induction false} NoPoolNoSum(rows: seq<Entry>, from: int, until: int, pool: string)
    requires !HasPool(rows, from, until, pool)
    ensures InPool(rows, from, until, pool) == 0
  {
    hide InSpan;
    if rows != [] {
      assert forall i :: 0 <= i < |rows| - 1 ==> rows[1..][i] == rows[i + 1];
      NoPoolNoSum(rows[1..], from, until, pool);
    }
  }

  /** Two spans that meet, the first not running past the second. */
  predicate Meet(from: int, mid: int, until: int) {
    from == mid || from <= mid <= until
  }

  lemma SpansMeet(b: Buckets, i: nat)
    requires WellFormed(b) && i < b.Count()
    ensures Meet(b.timestamps[0], b.timestamps[i], b.timestamps[i + 1])
  {
    hide IsRun;
    if i > 0 {
      TimestampsAscend(b, 0, i);
      TimestampsAscend(b, i, i + 1);
    }
  }

  lemma SpanSplits(from: int, mid: int, until: int, ns: int)
    requires Meet(from, mid, until)
    ensures InSpan(from, until, ns) <==> InSpan(from, mid, ns) || InSpan(mid, until, ns)
    ensures !(InSpan(from, mid, ns) && InSpan(mid, until, ns))
  {
  }

  lemma {:induction false} PoolAdds(rows: seq<Entry>, from: int, mid: int, until: int, pool: string)
    requires Meet(from, mid, until)
    ensures InPool(rows, from, until, pool) == InPool(rows, from, mid, pool) + InPool(rows, mid, until, pool)
  {
    hide InSpan, Meet;
    if rows != [] {
      PoolAdds(rows[1..], from, mid, until, pool);
      SpanSplits(from, mid, until, rows[0].timestamp);
    }
  }

  lemma {:induction false} AllAdds(rows: seq<Entry>, from: int, mid: int, until: int)
    requires Meet(from, mid, until)
    ensures InAll(rows, from, until) == InAll(rows, from, mid) + InAll(rows, mid, until)
  {
    hide InSpan, Meet;
    if rows != [] {
      AllAdds(rows[1..], from, mid, until);
      SpanSplits(from, mid, until, rows[0].timestamp);
    }
  }

  lemma {:induction false} BondAdds(rows: seq<Bond>, from: int, mid: int, until: int)
    requires Meet(from, mid, until)
    ensures BondIn(rows, from, until) == BondIn(rows, from, mid) + BondIn(rows, mid, until)
  {
    hide InSpan, Meet;
    if rows != [] {
      BondAdds(rows[1..], from, mid, until);
      SpanSplits(from, mid, until, rows[0].timestamp);
    }
  }

  lemma HasSplits(rows: seq<Entry>, from: int, mid: int, until: int, pool: string)
    requires Meet(from, mid, until)
    ensures HasPool(rows, from, until, pool) <==> HasPool(rows, from, mid, pool) || HasPool(rows, mid, until, pool)
  {
    hide InSpan, Meet;
    forall i | 0 <= i < |rows|
      ensures InSpan(from, until, rows[i].timestamp) <==> InSpan(from, mid, rows[i].timestamp) || InSpan(mid, until, rows[i].timestamp)
    {
      SpanSplits(from, mid, until, rows[i].timestamp);
    }
  }

  /** Adding the next bucket's map to the running one gives the map of the longer span. */
  lemma Extends(m: map<string, int>, n: map<string, int>, rows: seq<Entry>, from: int, mid: int, until: int)
    requires MapOf(m, rows, from, mid) && MapOf(n, rows, mid, until) && Meet(from, mid, until)
    ensures MapOf(Merged(m, n), rows, from, until)
  {
    hide HasPool, InPool, Meet;
    forall p
      ensures HasPool(rows, from, until, p) <==> HasPool(rows, from, mid, p) || HasPool(rows, mid, until, p)
      ensures InPool(rows, from, until, p) == InPool(rows, from, mid, p) + InPool(rows, mid, until, p)
    {
      HasSplits(rows, from, mid, until, p);
      PoolAdds(rows, from, mid, until, p);
    }
  }

  // ---- pools add up ----

  function SumOfPools(names: seq<string>, rows: seq<Entry>, from: int, until: int): int {
    if names == [] then 0
    else SumOfPools(names[..|names| - 1], rows, from, until) + InPool(rows, from, until, names[|names| - 1])
  }

  lemma {:induction false} SumAtIsSumOfPools(names: seq<string>, m: map<string, int>, rows: seq<Entry>, from: int, until: int)
    requires MapOf(m, rows, from, until)
    ensures SumAt(names, m) == SumOfPools(names, rows, from, until)
  {
    hide HasPool, InPool, At;
    if names != [] {
      SumAtIsSumOfPools(names[..|names| - 1], m, rows, from, until);
    }
  }

  predicate Unique(names: seq<string>) {
    forall i, j :: 0 <= i < j < |names| ==> names[i] != names[j]
  }

  /** A row adds its amount to its own pool and to no other. */
  lemma {:induction false} OneEntry(names: seq<string>, rows: seq<Entry>, from: int, until: int)
    requires Unique(names) && rows != []
    ensures SumOfPools(names, rows, from, until)
         == SumOfPools(names, rows[1..], from, until)
            + if InSpan(from, until, rows[0].timestamp) && rows[0].pool in names then rows[0].amount else 0
  {
    hide InSpan;
    if names != [] {
      var n := |names| - 1;
      OneEntry(names[..n], rows, from, until);
      assert forall x :: x in names <==> x in names[..n] || x == names[n];
    }
  }

  lemma {:induction false} NoEntries(names: seq<string>, from: int, until: int)
    ensures SumOfPools(names, [], from, until) == 0
  {
    if names != [] {
      NoEntries(names[..|names| - 1], from, until);
    }
  }

  lemma {:induction false} SumOfPoolsIsAll(names: seq<string>, rows: seq<Entry>, from: int, until: int)
    requires Unique(names)
    requires forall i :: 0 <= i < |rows| && InSpan(from, until, rows[i].timestamp) ==> rows[i].pool in names
    ensures SumOfPools(names, rows, from, until) == InAll(rows, from, until)
  {
    hide InSpan, SumOfPools, Unique;
    if rows == [] {
      NoEntries(names, from, until);
    } else {
      SumOfPoolsIsAll(names, rows[1..], from, until);
      OneEntry(names, rows, from, until);
    }
  }

  lemma AscendingIsUnique(names: seq<string>)
    requires Ascending(names)
    ensures Unique(names)
  {
    hide Less;
    forall i, j | 0 <= i < j < |names| ensures names[i] != names[j] {
      LessIsStrict(names[i]);
    }
  }

  lemma SumAtIsAll(names: seq<string>, m: map<string, int>, rows: seq<Entry>, from: int, until: int)
    requires MapOf(m, rows, from, until) && Ascending(names)
    requires forall p :: p in m ==> p in names
    ensures SumAt(names, m) == InAll(rows, from, until)
  {
    hide InSpan, InPool, At, SumAt, InAll, Ascending, Unique, SumOfPools;
    AscendingIsUnique(names);
    SumAtIsSumOfPools(names, m, rows, from, until);
    forall i | 0 <= i < |rows| && InSpan(from, until, rows[i].timestamp) ensures rows[i].pool in names {
      assert HasPool(rows, from, until, rows[i].pool);
    }
    SumOfPoolsIsAll(names, rows, from, until);
  }

  // ---- meta is the sum of the intervals ----

  const NO_FIGURES: Figures := Figures(0, 0, 0, 0, 0)

  function SumFigures(items: seq<Item>): Figures {
    if items == [] then NO_FIGURES else SumFigures(items[..|items| - 1]).Plus(items[|items| - 1].figures)
  }

  /** What an item shows for a pool; a pool that is not listed earned nothing. */
  function Shown(pools: seq<PoolItem>, pool: string): (int, int, int) {
    if pools == [] then (0, 0, 0)
    else if pools[0].pool == pool then (pools[0].runeLiquidityFees, pools[0].rewards, pools[0].earnings)
    else Shown(pools[1..], pool)
  }

  function Plus3(a: (int, int, int), b: (int, int, int)): (int, int, int) {
    (a.0 + b.0, a.1 + b.1, a.2 + b.2)
  }

  function SumShown(items: seq<Item>, pool: string): (int, int, int) {
    if items == [] then (0, 0, 0) else Plus3(SumShown(items[..|items| - 1], pool), Shown(items[|items| - 1].pools, pool))
  }

  function ShownIn(fees: seq<Entry>, rewards: seq<Entry>, from: int, until: int, pool: string): (int, int, int) {
    var f, r := InPool(fees, from, until, pool), InPool(rewards, from, until, pool);
    (f, r, f + r)
  }

  lemma {:induction false} ShownIsIn(pools: seq<PoolItem>, fees: seq<Entry>, rewards: seq<Entry>,
                                     from: int, until: int, pool: string)
    requires forall i :: 0 <= i < |pools| ==> pools[i] == PoolItemIn(fees, rewards, from, until, pools[i].pool)
    requires HasPool(fees, from, until, pool) || HasPool(rewards, from, until, pool) ==> pool in PoolNames(pools)
    ensures Shown(pools, pool) == ShownIn(fees, rewards, from, until, pool)
    decreases |pools|
  {
    hide HasPool, InPool;
    if pools == [] {
      NoPoolNoSum(fees, from, until, pool);
      NoPoolNoSum(rewards, from, until, pool);
    } else if pools[0].pool != pool {
      assert PoolNames(pools) == [pools[0].pool] + PoolNames(pools[1..]);
      ShownIsIn(pools[1..], fees, rewards, from, until, pool);
    }
  }

  /** Interval by interval, every figure and every pool's fees, rewards and earnings add up to what
      one item over the whole span reports. */
  lemma {:induction false} IntervalsAddUp(items: seq<Item>, fees: seq<Entry>, rewards: seq<Entry>, bonds: seq<Bond>,
                                          b: Buckets, pool: string)
    requires WellFormed(b) && |items| <= b.Count()
    requires forall j :: 0 <= j < |items| ==> Reports(items[j], fees, rewards, bonds, b.timestamps[j], b.timestamps[j + 1])
    ensures SumFigures(items) == FiguresIn(fees, rewards, bonds, b.timestamps[0], b.timestamps[|items|])
    ensures SumShown(items, pool) == ShownIn(fees, rewards, b.timestamps[0], b.timestamps[|items|], pool)
  {
    hide WellFormed, Meet, InPool, HasPool, FiguresIn, ShownIn, PoolItemIn, Figures.Plus, Plus3, Shown, Ascending;
    var first := b.timestamps[0];
    if items == [] {
      Empty(fees, rewards, bonds, first, pool);
    } else {
      var n := |items| - 1;
      var from, until := b.timestamps[n], b.timestamps[n + 1];
      IntervalsAddUp(items[..n], fees, rewards, bonds, b, pool);
      SpansMeet(b, n);
      SpansAddUp(fees, rewards, bonds, first, from, until, pool);
      ShownIsIn(items[n].pools, fees, rewards, from, until, pool);
    }
  }

  lemma SpansAddUp(fees: seq<Entry>, rewards: seq<Entry>, bonds: seq<Bond>, from: int, mid: int, until: int, pool: string)
    requires Meet(from, mid, until)
    ensures FiguresIn(fees, rewards, bonds, from, until)
         == FiguresIn(fees, rewards, bonds, from, mid).Plus(FiguresIn(fees, rewards, bonds, mid, until))
    ensures ShownIn(fees, rewards, from, until, pool)
         == Plus3(ShownIn(fees, rewards, from, mid, pool), ShownIn(fees, rewards, mid, until, pool))
  {
    hide Meet, InAll, InPool, BondIn;
    AllAdds(fees, from, mid, until);
    AllAdds(rewards, from, mid, until);
    BondAdds(bonds, from, mid, until);
    PoolAdds(fees, from, mid, until, pool);
    PoolAdds(rewards, from, mid, until, pool);
  }

  lemma Empty(fees: seq<Entry>, rewards: seq<Entry>, bonds: seq<Bond>, at: int, pool: string)
    ensures FiguresIn(fees, rewards, bonds, at, at) == NO_FIGURES && ShownIn(fees, rewards, at, at, pool) == (0, 0, 0)
  {
    AllAdds(fees, at, at, at);
    AllAdds(rewards, at, at, at);
    BondAdds(bonds, at, at, at);
    PoolAdds(fees, at, at, at, pool);
    PoolAdds(rewards, at, at, at, pool);
  }

  /** `meta` is the field-wise and per-pool sum of the intervals. */
  lemma MetaIsSumOfIntervals(intervals: seq<Item>, meta: Item, fees: seq<Entry>, rewards: seq<Entry>, bonds: seq<Bond>,
                             b: Buckets, pool: string)
    requires WellFormed(b) && |intervals| == b.Count()
    requires forall j :: 0 <= j < |intervals| ==> Reports(intervals[j], fees, rewards, bonds, b.timestamps[j], b.timestamps[j + 1])
    requires Reports(meta, fees, rewards, bonds, b.timestamps[0], b.timestamps[b.Count()])
    ensures meta.figures == SumFigures(intervals)
    ensures Shown(meta.pools, pool) == SumShown(intervals, pool)
  {
    hide WellFormed, InPool, HasPool, SumFigures, SumShown, Shown, FiguresIn;
    IntervalsAddUp(intervals, fees, rewards, bonds, b, pool);
    ShownIsIn(meta.pools, fees, rewards, b.timestamps[0], b.timestamps[b.Count()], pool);
  }
}
