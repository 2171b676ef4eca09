/** Earnings history: fees and rewards per pool, per bucket, and their sum. */
module Earnings {
  import opened Wrappers
  import opened Buckets
  import opened GroupingKey
  import opened Names

  /** A row of fees or of pool rewards. Rewards may be negative. */
  datatype Entry = Entry(timestamp: int, pool: string, amount: int)

  datatype Bond = Bond(timestamp: int, amount: int)

  datatype PoolItem = PoolItem(pool: string, assetLiquidityFees: int, runeLiquidityFees: int, totalLiquidityFeesRune: int,
                               rewards: int, earnings: int, saverEarning: int)

  datatype Figures = Figures(liquidityFees: int, blockRewards: int, earnings: int, bondingEarnings: int,
                             liquidityEarnings: int) {
    function Plus(f: Figures): Figures {
      Figures(liquidityFees + f.liquidityFees, blockRewards + f.blockRewards, earnings + f.earnings,
              bondingEarnings + f.bondingEarnings, liquidityEarnings + f.liquidityEarnings)
    }
  }

  datatype Item = Item(start: int, end: int, figures: Figures, pools: seq<PoolItem>)

  // ---- specification: what the rows of one span amount to ----

  function InPool(rows: seq<Entry>, from: int, until: int, pool: string): int {
    if rows == [] then 0
    else
      (if InSpan(from, until, rows[0].timestamp) && rows[0].pool == pool then rows[0].amount else 0)
      + InPool(rows[1..], from, until, pool)
  }

  function InAll(rows: seq<Entry>, from: int, until: int): int {
    if rows == [] then 0
    else (if InSpan(from, until, rows[0].timestamp) then rows[0].amount else 0) + InAll(rows[1..], from, until)
  }

  function BondIn(rows: seq<Bond>, from: int, until: int): int {
    if rows == [] then 0
    else (if InSpan(from, until, rows[0].timestamp) then rows[0].amount else 0) + BondIn(rows[1..], from, until)
  }

  predicate HasPool(rows: seq<Entry>, from: int, until: int, pool: string) {
    exists i :: 0 <= i < |rows| && InSpan(from, until, rows[i].timestamp) && rows[i].pool == pool
  }

  function FiguresIn(fees: seq<Entry>, rewards: seq<Entry>, bonds: seq<Bond>, from: int, until: int): Figures {
    var f, r, b := InAll(fees, from, until), InAll(rewards, from, until), BondIn(bonds, from, until);
    Figures(f, b + r, f + b + r, b, f + r)
  }

  function PoolItemIn(fees: seq<Entry>, rewards: seq<Entry>, from: int, until: int, pool: string): PoolItem {
    var f, r := InPool(fees, from, until, pool), InPool(rewards, from, until, pool);
    PoolItem(pool, 0, f, f, r, f + r, 0)
  }

  /** An item of the response, from the rows alone: every pool with a fee or a reward in the span is
      listed once, in ascending order, with its own sums; the figures are the sums over all rows. */
  ghost predicate Reports(item: Item, fees: seq<Entry>, rewards: seq<Entry>, bonds: seq<Bond>, from: int, until: int) {
    && item.start == from && item.end == until
    && item.figures == FiguresIn(fees, rewards, bonds, from, until)
    && Ascending(PoolNames(item.pools))
    && (forall p :: p in PoolNames(item.pools) <==> HasPool(fees, from, until, p) || HasPool(rewards, from, until, p))
    && (forall i :: 0 <= i < |item.pools| ==> item.pools[i] == PoolItemIn(fees, rewards, from, until, item.pools[i].pool))
  }

  function PoolNames(pools: seq<PoolItem>): seq<string> {
    seq(|pools|, i requires 0 <= i < |pools| => pools[i].pool)
  }

  // ---- build_item ----

  function At(m: map<string, int>, pool: string): int {
    if pool in m then m[pool] else 0
  }

  function SumAt(names: seq<string>, m: map<string, int>): int {
    if names == [] then 0 else SumAt(names[..|names| - 1], m) + At(m, names[|names| - 1])
  }

  function PoolItemOf(fees: map<string, int>, rewards: map<string, int>, name: string): PoolItem {
    PoolItem(name, 0, At(fees, name), At(fees, name), At(rewards, name), At(fees, name) + At(rewards, name), 0)
  }

  function EarningsOf(pools: seq<PoolItem>): int {
    if pools == [] then 0 else EarningsOf(pools[..|pools| - 1]) + pools[|pools| - 1].earnings
  }

  method NamesOf(fees: map<string, int>, rewards: map<string, int>) returns (names: seq<string>)
    ensures Ascending(names)
    ensures forall p :: p in names <==> p in fees || p in rewards
  {
    hide SortNames, Dedup, Ascending;
    var feeNames := Enumerate(fees.Keys);
    var rewardNames := Enumerate(rewards.Keys);
    names := Dedup(SortNames(feeNames + rewardNames));
    SortDedup(feeNames + rewardNames);
  }

  /** Every pool on either side is listed once, in ascending order; the pools' earnings add up to
      `liquidityEarnings`. */
  method BuildItem(start: int, end: int, fees: map<string, int>, rewards: map<string, int>, bondE8: int) returns (item: Item)
    ensures item.start == start && item.end == end
    ensures Ascending(PoolNames(item.pools))
    ensures forall p :: p in PoolNames(item.pools) <==> p in fees || p in rewards
    ensures forall i :: 0 <= i < |item.pools| ==> item.pools[i] == PoolItemOf(fees, rewards, item.pools[i].pool)
    ensures var f, r := SumAt(PoolNames(item.pools), fees), SumAt(PoolNames(item.pools), rewards);
            item.figures == Figures(f, bondE8 + r, f + bondE8 + r, bondE8, f + r)
    ensures EarningsOf(item.pools) == item.figures.liquidityEarnings
  {
    hide Ascending, SumAt, EarningsOf, PoolItemOf, At;
    var names := NamesOf(fees, rewards);
    var pools, totalFees, totalRewards := Itemize(names, fees, rewards);
    assert PoolNames(pools) == names;
    var liquidityEarnings := totalFees + totalRewards;
    item := Item(start, end,
                 Figures(totalFees, bondE8 + totalRewards, totalFees + bondE8 + totalRewards, bondE8, liquidityEarnings), pools);
  }

  method Itemize(names: seq<string>, fees: map<string, int>, rewards: map<string, int>)
    returns (pools: seq<PoolItem>, totalFees: int, totalRewards: int)
    ensures |pools| == |names|
    ensures forall j :: 0 <= j < |names| ==> pools[j] == PoolItemOf(fees, rewards, names[j]) && pools[j].pool == names[j]
    ensures totalFees == SumAt(names, fees) && totalRewards == SumAt(names, rewards)
    ensures EarningsOf(pools) == totalFees + totalRewards
  {
    hide At, SumAt, EarningsOf, PoolItemOf;
    pools, totalFees, totalRewards := [], 0, 0;
    NoSums(fees, rewards);
    var i := 0;
    while i < |names|
      invariant 0 <= i <= |names| && |pools| == i
      invariant forall j :: 0 <= j < i ==> pools[j] == PoolItemOf(fees, rewards, names[j]) && pools[j].pool == names[j]
      invariant totalFees == SumAt(names[..i], fees) && totalRewards == SumAt(names[..i], rewards)
      invariant EarningsOf(pools) == totalFees + totalRewards
    {
      var name := names[i];
      var fee, reward := At(fees, name), At(rewards, name);
      SumAtNext(names, i, fees);
      SumAtNext(names, i, rewards);
      totalFees := totalFees + fee;
      totalRewards := totalRewards + reward;
      var pool := PoolItem(name, 0, fee, fee, reward, fee + reward, 0);
      EarningsOfNext(pools, pool);
      assert pool == PoolItemOf(fees, rewards, name) by { ItemIsOf(fees, rewards, name); }
      pools := pools + [pool];
      i := i + 1;
    }
    assert names[..i] == names;
  }

  lemma NoSums(fees: map<string, int>, rewards: map<string, int>)
    ensures SumAt([], fees) == 0 == SumAt([], rewards) && EarningsOf([]) == 0
  {
  }

  lemma ItemIsOf(fees: map<string, int>, rewards: map<string, int>, name: string)
    ensures PoolItemOf(fees, rewards, name)
         == var fee, reward := At(fees, name), At(rewards, name); PoolItem(name, 0, fee, fee, reward, fee + reward, 0)
  {
  }

  lemma SumAtNext(names: seq<string>, i: nat, m: map<string, int>)
    requires i < |names|
    ensures SumAt(names[..i + 1], m) == SumAt(names[..i], m) + At(m, names[i])
  {
    assert names[..i + 1][..i] == names[..i];
  }

  lemma EarningsOfNext(pools: seq<PoolItem>, p: PoolItem)
    ensures EarningsOf(pools + [p]) == EarningsOf(pools) + p.earnings
  {
    assert (pools + [p])[..|pools|] == pools;
  }

  // ---- accumulating maps ----

  function Merged(m: map<string, int>, n: map<string, int>): map<string, int> {
    map p | p in m.Keys + n.Keys :: At(m, p) + At(n, p)
  }

  /** Add a bucket's map into the running one; the order the entries come in does not matter. */
  method AddInto(m: map<string, int>, n: map<string, int>) returns (sum: map<string, int>)
    ensures sum == Merged(m, n)
  {
    sum := m;
    var rest := n.Keys;
    while rest != {}
      invariant rest <= n.Keys
      invariant sum.Keys == m.Keys + (n.Keys - rest)
      invariant forall p :: p in sum ==> sum[p] == At(m, p) + if p in rest then 0 else At(n, p)
    {
      var pool :| pool in rest;
      rest := rest - {pool};
      sum := sum[pool := At(sum, pool) + n[pool]];
    }
  }

  // ---- collect ----

  type Grouped = seq<(int, string, int)>

  function GroupedAt(rows: Grouped, bucket: int, pool: string): int {
    if rows == [] then 0
    else
      var last := rows[|rows| - 1];
      GroupedAt(rows[..|rows| - 1], bucket, pool) + if last.0 == bucket && last.1 == pool then last.2 else 0
  }

  predicate GroupedHas(rows: Grouped, bucket: int, pool: string) {
    exists i :: 0 <= i < |rows| && rows[i].0 == bucket && rows[i].1 == pool
  }

  function BucketOf(m: map<int, map<string, int>>, bucket: int): map<string, int> {
    if bucket in m then m[bucket] else map[]
  }

  /** `m` holds, per bucket and pool, the sum of the rows that name them. */
  ghost predicate Collects(m: map<int, map<string, int>>, rows: Grouped) {
    && (forall k, p :: p in BucketOf(m, k) <==> GroupedHas(rows, k, p))
    && (forall k, p :: At(BucketOf(m, k), p) == GroupedAt(rows, k, p))
  }

  /** The grouped rows of a query, as one map per bucket. */
  method Collect(rows: Grouped) returns (out: map<int, map<string, int>>)
    ensures Collects(out, rows)
  {
    hide BucketOf, At, Collects;
    out := map[];
    NothingCollected();
    var i := 0;
    while i < |rows|
      invariant 0 <= i <= |rows|
      invariant Collects(out, rows[..i])
    {
      var (bucket, pool, amount) := rows[i];
      var inner := BucketOf(out, bucket);
      CollectNext(out, rows, i);
      out := out[bucket := inner[pool := At(inner, pool) + amount]];
      i := i + 1;
    }
    assert rows[..i] == rows;
  }

  lemma NothingCollected()
    ensures Collects(map[], [])
  {
  }

  function WithAmount(m: map<int, map<string, int>>, bucket: int, pool: string, amount: int): map<int, map<string, int>> {
    m[bucket := BucketOf(m, bucket)[pool := At(BucketOf(m, bucket), pool) + amount]]
  }

  lemma WithAmountAt(m: map<int, map<string, int>>, bucket: int, pool: string, amount: int, k: int, p: string)
    ensures var n := WithAmount(m, bucket, pool, amount);
            && (p in BucketOf(n, k) <==> p in BucketOf(m, k) || (k == bucket && p == pool))
            && At(BucketOf(n, k), p) == At(BucketOf(m, k), p) + if k == bucket && p == pool then amount else 0
  {
  }

  lemma CollectNext(m: map<int, map<string, int>>, rows: Grouped, i: nat)
    requires i < |rows| && Collects(m, rows[..i])
    ensures Collects(WithAmount(m, rows[i].0, rows[i].1, rows[i].2), rows[..i + 1])
  {
    hide BucketOf, At, GroupedHas, WithAmount;
    HasNext(rows, i);
    assert rows[..i + 1][..i] == rows[..i];
    forall k, p ensures var n := WithAmount(m, rows[i].0, rows[i].1, rows[i].2);
                  && (p in BucketOf(n, k) <==> GroupedHas(rows[..i + 1], k, p))
                  && At(BucketOf(n, k), p) == GroupedAt(rows[..i + 1], k, p)
    {
      WithAmountAt(m, rows[i].0, rows[i].1, rows[i].2, k, p);
    }
  }

  lemma HasNext(rows: Grouped, i: nat)
    requires i < |rows|
    ensures forall k, p :: GroupedHas(rows[..i + 1], k, p) <==> GroupedHas(rows[..i], k, p) || (rows[i].0 == k && rows[i].1 == p)
  {
    forall k, p ensures GroupedHas(rows[..i + 1], k, p) <==> GroupedHas(rows[..i], k, p) || (rows[i].0 == k && rows[i].1 == p) {
      if GroupedHas(rows[..i], k, p) {
        var j :| 0 <= j < i && rows[..i][j].0 == k && rows[..i][j].1 == p;
        assert rows[..i + 1][j] == rows[..i][j];
      }
      if GroupedHas(rows[..i + 1], k, p) {
        var j :| 0 <= j < i + 1 && rows[..i + 1][j].0 == k && rows[..i + 1][j].1 == p;
        assert j < i ==> rows[..i][j] == rows[..i + 1][j];
      }
      if rows[i].0 == k && rows[i].1 == p {
        assert rows[..i + 1][i] == rows[i];
      }
    }
  }
}
