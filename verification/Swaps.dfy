/** Swap history: per-bucket totals by direction, and their sum. */
module Swaps {
  import opened Wrappers
  import opened Time
  import opened Intervals
  import opened Buckets
  import opened GroupingKey
  import opened Sums
  import opened Assets
  import opened Depths
  import opened Directions

  datatype SwapRow = SwapRow(timestamp: int, pool: string, direction: int, fromE8: int, toE8: int,
                             liqFeeInRuneE8: int, swapSlipBp: int)

  // ---- totals ----

  /** How the response groups the eight directions. */
  datatype Side = ToAsset | ToRune | SynthMint | SynthRedeem

  datatype Measure = Count | Volume | Fees | Slip

  datatype Split = Split(toAsset: int, toRune: int, synthMint: int, synthRedeem: int) {
    function Of(side: Side): int {
      match side
      case ToAsset => toAsset
      case ToRune => toRune
      case SynthMint => synthMint
      case SynthRedeem => synthRedeem
    }

    function Plus(s: Split): Split {
      Split(toAsset + s.toAsset, toRune + s.toRune, synthMint + s.synthMint, synthRedeem + s.synthRedeem)
    }

    function Total(): int {
      toAsset + toRune + synthMint + synthRedeem
    }
  }

  datatype Totals = Totals(count: Split, volume: Split, fees: Split, slip: Split) {
    function Of(m: Measure): Split {
      match m
      case Count => count
      case Volume => volume
      case Fees => fees
      case Slip => slip
    }

    function Plus(t: Totals): Totals {
      Totals(count.Plus(t.count), volume.Plus(t.volume), fees.Plus(t.fees), slip.Plus(t.slip))
    }
  }

  const NO_SPLIT: Split := Split(0, 0, 0, 0)
  const NO_TOTALS: Totals := Totals(NO_SPLIT, NO_SPLIT, NO_SPLIT, NO_SPLIT)

  predicate IsSide(side: Side, direction: int) {
    match side
    case ToAsset => direction == 0 || direction == 4 || direction == 6
    case ToRune => direction == 1 || direction == 5 || direction == 7
    case SynthMint => direction == 2
    case SynthRedeem => direction == 3
  }

  /** The `CASE` column of a measure and a side. */
  function Column(m: Measure, side: Side): SwapRow -> int {
    (r: SwapRow) => Cell(m, side, r)
  }

  function Cell(m: Measure, side: Side, r: SwapRow): int {
    if IsSide(side, r.direction) then MeasureOf(m, side, r) else 0
  }

  /** Volume is the RUNE leg: what goes in on the way out of RUNE, what comes out on the way in. */
  function MeasureOf(m: Measure, side: Side, r: SwapRow): int {
    match m
    case Count => 1
    case Volume => if side.ToAsset? || side.SynthMint? then r.fromE8 else r.toE8
    case Fees => r.liqFeeInRuneE8
    case Slip => r.swapSlipBp
  }

  function SplitOf(rows: seq<SwapRow>, m: Measure): Split {
    Split(Sum(rows, Column(m, ToAsset)), Sum(rows, Column(m, ToRune)),
          Sum(rows, Column(m, SynthMint)), Sum(rows, Column(m, SynthRedeem)))
  }

  /** The aggregate `SELECT` over some rows. */
  function Aggregate(rows: seq<SwapRow>): Totals {
    Totals(SplitOf(rows, Count), SplitOf(rows, Volume), SplitOf(rows, Fees), SplitOf(rows, Slip))
  }

  // ---- the query ----

  predicate Selects(pool: Option<string>, from: int, until: int, r: SwapRow) {
    InSpan(from, until, r.timestamp) && (pool.Some? ==> r.pool == pool.value)
  }

  function InWindow(rows: seq<SwapRow>, pool: Option<string>, from: int, until: int): seq<SwapRow> {
    if rows == [] then []
    else (if Selects(pool, from, until, rows[0]) then [rows[0]] else []) + InWindow(rows[1..], pool, from, until)
  }

  function KeyOf(b: Buckets): SwapRow -> int
    requires |b.timestamps| >= 2
  {
    (r: SwapRow) => GroupKey(b, r.timestamp)
  }

  function Selected(rows: seq<SwapRow>, b: Buckets, pool: Option<string>): seq<SwapRow>
    requires |b.timestamps| >= 2
  {
    InWindow(rows, pool, b.timestamps[0], b.timestamps[|b.timestamps| - 1])
  }

  /** `GROUP BY` the bucket key. */
  function QueryTotals(rows: seq<SwapRow>, b: Buckets, pool: Option<string>): map<int, Totals>
    requires |b.timestamps| >= 2
  {
    var selected := Selected(rows, b, pool);
    map k | k in (set i | 0 <= i < |selected| :: KeyOf(b)(selected[i])) :: Aggregate(Group(selected, KeyOf(b), k))
  }

  // ---- the endpoint ----

  datatype Item = Item(start: int, end: int, totals: Totals)

  predicate NonNegative(rows: seq<SwapRow>) {
    forall i :: 0 <= i < |rows| ==> rows[i].timestamp >= 0
  }

  /** What a query over one span alone would report. */
  function SpanItem(rows: seq<SwapRow>, pool: Option<string>, from: int, until: int): Item {
    Item(from, until, Aggregate(InWindow(rows, pool, from, until)))
  }

  lemma NoGroups(rows: seq<SwapRow>, key: SwapRow -> int)
    ensures GroupTotals([], rows, key) == NO_TOTALS
  {
  }

  /** Every interval is the aggregate over its own bucket, and `meta`, accumulated from the
      intervals, is the aggregate over the whole range, in every field. */
  method SwapHistory(rows: seq<SwapRow>, b: Buckets, pool: Option<string>) returns (intervals: seq<Item>, meta: Item)
    requires WellFormed(b) && NonNegative(rows)
    ensures |intervals| == b.Count()
    ensures forall i :: 0 <= i < b.Count() ==> intervals[i] == SpanItem(rows, pool, b.timestamps[i], b.timestamps[i + 1])
    ensures meta == SpanItem(rows, pool, b.timestamps[0], b.timestamps[b.Count()])
  {
    hide QueryTotals, Aggregate, InWindow, Selected, Totals.Plus, IsRun, NonNegative, GroupTotals;
    var byBucket := QueryTotals(rows, b, pool);
    var metaTotals := NO_TOTALS;
    intervals := [];
    ghost var selected := Selected(rows, b, pool);
    NoGroups(selected, KeyOf(b));
    var i := 0;
    while i < b.Count()
      invariant 0 <= i <= b.Count() && |intervals| == i
      invariant forall j :: 0 <= j < i ==> intervals[j] == SpanItem(rows, pool, b.timestamps[j], b.timestamps[j + 1])
      invariant metaTotals == GroupTotals(b.timestamps[..i], selected, KeyOf(b))
    {
      var from := b.timestamps[i];
      var totals := if from in byBucket then byBucket[from] else NO_TOTALS;
      QueryGives(rows, b, pool, from);
      GroupIsBucket(rows, b, pool, i);
      metaTotals := metaTotals.Plus(totals);
      intervals := intervals + [Item(from, b.timestamps[i + 1], totals)];
      assert b.timestamps[..i + 1] == b.timestamps[..i] + [from];
      GroupTotalsStep(b.timestamps[..i], from, selected, KeyOf(b));
      i := i + 1;
    }
    meta := Item(b.timestamps[0], b.timestamps[b.Count()], metaTotals);
    MetaIsWhole(rows, b, pool);
  }

  /** What accumulating the groups of some keys gives. */
  function GroupTotals(keys: seq<int>, rows: seq<SwapRow>, key: SwapRow -> int): Totals {
    if keys == [] then NO_TOTALS
    else GroupTotals(keys[..|keys| - 1], rows, key).Plus(Aggregate(Group(rows, key, keys[|keys| - 1])))
  }

  lemma GroupTotalsStep(keys: seq<int>, k: int, rows: seq<SwapRow>, key: SwapRow -> int)
    ensures GroupTotals(keys + [k], rows, key) == GroupTotals(keys, rows, key).Plus(Aggregate(Group(rows, key, k)))
  {
    assert (keys + [k])[..|keys|] == keys;
  }

  /** A bucket without rows is missing from the query and reads as zero. */
  lemma QueryGives(rows: seq<SwapRow>, b: Buckets, pool: Option<string>, k: int)
    requires |b.timestamps| >= 2
    ensures var q := QueryTotals(rows, b, pool);
            (if k in q then q[k] else NO_TOTALS) == Aggregate(Group(Selected(rows, b, pool), KeyOf(b), k))
  {
    hide Selected, Aggregate;
    var selected := Selected(rows, b, pool);
    if k !in QueryTotals(rows, b, pool) {
      NoSuchKey(selected, KeyOf(b), k);
      assert Aggregate([]) == NO_TOTALS by { AggregateOfNothing(); }
    }
  }

  lemma AggregateOfNothing()
    ensures Aggregate([]) == NO_TOTALS
  {
  }

  lemma {:induction false} NoSuchKey(rows: seq<SwapRow>, key: SwapRow -> int, k: int)
    requires forall i :: 0 <= i < |rows| ==> key(rows[i]) != k
    ensures Group(rows, key, k) == []
  {
    if rows != [] {
      NoSuchKey(rows[1..], key, k);
    }
  }

  lemma {:induction false} GroupIsBucket(rows: seq<SwapRow>, b: Buckets, pool: Option<string>, j: nat)
    requires WellFormed(b) && NonNegative(rows) && j < b.Count()
    ensures Group(Selected(rows, b, pool), KeyOf(b), b.timestamps[j])
         == InWindow(rows, pool, b.timestamps[j], b.timestamps[j + 1])
    decreases |rows|
  {
    hide GroupKey, WellFormed, InSpan;
    if rows != [] {
      GroupIsBucket(rows[1..], b, pool, j);
      KeyedIsInBucket(b, j, rows[0].timestamp);
      var rest := Selected(rows[1..], b, pool);
      if Selects(pool, b.timestamps[0], b.timestamps[b.Count()], rows[0]) {
        assert Selected(rows, b, pool) == [rows[0]] + rest;
        assert ([rows[0]] + rest)[1..] == rest;
      } else {
        assert Selected(rows, b, pool) == rest;
      }
    }
  }

  lemma {:induction false} InWindowExactly(rows: seq<SwapRow>, pool: Option<string>, from: int, until: int, i: nat)
    requires i < |InWindow(rows, pool, from, until)|
    ensures var r := InWindow(rows, pool, from, until)[i]; Selects(pool, from, until, r) && r in rows
  {
    hide Selects;
    if Selects(pool, from, until, rows[0]) {
      assert InWindow(rows, pool, from, until) == [rows[0]] + InWindow(rows[1..], pool, from, until);
      if i > 0 {
        InWindowExactly(rows[1..], pool, from, until, i - 1);
      }
    } else {
      assert InWindow(rows, pool, from, until) == InWindow(rows[1..], pool, from, until);
      InWindowExactly(rows[1..], pool, from, until, i);
    }
  }

  lemma NoSums(rows: seq<SwapRow>, key: SwapRow -> int, m: Measure, side: Side)
    ensures NO_TOTALS.Of(m).Of(side) == 0 == SumOfGroups([], rows, key, Column(m, side))
  {
    hide Column;
  }

  lemma PlusAt(t: Totals, u: Totals, m: Measure, side: Side)
    ensures t.Plus(u).Of(m).Of(side) == t.Of(m).Of(side) + u.Of(m).Of(side)
  {
  }

  lemma AggregateAt(rows: seq<SwapRow>, m: Measure, side: Side)
    ensures Aggregate(rows).Of(m).Of(side) == Sum(rows, Column(m, side))
  {
    hide Sum, Column;
  }

  lemma {:induction false} GroupTotalsAt(keys: seq<int>, rows: seq<SwapRow>, key: SwapRow -> int, m: Measure, side: Side)
    ensures GroupTotals(keys, rows, key).Of(m).Of(side) == SumOfGroups(keys, rows, key, Column(m, side))
  {
    hide Column, Aggregate, Sum, SumOfGroups, GroupTotals, Group, Totals.Plus, Totals.Of, Split.Of;
    if keys == [] {
      NoGroups(rows, key);
      NoSums(rows, key, m, side);
    } else {
      var n := |keys| - 1;
      GroupTotalsStep(keys[..n], keys[n], rows, key);
      PlusAt(GroupTotals(keys[..n], rows, key), Aggregate(Group(rows, key, keys[n])), m, side);
      AggregateAt(Group(rows, key, keys[n]), m, side);
      GroupTotalsAt(keys[..n], rows, key, m, side);
      SumOfGroupsLast(keys[..n], keys[n], rows, key, Column(m, side));
      assert keys == keys[..n] + [keys[n]];
    }
  }

  lemma {:induction false} SumOfGroupsLast(keys: seq<int>, k: int, rows: seq<SwapRow>, key: SwapRow -> int, column: SwapRow -> int)
    ensures SumOfGroups(keys + [k], rows, key, column) == SumOfGroups(keys, rows, key, column) + Sum(Group(rows, key, k), column)
  {
    if keys == [] {
      assert keys + [k] == [k];
    } else {
      SumOfGroupsLast(keys[1..], k, rows, key, column);
      assert (keys + [k])[1..] == keys[1..] + [k];
    }
  }

  lemma SelectedKeyIsListed(rows: seq<SwapRow>, b: Buckets, pool: Option<string>, i: nat)
    requires WellFormed(b) && NonNegative(rows) && i < |Selected(rows, b, pool)|
    ensures KeyOf(b)(Selected(rows, b, pool)[i]) in b.timestamps[..b.Count()]
  {
    hide GroupKey, IsRun, InWindow;
    InWindowExactly(rows, pool, b.timestamps[0], b.timestamps[b.Count()], i);
    var j := GroupKeyNamesItsBucket(b, Selected(rows, b, pool)[i].timestamp);
    assert b.timestamps[..b.Count()][j] == b.timestamps[j];
  }

  lemma TotalsByGroups(keys: seq<int>, rows: seq<SwapRow>, key: SwapRow -> int)
    requires Distinct(keys)
    requires forall i :: 0 <= i < |rows| ==> key(rows[i]) in keys
    ensures GroupTotals(keys, rows, key) == Aggregate(rows)
  {
    hide Sum, Column, GroupTotals;
    forall m: Measure, side: Side
      ensures GroupTotals(keys, rows, key).Of(m).Of(side) == Aggregate(rows).Of(m).Of(side)
    {
      GroupTotalsAt(keys, rows, key, m, side);
      SumByGroups(keys, rows, key, Column(m, side));
    }
    SameTotals(GroupTotals(keys, rows, key), Aggregate(rows));
  }

  /** No row in range is lost or counted twice: the buckets' totals add up to the whole range's. */
  lemma MetaIsWhole(rows: seq<SwapRow>, b: Buckets, pool: Option<string>)
    requires WellFormed(b) && NonNegative(rows)
    ensures GroupTotals(b.timestamps[..b.Count()], Selected(rows, b, pool), KeyOf(b))
         == Aggregate(InWindow(rows, pool, b.timestamps[0], b.timestamps[b.Count()]))
  {
    hide GroupKey, IsRun, InWindow, GroupTotals, Aggregate;
    var selected := Selected(rows, b, pool);
    forall i | 0 <= i < |selected| ensures KeyOf(b)(selected[i]) in b.timestamps[..b.Count()] {
      SelectedKeyIsListed(rows, b, pool, i);
    }
    forall i, j | 0 <= i < j < b.Count() ensures b.timestamps[i] != b.timestamps[j] {
      StartsAreDistinct(b, i, j);
    }
    TotalsByGroups(b.timestamps[..b.Count()], selected, KeyOf(b));
  }

  lemma SameTotals(t: Totals, u: Totals)
    requires forall m: Measure, side: Side :: t.Of(m).Of(side) == u.Of(m).Of(side)
    ensures t == u
  {
    SameSplit(t, u, Count);
    SameSplit(t, u, Volume);
    SameSplit(t, u, Fees);
    SameSplit(t, u, Slip);
  }

  lemma SameSplit(t: Totals, u: Totals, m: Measure)
    requires forall m: Measure, side: Side :: t.Of(m).Of(side) == u.Of(m).Of(side)
    ensures t.Of(m) == u.Of(m)
  {
    assert t.Of(m).Of(ToAsset) == u.Of(m).Of(ToAsset);
    assert t.Of(m).Of(ToRune) == u.Of(m).Of(ToRune);
    assert t.Of(m).Of(SynthMint) == u.Of(m).Of(SynthMint);
    assert t.Of(m).Of(SynthRedeem) == u.Of(m).Of(SynthRedeem);
  }
}
