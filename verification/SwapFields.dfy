/** What each field of swap history counts, in terms of the two assets of a swap. */
module SwapFields {
  import opened Wrappers
  import opened Time
  import opened GroupingKey
  import opened Assets
  import opened Depths
  import opened Directions
  import opened Sums
  import opened Swaps
  import opened SwapVolume

  datatype Way = TakesRune | PaysRune | MintsSynth | RedeemsSynth

  /** Where a swap is counted. One without RUNE on exactly one side counts as taking RUNE in. */
  predicate Goes(s: Swap, way: Way) {
    match way
    case TakesRune => !Classified(s) || (IsRune(s.fromAsset) && !CoinTypeOf(s.toAsset).Synth?)
    case PaysRune => Classified(s) && IsRune(s.toAsset) && !CoinTypeOf(s.fromAsset).Synth?
    case MintsSynth => Classified(s) && IsRune(s.fromAsset) && CoinTypeOf(s.toAsset).Synth?
    case RedeemsSynth => Classified(s) && IsRune(s.toAsset) && CoinTypeOf(s.fromAsset).Synth?
  }

  datatype Figure = One | RuneLeg | Fee | SlipPoints

  function FigureOf(s: Swap, figure: Figure): int {
    match figure
    case One => 1
    case RuneLeg => if Classified(s) && IsRune(s.toAsset) then s.toE8 else s.fromE8
    case Fee => s.liqFeeInRuneE8
    case SlipPoints => s.swapSlipBp
  }

  /** Over the swaps of a pool (or of all pools) in a span of time. */
  function SumWhere(rows: seq<SwapRow>, swaps: seq<Swap>, pool: Option<string>, from: int, until: int,
                    way: Way, figure: Figure): int
    requires |rows| == |swaps|
  {
    if rows == [] then 0
    else
      var t, s := rows[0].timestamp, swaps[0];
      (if ToNano(from) <= t < ToNano(until) && (pool.None? || s.pool == pool.value) && Goes(s, way)
       then FigureOf(s, figure) else 0)
      + SumWhere(rows[1..], swaps[1..], pool, from, until, way, figure)
  }

  predicate Directed(s: Swap) {
    s.direction == RecordedDirection(s.fromAsset, s.toAsset)
  }

  predicate AllDirected(swaps: seq<Swap>) {
    forall i :: 0 <= i < |swaps| ==> Directed(swaps[i])
  }

  function WayOf(side: Side): Way {
    match side
    case ToAsset => TakesRune
    case ToRune => PaysRune
    case SynthMint => MintsSynth
    case SynthRedeem => RedeemsSynth
  }

  function FigureFor(m: Measure): Figure {
    match m
    case Count => One
    case Volume => RuneLeg
    case Fees => Fee
    case Slip => SlipPoints
  }

  lemma CellByAssets(r: SwapRow, s: Swap, m: Measure, side: Side)
    requires RowOf(r, s) && Directed(s)
    ensures Cell(m, side, r) == if Goes(s, WayOf(side)) then FigureOf(s, FigureFor(m)) else 0
  {
    DirectionMeans(s.fromAsset, s.toAsset);
    ClassifyMeans(s.fromAsset, s.toAsset);
    RuneIsRune(s.fromAsset);
    RuneIsRune(s.toAsset);
    hide CoinTypeOf, IsRune, Classify, RecordedDirection;
  }

  lemma {:induction false} ColumnByAssets(rows: seq<SwapRow>, swaps: seq<Swap>, pool: Option<string>, from: int, until: int,
                                          m: Measure, side: Side)
    requires RowsOf(rows, swaps) && AllDirected(swaps)
    ensures Sum(InWindow(rows, pool, from, until), Column(m, side))
         == SumWhere(rows, swaps, pool, from, until, WayOf(side), FigureFor(m))
    decreases |rows|
  {
    hide Cell, Goes, FigureOf, Directed, InSpan;
    if rows != [] {
      ColumnByAssets(rows[1..], swaps[1..], pool, from, until, m, side);
      CellByAssets(rows[0], swaps[0], m, side);
      var rest := InWindow(rows[1..], pool, from, until);
      SpanIs(from, until, rows[0].timestamp);
      if Selects(pool, from, until, rows[0]) {
        SumHead(rows[0], rest, Column(m, side));
        assert InWindow(rows, pool, from, until) == [rows[0]] + rest;
      } else {
        assert InWindow(rows, pool, from, until) == [] + rest == rest;
      }
    }
  }

  lemma SpanIs(from: int, until: int, ns: int)
    ensures InSpan(from, until, ns) <==> ToNano(from) <= ns < ToNano(until)
  {
  }

  lemma MeasureByAssets(rows: seq<SwapRow>, swaps: seq<Swap>, pool: Option<string>, from: int, until: int, m: Measure)
    requires RowsOf(rows, swaps) && AllDirected(swaps)
    ensures var split, figure := SplitOf(InWindow(rows, pool, from, until), m), FigureFor(m);
            && split.toAsset == SumWhere(rows, swaps, pool, from, until, TakesRune, figure)
            && split.toRune == SumWhere(rows, swaps, pool, from, until, PaysRune, figure)
            && split.synthMint == SumWhere(rows, swaps, pool, from, until, MintsSynth, figure)
            && split.synthRedeem == SumWhere(rows, swaps, pool, from, until, RedeemsSynth, figure)
  {
    hide Sum, Column, SumWhere, InWindow, AllDirected, FigureFor;
    ColumnByAssets(rows, swaps, pool, from, until, m, ToAsset);
    ColumnByAssets(rows, swaps, pool, from, until, m, ToRune);
    ColumnByAssets(rows, swaps, pool, from, until, m, SynthMint);
    ColumnByAssets(rows, swaps, pool, from, until, m, SynthRedeem);
  }

  /** The sixteen fields reported for a span. */
  lemma FieldsByAssets(rows: seq<SwapRow>, swaps: seq<Swap>, pool: Option<string>, from: int, until: int)
    requires RowsOf(rows, swaps) && AllDirected(swaps)
    ensures var t := SpanItem(rows, pool, from, until).totals;
            && t.count.toAsset == SumWhere(rows, swaps, pool, from, until, TakesRune, One)
            && t.count.toRune == SumWhere(rows, swaps, pool, from, until, PaysRune, One)
            && t.count.synthMint == SumWhere(rows, swaps, pool, from, until, MintsSynth, One)
            && t.count.synthRedeem == SumWhere(rows, swaps, pool, from, until, RedeemsSynth, One)
            && t.volume.toAsset == SumWhere(rows, swaps, pool, from, until, TakesRune, RuneLeg)
            && t.volume.toRune == SumWhere(rows, swaps, pool, from, until, PaysRune, RuneLeg)
            && t.volume.synthMint == SumWhere(rows, swaps, pool, from, until, MintsSynth, RuneLeg)
            && t.volume.synthRedeem == SumWhere(rows, swaps, pool, from, until, RedeemsSynth, RuneLeg)
            && t.fees.toAsset == SumWhere(rows, swaps, pool, from, until, TakesRune, Fee)
            && t.fees.toRune == SumWhere(rows, swaps, pool, from, until, PaysRune, Fee)
            && t.fees.synthMint == SumWhere(rows, swaps, pool, from, until, MintsSynth, Fee)
            && t.fees.synthRedeem == SumWhere(rows, swaps, pool, from, until, RedeemsSynth, Fee)
            && t.slip.toAsset == SumWhere(rows, swaps, pool, from, until, TakesRune, SlipPoints)
            && t.slip.toRune == SumWhere(rows, swaps, pool, from, until, PaysRune, SlipPoints)
            && t.slip.synthMint == SumWhere(rows, swaps, pool, from, until, MintsSynth, SlipPoints)
            && t.slip.synthRedeem == SumWhere(rows, swaps, pool, from, until, RedeemsSynth, SlipPoints)
  {
    hide SplitOf, SumWhere, InWindow, AllDirected;
    MeasureByAssets(rows, swaps, pool, from, until, Count);
    MeasureByAssets(rows, swaps, pool, from, until, Volume);
    MeasureByAssets(rows, swaps, pool, from, until, Fees);
    MeasureByAssets(rows, swaps, pool, from, until, Slip);
  }
}
