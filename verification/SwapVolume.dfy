/** The volume the endpoints report against the RUNE the swaps move in the pools. */
module SwapVolume {
  import opened Wrappers
  import opened GroupingKey
  import opened Assets
  import opened Depths
  import opened Directions
  import opened Sums
  import opened Swaps

  /** `r` is the row of `s`. */
  predicate RowOf(r: SwapRow, s: Swap) {
    && r.pool == s.pool && r.direction == s.direction && r.fromE8 == s.fromE8 && r.toE8 == s.toE8
    && r.liqFeeInRuneE8 == s.liqFeeInRuneE8 && r.swapSlipBp == s.swapSlipBp
  }

  predicate RowsOf(rows: seq<SwapRow>, swaps: seq<Swap>) {
    |rows| == |swaps| && forall i :: 0 <= i < |rows| ==> RowOf(rows[i], swaps[i])
  }

  /** As the decoder leaves a swap, with the amounts of two coins. */
  predicate Decoded(s: Swap) {
    s.direction == RecordedDirection(s.fromAsset, s.toAsset) && s.fromE8 >= 0 && s.toE8 >= 0
  }

  predicate Classified(s: Swap) {
    Classify(s.fromAsset, s.toAsset).Some?
  }

  function Abs(n: int): int {
    if n >= 0 then n else -n
  }

  function RuneMoved(swaps: seq<Swap>): int {
    if swaps == [] then 0 else Abs(SwapDelta(swaps[0]).runeE8) + RuneMoved(swaps[1..])
  }

  /** RUNE into the pools less RUNE out of them, as the split reports it. */
  function Net(volume: Split): int {
    volume.toAsset + volume.synthMint - volume.toRune - volume.synthRedeem
  }

  function SwapMoves(swaps: seq<Swap>): seq<Move> {
    seq(|swaps|, i requires 0 <= i < |swaps| => Move(swaps[i].pool, SwapDelta(swaps[i])))
  }

  function VolumeOf(rows: seq<SwapRow>): Split {
    Aggregate(rows).volume
  }

  function RowVolume(r: SwapRow): Split {
    Split(Cell(Volume, ToAsset, r), Cell(Volume, ToRune, r), Cell(Volume, SynthMint, r), Cell(Volume, SynthRedeem, r))
  }

  lemma VolumeHead(rows: seq<SwapRow>)
    requires rows != []
    ensures VolumeOf(rows) == RowVolume(rows[0]).Plus(VolumeOf(rows[1..]))
  {
    hide Cell, Sum;
    ColumnHead(rows, Volume, ToAsset);
    ColumnHead(rows, Volume, ToRune);
    ColumnHead(rows, Volume, SynthMint);
    ColumnHead(rows, Volume, SynthRedeem);
  }

  lemma ColumnHead(rows: seq<SwapRow>, m: Measure, side: Side)
    requires rows != []
    ensures Sum(rows, Column(m, side)) == Cell(m, side, rows[0]) + Sum(rows[1..], Column(m, side))
  {
    hide Cell;
  }

  /** RUNE goes in on the even directions and out on the odd ones. */
  lemma RuneLeg(r: SwapRow)
    requires 0 <= r.direction <= 7
    ensures var v := RowVolume(r);
            if r.direction in {0, 2, 4, 6} then v.Total() == Net(v) == r.fromE8 else v.Total() == -Net(v) == r.toE8
  {
  }

  /** What a recorded direction says about the two assets. */
  lemma DirectionMeans(from: string, to: string)
    ensures 0 <= RecordedDirection(from, to) <= 7
    ensures Classify(from, to).Some? ==>
              && (RecordedDirection(from, to) in {0, 2, 4, 6} <==> IsRune(from))
              && (RecordedDirection(from, to) == 2 <==> CoinTypeOf(to).Synth?)
              && (RecordedDirection(from, to) == 3 <==> CoinTypeOf(from).Synth?)
              && (RecordedDirection(from, to) == 4 <==> CoinTypeOf(to).Trade?)
              && (RecordedDirection(from, to) == 5 <==> CoinTypeOf(from).Trade?)
              && (RecordedDirection(from, to) == 6 <==> CoinTypeOf(to).Secure?)
              && (RecordedDirection(from, to) == 7 <==> CoinTypeOf(from).Secure?)
    ensures Classify(from, to).None? ==> RecordedDirection(from, to) == 0
  {
    RuneIsRune(from);
    RuneIsRune(to);
    hide CoinTypeOf, IsRune;
  }

  /** A classified swap reports the RUNE it moves, on the side it moves it. */
  lemma OneSwap(r: SwapRow, s: Swap)
    requires RowOf(r, s) && Decoded(s) && Classified(s)
    ensures RowVolume(r).Total() == Abs(SwapDelta(s).runeE8)
    ensures Net(RowVolume(r)) == SwapDelta(s).runeE8
  {
    hide CoinTypeOf, IsRune, Classify, RecordedDirection, RowVolume, Net, Split.Total;
    DirectionMeans(s.fromAsset, s.toAsset);
    RuneLeg(r);
  }

  /** A swap without RUNE on exactly one side is filed as RUNE to asset; its volume is still the RUNE
      moved exactly when a synth comes out, RUNE goes in, or both legs are equal. */
  lemma VolumeOfAnySwap(r: SwapRow, s: Swap)
    requires RowOf(r, s) && Decoded(s)
    ensures RowVolume(r).Total() == Abs(SwapDelta(s).runeE8)
       <==> Classified(s) || CoinTypeOf(s.toAsset).Synth? || IsRune(s.fromAsset) || s.fromE8 == s.toE8
  {
    hide CoinTypeOf, IsRune, Classify, RecordedDirection, RowVolume, Net, Split.Total;
    DirectionMeans(s.fromAsset, s.toAsset);
    RuneLeg(r);
    RuneIsRune(s.fromAsset);
  }

  /** Reported volume is RUNE actually moved. */
  lemma {:induction false} VolumeIsRuneMoved(rows: seq<SwapRow>, swaps: seq<Swap>)
    requires RowsOf(rows, swaps)
    requires forall i :: 0 <= i < |swaps| ==> Decoded(swaps[i]) && Classified(swaps[i])
    ensures VolumeOf(rows).Total() == RuneMoved(swaps)
  {
    hide VolumeOf, RowVolume, SwapDelta, Decoded, Classified, RowOf;
    if rows == [] {
      NoVolume();
    } else {
      VolumeIsRuneMoved(rows[1..], swaps[1..]);
      VolumeHead(rows);
      OneSwap(rows[0], swaps[0]);
    }
  }

  lemma NoVolume()
    ensures VolumeOf([]) == NO_SPLIT
  {
  }

  /** The signed split of a pool's volume is the net change the same swaps make to its RUNE. */
  lemma {:induction false} NetVolumeIsNetChange(rows: seq<SwapRow>, swaps: seq<Swap>, pool: string, from: int, until: int)
    requires RowsOf(rows, swaps)
    requires forall i :: 0 <= i < |swaps| ==> Decoded(swaps[i]) && Classified(swaps[i])
    requires forall i :: 0 <= i < |rows| ==> InSpan(from, until, rows[i].timestamp)
    ensures Net(VolumeOf(InWindow(rows, Some(pool), from, until))) == Total(SwapMoves(swaps), pool).runeE8
  {
    hide VolumeOf, RowVolume, SwapDelta, Decoded, Classified, Net, Total, InWindow, SwapMoves;
    if rows == [] {
      NoWindow(swaps, pool, from, until);
      NothingTotals();
    } else {
      NetVolumeIsNetChange(rows[1..], swaps[1..], pool, from, until);
      MovesHead(swaps, pool);
      OneSwap(rows[0], swaps[0]);
      WindowHead(rows, pool, from, until);
    }
  }

  lemma NoWindow(swaps: seq<Swap>, pool: string, from: int, until: int)
    requires swaps == []
    ensures VolumeOf(InWindow([], Some(pool), from, until)) == NO_SPLIT && Total(SwapMoves(swaps), pool) == ZERO
  {
    NoVolume();
  }

  lemma MovesHead(swaps: seq<Swap>, pool: string)
    requires swaps != []
    ensures var s := swaps[0];
            Total(SwapMoves(swaps), pool).runeE8
            == Total(SwapMoves(swaps[1..]), pool).runeE8 + if s.pool == pool then SwapDelta(s).runeE8 else 0
  {
    hide SwapDelta;
    var m := Move(swaps[0].pool, SwapDelta(swaps[0]));
    assert SwapMoves(swaps) == [m] + SwapMoves(swaps[1..]);
    TotalConcat([m], SwapMoves(swaps[1..]), pool);
    OneMoveMoves(m, pool);
  }

  lemma WindowHead(rows: seq<SwapRow>, pool: string, from: int, until: int)
    requires rows != [] && InSpan(from, until, rows[0].timestamp)
    ensures Net(VolumeOf(InWindow(rows, Some(pool), from, until)))
         == Net(VolumeOf(InWindow(rows[1..], Some(pool), from, until))) + if rows[0].pool == pool then Net(RowVolume(rows[0])) else 0
  {
    hide VolumeOf, RowVolume, InSpan;
    var rest := InWindow(rows[1..], Some(pool), from, until);
    if rows[0].pool == pool {
      var all := [rows[0]] + rest;
      assert InWindow(rows, Some(pool), from, until) == all && all[1..] == rest;
      VolumeHead(all);
    } else {
      assert InWindow(rows, Some(pool), from, until) == rest;
    }
  }

  lemma NothingTotals()
    ensures NO_SPLIT.Total() == 0 == Net(NO_SPLIT)
  {
  }

  lemma TotalPlus(a: Split, b: Split)
    ensures a.Plus(b).Total() == a.Total() + b.Total() && Net(a.Plus(b)) == Net(a) + Net(b)
  {
  }

  /** The pools endpoint's own volume column: RUNE in on even directions, RUNE out on the others. */
  function PoolVolume(rows: seq<SwapRow>): int {
    Sum(rows, (r: SwapRow) => if r.direction in {0, 2, 4, 6} then r.fromE8 else r.toE8)
  }

  /** Both endpoints report the same volume for the same recorded swaps. */
  lemma {:induction false} PoolVolumeIsTotalVolume(rows: seq<SwapRow>, swaps: seq<Swap>)
    requires RowsOf(rows, swaps)
    requires forall i :: 0 <= i < |swaps| ==> Decoded(swaps[i])
    ensures PoolVolume(rows) == VolumeOf(rows).Total()
  {
    hide RecordedDirection, RowVolume, VolumeOf, Split.Total, Net;
    if rows == [] {
      NoVolume();
      assert NO_SPLIT.Total() == 0 by { NothingTotals(); }
    } else {
      PoolVolumeIsTotalVolume(rows[1..], swaps[1..]);
      DirectionMeans(swaps[0].fromAsset, swaps[0].toAsset);
      VolumeHead(rows);
      RuneLeg(rows[0]);
      TotalPlus(RowVolume(rows[0]), VolumeOf(rows[1..]));
    }
  }

  /** What one row adds to a measure, whichever side it is on. */
  function RowMeasure(m: Measure, r: SwapRow): int {
    match m
    case Count => 1
    case Volume => if r.direction in {0, 2, 4, 6} then r.fromE8 else r.toE8
    case Fees => r.liqFeeInRuneE8
    case Slip => r.swapSlipBp
  }

  function SumOfRows(rows: seq<SwapRow>, m: Measure): int {
    if rows == [] then 0 else RowMeasure(m, rows[0]) + SumOfRows(rows[1..], m)
  }

  /** The four directions of a measure add up to the rows, each counted on exactly one side. */
  lemma {:induction false} EveryRowOnOneSide(rows: seq<SwapRow>, m: Measure)
    requires forall i :: 0 <= i < |rows| ==> 0 <= rows[i].direction <= 7
    ensures Aggregate(rows).Of(m).Total() == SumOfRows(rows, m)
  {
    hide Cell, Sum, Column, Aggregate, Split.Total, Totals.Of, RowMeasure;
    SplitTotal(rows, m);
    if rows == [] {
      NoRowsNoSums(m);
    } else {
      EveryRowOnOneSide(rows[1..], m);
      SplitTotal(rows[1..], m);
      ColumnHead(rows, m, ToAsset);
      ColumnHead(rows, m, ToRune);
      ColumnHead(rows, m, SynthMint);
      ColumnHead(rows, m, SynthRedeem);
      OneSide(rows[0], m);
    }
  }

  lemma SplitTotal(rows: seq<SwapRow>, m: Measure)
    ensures Aggregate(rows).Of(m).Total()
         == Sum(rows, Column(m, ToAsset)) + Sum(rows, Column(m, ToRune))
            + Sum(rows, Column(m, SynthMint)) + Sum(rows, Column(m, SynthRedeem))
  {
    hide Sum, Column;
  }

  lemma NoRowsNoSums(m: Measure)
    ensures forall side: Side :: Sum([], Column(m, side)) == 0
  {
  }

  lemma OneSide(r: SwapRow, m: Measure)
    requires 0 <= r.direction <= 7
    ensures Cell(m, ToAsset, r) + Cell(m, ToRune, r) + Cell(m, SynthMint, r) + Cell(m, SynthRedeem, r) == RowMeasure(m, r)
  {
  }
}
