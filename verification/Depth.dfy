/** Decoded events, what each one moves in the pools, and the tracker that follows the pools. */
module Depths {
  import opened Wrappers
  import opened Assets

  datatype Depth = Depth(assetE8: int, runeE8: int, synthE8: int, units: int) {
    function Plus(d: Depth): Depth {
      Depth(assetE8 + d.assetE8, runeE8 + d.runeE8, synthE8 + d.synthE8, units + d.units)
    }
  }

  const ZERO: Depth := Depth(0, 0, 0, 0)

  datatype Swap = Swap(pool: string, fromAsset: string, fromE8: int, toAsset: string, toE8: int,
                       liqFeeInRuneE8: int, swapSlipBp: int, direction: int)

  /** The tables that hold one row per decoded event. */
  datatype Table =
    | ActiveVaultEvents | AddEvents | BondEvents | ErrataEvents | FeeEvents | GasEvents | InactiveVaultEvents
    | MintBurnEvents | OutboundEvents | PendingLiquidityEvents | PoolBalanceChangeEvents | PoolEvents | RefundEvents
    | RewardsEventEntries | RewardsEvents | SetMimirEvents | SlashEvents | StakeEvents | SwapEvents | SwitchEvents
    | TransferEvents | UpdateNodeAccountStatusEvents | WithdrawEvents

  const EVENT_TABLES: seq<Table> := [
    ActiveVaultEvents, AddEvents, BondEvents, ErrataEvents, FeeEvents, GasEvents, InactiveVaultEvents,
    MintBurnEvents, OutboundEvents, PendingLiquidityEvents, PoolBalanceChangeEvents, PoolEvents, RefundEvents,
    RewardsEventEntries, RewardsEvents, SetMimirEvents, SlashEvents, StakeEvents, SwapEvents, SwitchEvents,
    TransferEvents, UpdateNodeAccountStatusEvents, WithdrawEvents]

  /** One decoded event. `Other` stands for the kinds that leave every pool alone, by their table. */
  datatype Recorded =
    | SwapEvent(swap: Swap)
    | StakeEvent(pool: string, assetE8: int, runeE8: int, stakeUnits: int)
    | WithdrawEvent(pool: string, emitAssetE8: int, emitRuneE8: int, stakeUnits: int, impLossProtectionE8: int)
    | AddEvent(pool: string, assetE8: int, runeE8: int)
    | ErrataEvent(asset: string, assetE8: int, runeE8: int)
    | PoolBalanceChangeEvent(asset: string, runeAmt: int, runeAdd: bool, assetAmt: int, assetAdd: bool)
    | RewardsEvent(bondE8: int, perPool: seq<(string, int)>)
    | SlashEvent(pool: string, asset: string, assetE8: int)
    | FeeEvent(asset: string, assetE8: int, poolDeduct: int)
    | GasEvent(asset: string, assetE8: int, runeE8: int)
    | Other(table: Table, payload: seq<string>)

  /** The table an event is written to (a rewards event's per-pool entries go with it). */
  function TableOf(r: Recorded): Table {
    match r
    case SwapEvent(_) => SwapEvents
    case StakeEvent(_, _, _, _) => StakeEvents
    case WithdrawEvent(_, _, _, _, _) => WithdrawEvents
    case AddEvent(_, _, _) => AddEvents
    case ErrataEvent(_, _, _) => ErrataEvents
    case PoolBalanceChangeEvent(_, _, _, _, _) => PoolBalanceChangeEvents
    case RewardsEvent(_, _) => RewardsEvents
    case SlashEvent(_, _, _) => SlashEvents
    case FeeEvent(_, _, _) => FeeEvents
    case GasEvent(_, _, _) => GasEvents
    case Other(table, _) => table
  }

  // ---- specification ----

  /** One pool balance moved by `delta`. */
  datatype Move = Move(pool: string, delta: Depth)

  /** Whether a swap mints synths, redeems them, takes RUNE in, or pays RUNE out. */
  function SwapDelta(s: Swap): Depth {
    if CoinTypeOf(s.toAsset).Synth? then Depth(0, s.fromE8, s.toE8, 0)
    else if CoinTypeOf(s.fromAsset).Synth? then Depth(0, -s.toE8, -s.fromE8, 0)
    else if IsRune(s.fromAsset) then Depth(-s.toE8, s.fromE8, 0, 0)
    else Depth(s.fromE8, -s.toE8, 0, 0)
  }

  function RewardMoves(perPool: seq<(string, int)>): seq<Move> {
    seq(|perPool|, k requires 0 <= k < |perPool| => Move(perPool[k].0, Depth(0, perPool[k].1, 0, 0)))
  }

  /** The pool movements an event stands for, in order. */
  function Moves(r: Recorded): seq<Move> {
    match r
    case SwapEvent(s) => [Move(s.pool, SwapDelta(s))]
    case StakeEvent(pool, a, rune, units) => [Move(pool, Depth(a, rune, 0, units))]
    case WithdrawEvent(pool, a, rune, units, protection) => [Move(pool, Depth(-a, protection - rune, 0, -units))]
    case AddEvent(pool, a, rune) => [Move(pool, Depth(a, rune, 0, 0))]
    case ErrataEvent(pool, a, rune) => [Move(pool, Depth(a, rune, 0, 0))]
    case PoolBalanceChangeEvent(pool, rune, runeAdd, a, assetAdd) =>
      [Move(pool, Depth(if assetAdd then a else -a, if runeAdd then rune else -rune, 0, 0))]
    case RewardsEvent(_, perPool) => RewardMoves(perPool)
    case SlashEvent(pool, asset, a) =>
      [Move(pool, if IsRune(asset) then Depth(0, a, 0, 0) else Depth(a, 0, 0, 0))]
    case FeeEvent(asset, _, deduct) =>
      if deduct == 0 then [] else [Move(PoolOfAsset(asset), Depth(0, -deduct, 0, 0))]
    case GasEvent(asset, a, rune) => [Move(PoolOfAsset(asset), Depth(-a, rune, 0, 0))]
    case Other(_, _) => []
  }

  /** Current depth of every known pool, and the pools touched since the last diff, in order. */
  datatype Tracker = Tracker(current: map<string, Depth>, dirty: seq<string>) {
    function Get(pool: string): Depth {
      if pool in current then current[pool] else ZERO
    }

    function After(m: Move): Tracker {
      Tracker(current[m.pool := Get(m.pool).Plus(m.delta)], if m.pool in dirty then dirty else dirty + [m.pool])
    }

    function AfterAll(ms: seq<Move>): Tracker {
      if ms == [] then this else AfterAll(ms[..|ms| - 1]).After(ms[|ms| - 1])
    }

    function Changed(): seq<(string, Depth)> {
      seq(|dirty|, k requires 0 <= k < |dirty| => (dirty[k], Get(dirty[k])))
    }
  }

  /** Everything `ms` moves in one pool. */
  function Total(ms: seq<Move>, pool: string): Depth {
    if ms == [] then ZERO
    else
      var m := ms[|ms| - 1];
      if m.pool == pool then Total(ms[..|ms| - 1], pool).Plus(m.delta) else Total(ms[..|ms| - 1], pool)
  }

  predicate Touches(ms: seq<Move>, pool: string) {
    ms != [] && (ms[|ms| - 1].pool == pool || Touches(ms[..|ms| - 1], pool))
  }

  predicate NoDuplicates(xs: seq<string>) {
    forall i, j :: 0 <= i < j < |xs| ==> xs[i] != xs[j]
  }

  lemma {:induction false} AfterAllConcat(t: Tracker, xs: seq<Move>, ys: seq<Move>)
    ensures t.AfterAll(xs + ys) == t.AfterAll(xs).AfterAll(ys)
  {
    hide Tracker.After;
    if ys == [] {
      assert xs + ys == xs;
    } else {
      var n := |ys| - 1;
      AfterAllConcat(t, xs, ys[..n]);
      var both := xs + ys;
      assert both[..|both| - 1] == xs + ys[..n] && both[|both| - 1] == ys[n];
    }
  }

  lemma PlusAssociates(a: Depth, b: Depth, c: Depth)
    ensures a.Plus(b).Plus(c) == a.Plus(b.Plus(c))
  {
  }

  lemma PlusZero(a: Depth)
    ensures a.Plus(ZERO) == a
  {
  }

  lemma {:induction false} TotalConcat(xs: seq<Move>, ys: seq<Move>, pool: string)
    ensures Total(xs + ys, pool) == Total(xs, pool).Plus(Total(ys, pool))
  {
    hide Depth.Plus;
    if ys == [] {
      assert xs + ys == xs;
      PlusZero(Total(xs, pool));
    } else {
      var n, both := |ys| - 1, xs + ys;
      TotalConcat(xs, ys[..n], pool);
      assert both[..|both| - 1] == xs + ys[..n] && both[|both| - 1] == ys[n];
      PlusAssociates(Total(xs, pool), Total(ys[..n], pool), ys[n].delta);
    }
  }

  lemma AfterEffect(t: Tracker, m: Move, pool: string)
    ensures var u := t.After(m);
            && u.Get(pool) == (if m.pool == pool then t.Get(pool).Plus(m.delta) else t.Get(pool))
            && (pool in u.dirty <==> pool in t.dirty || m.pool == pool)
            && (pool in u.current <==> pool in t.current || m.pool == pool)
  {
  }

  /** The tracker is the running sum of the moves: a pool holds what it held plus everything moved
      in it, it is listed as touched when a move names it, and it is known from then on. */
  lemma {:induction false} AfterAllEffect(t: Tracker, ms: seq<Move>, pool: string)
    ensures var u := t.AfterAll(ms);
            && u.Get(pool) == t.Get(pool).Plus(Total(ms, pool))
            && (pool in u.dirty <==> pool in t.dirty || Touches(ms, pool))
            && (pool in u.current <==> pool in t.current || Touches(ms, pool))
            && (!Touches(ms, pool) ==> u.Get(pool) == t.Get(pool))
  {
    hide Tracker.After, Tracker.Get;
    if ms != [] {
      var n := |ms| - 1;
      AfterAllEffect(t, ms[..n], pool);
      AfterEffect(t.AfterAll(ms[..n]), ms[n], pool);
    }
  }

  /** No pool is ever listed as touched twice. */
  lemma {:induction false} DirtyHasNoDuplicates(t: Tracker, ms: seq<Move>)
    requires NoDuplicates(t.dirty)
    ensures NoDuplicates(t.AfterAll(ms).dirty)
  {
    if ms != [] {
      DirtyHasNoDuplicates(t, ms[..|ms| - 1]);
    }
  }

  // ---- what each kind of event does to the depths ----

  /** Only this pool is affected, and it is listed and known from now on. */
  ghost predicate Only(t: Tracker, u: Tracker, pool: string) {
    && pool in u.dirty && pool in u.current
    && forall p :: p != pool ==> Same(t, u, p)
  }

  predicate Same(t: Tracker, u: Tracker, pool: string) {
    u.Get(pool) == t.Get(pool) && (pool in u.dirty <==> pool in t.dirty) && (pool in u.current <==> pool in t.current)
  }

  function PaidTo(perPool: seq<(string, int)>, pool: string): int {
    if perPool == [] then 0 else (if perPool[0].0 == pool then perPool[0].1 else 0) + PaidTo(perPool[1..], pool)
  }

  predicate Names(perPool: seq<(string, int)>, pool: string) {
    exists k :: 0 <= k < |perPool| && perPool[k].0 == pool
  }

  /** From `t` to `u`, field by field, for every kind of event and every pool. */
  ghost predicate Applied(r: Recorded, t: Tracker, u: Tracker) {
    match r
    case SwapEvent(s) =>
      && Only(t, u, s.pool)
      && var before, after := t.Get(s.pool), u.Get(s.pool);
         && after.units == before.units
         && if CoinTypeOf(s.toAsset).Synth? then
              && after.runeE8 == before.runeE8 + s.fromE8
              && after.synthE8 == before.synthE8 + s.toE8
              && after.assetE8 == before.assetE8
            else if CoinTypeOf(s.fromAsset).Synth? then
              && after.synthE8 == before.synthE8 - s.fromE8
              && after.runeE8 == before.runeE8 - s.toE8
              && after.assetE8 == before.assetE8
            else if IsRune(s.fromAsset) then
              && after.runeE8 == before.runeE8 + s.fromE8
              && after.assetE8 == before.assetE8 - s.toE8
              && after.synthE8 == before.synthE8
            else
              && after.assetE8 == before.assetE8 + s.fromE8
              && after.runeE8 == before.runeE8 - s.toE8
              && after.synthE8 == before.synthE8
    case StakeEvent(pool, assetE8, runeE8, stakeUnits) =>
      && Only(t, u, pool)
      && var before, after := t.Get(pool), u.Get(pool);
         && after.assetE8 == before.assetE8 + assetE8
         && after.runeE8 == before.runeE8 + runeE8
         && after.units == before.units + stakeUnits
         && after.synthE8 == before.synthE8
    case WithdrawEvent(pool, emitAssetE8, emitRuneE8, stakeUnits, impLossProtectionE8) =>
      && Only(t, u, pool)
      && var before, after := t.Get(pool), u.Get(pool);
         && after.assetE8 == before.assetE8 - emitAssetE8
         && after.runeE8 == before.runeE8 - emitRuneE8 + impLossProtectionE8
         && after.units == before.units - stakeUnits
         && after.synthE8 == before.synthE8
    case AddEvent(pool, assetE8, runeE8) =>
      && Only(t, u, pool)
      && var before, after := t.Get(pool), u.Get(pool);
         && after.assetE8 == before.assetE8 + assetE8
         && after.runeE8 == before.runeE8 + runeE8
         && after.synthE8 == before.synthE8 && after.units == before.units
    case ErrataEvent(asset, assetE8, runeE8) =>
      && Only(t, u, asset)
      && var before, after := t.Get(asset), u.Get(asset);
         && after.assetE8 == before.assetE8 + assetE8
         && after.runeE8 == before.runeE8 + runeE8
         && after.synthE8 == before.synthE8 && after.units == before.units
    case PoolBalanceChangeEvent(asset, runeAmt, runeAdd, assetAmt, assetAdd) =>
      && Only(t, u, asset)
      && var before, after := t.Get(asset), u.Get(asset);
         && (if runeAdd then after.runeE8 == before.runeE8 + runeAmt else after.runeE8 == before.runeE8 - runeAmt)
         && (if assetAdd then after.assetE8 == before.assetE8 + assetAmt else after.assetE8 == before.assetE8 - assetAmt)
         && after.synthE8 == before.synthE8 && after.units == before.units
    case RewardsEvent(_, perPool) =>
      forall p ::
        && u.Get(p).runeE8 == t.Get(p).runeE8 + PaidTo(perPool, p)
        && u.Get(p).assetE8 == t.Get(p).assetE8 && u.Get(p).synthE8 == t.Get(p).synthE8 && u.Get(p).units == t.Get(p).units
        && (p in u.dirty <==> p in t.dirty || Names(perPool, p)) && (p in u.current <==> p in t.current || Names(perPool, p))
    case SlashEvent(pool, asset, assetE8) =>
      && Only(t, u, pool)
      && var before, after := t.Get(pool), u.Get(pool);
         && (if IsRune(asset) then after.runeE8 == before.runeE8 + assetE8 && after.assetE8 == before.assetE8
             else after.assetE8 == before.assetE8 + assetE8 && after.runeE8 == before.runeE8)
         && after.synthE8 == before.synthE8 && after.units == before.units
    case FeeEvent(asset, _, poolDeduct) =>
      if poolDeduct == 0 then u == t
      else
        && Only(t, u, PoolOfAsset(asset))
        && var before, after := t.Get(PoolOfAsset(asset)), u.Get(PoolOfAsset(asset));
           && after.runeE8 == before.runeE8 - poolDeduct
           && after.assetE8 == before.assetE8 && after.synthE8 == before.synthE8 && after.units == before.units
    case GasEvent(asset, assetE8, runeE8) =>
      && Only(t, u, PoolOfAsset(asset))
      && var before, after := t.Get(PoolOfAsset(asset)), u.Get(PoolOfAsset(asset));
         && after.assetE8 == before.assetE8 - assetE8
         && after.runeE8 == before.runeE8 + runeE8
         && after.synthE8 == before.synthE8 && after.units == before.units
    case Other(_, _) => u == t
  }

  /** The movements an event is turned into do that. */
  lemma MovesApply(t: Tracker, r: Recorded)
    ensures Applied(r, t, t.AfterAll(Moves(r)))
  {
    hide CoinTypeOf, IsRune, PoolOfAsset, Tracker.AfterAll, Tracker.After;
    if r.RewardsEvent? {
      RewardsApply(t, r.perPool);
    } else if Moves(r) == [] {
      NoMove(t);
    } else {
      var m := Moves(r)[0];
      OneMove(t, m);
      hide Moves;
      OneMoveApplies(t, m);
    }
  }

  lemma NoMove(t: Tracker)
    ensures t.AfterAll([]) == t
  {
  }

  lemma OneMoveApplies(t: Tracker, m: Move)
    ensures var u := t.After(m); Only(t, u, m.pool) && u.Get(m.pool) == t.Get(m.pool).Plus(m.delta)
  {
    forall p ensures p != m.pool ==> Same(t, t.After(m), p) {
      AfterEffect(t, m, p);
    }
  }

  lemma {:induction false} RewardsApply(t: Tracker, perPool: seq<(string, int)>)
    ensures forall b :: Applied(RewardsEvent(b, perPool), t, t.AfterAll(RewardMoves(perPool)))
    decreases |perPool|
  {
    hide Tracker.AfterAll, Tracker.After, Tracker.Get, RewardMoves, PaidTo, Names;
    var u := t.AfterAll(RewardMoves(perPool));
    forall p
      ensures u.Get(p).runeE8 == t.Get(p).runeE8 + PaidTo(perPool, p)
      ensures u.Get(p).assetE8 == t.Get(p).assetE8 && u.Get(p).synthE8 == t.Get(p).synthE8 && u.Get(p).units == t.Get(p).units
      ensures p in u.dirty <==> p in t.dirty || Names(perPool, p)
      ensures p in u.current <==> p in t.current || Names(perPool, p)
    {
      AfterAllEffect(t, RewardMoves(perPool), p);
      RewardTotal(perPool, p);
    }
  }

  lemma {:induction false} RewardTotal(perPool: seq<(string, int)>, pool: string)
    ensures Total(RewardMoves(perPool), pool) == Depth(0, PaidTo(perPool, pool), 0, 0)
    ensures Touches(RewardMoves(perPool), pool) <==> Names(perPool, pool)
    decreases |perPool|
  {
    hide Total, Touches, Names;
    if perPool == [] {
      NothingMoves(pool);
      assert RewardMoves(perPool) == [] && !Names(perPool, pool) by { NoRewards(pool); }
    } else {
      var first, rest := perPool[0], perPool[1..];
      RewardTotal(rest, pool);
      var m := Move(first.0, Depth(0, first.1, 0, 0));
      assert RewardMoves(perPool) == [m] + RewardMoves(rest);
      TotalConcat([m], RewardMoves(rest), pool);
      TouchesConcat([m], RewardMoves(rest), pool);
      OneMoveMoves(m, pool);
      NamesRest(perPool, pool);
    }
  }

  lemma NothingMoves(pool: string)
    ensures Total([], pool) == ZERO && !Touches([], pool)
  {
  }

  lemma NoRewards(pool: string)
    ensures RewardMoves([]) == [] && !Names([], pool)
  {
  }

  lemma OneMoveMoves(m: Move, pool: string)
    ensures Total([m], pool) == (if m.pool == pool then m.delta else ZERO) && (Touches([m], pool) <==> m.pool == pool)
  {
    assert [m][..0] == [];
    NothingMoves(pool);
  }

  lemma NamesRest(perPool: seq<(string, int)>, pool: string)
    requires perPool != []
    ensures Names(perPool, pool) <==> perPool[0].0 == pool || Names(perPool[1..], pool)
  {
    if Names(perPool, pool) && perPool[0].0 != pool {
      var k :| 0 <= k < |perPool| && perPool[k].0 == pool;
      assert perPool[1..][k - 1].0 == pool;
    }
    if Names(perPool[1..], pool) {
      var k :| 0 <= k < |perPool[1..]| && perPool[1..][k].0 == pool;
      assert perPool[k + 1].0 == pool;
    }
  }

  lemma {:induction false} TouchesConcat(xs: seq<Move>, ys: seq<Move>, pool: string)
    ensures Touches(xs + ys, pool) <==> Touches(xs, pool) || Touches(ys, pool)
  {
    if ys == [] {
      assert xs + ys == xs;
    } else {
      var n, both := |ys| - 1, xs + ys;
      TouchesConcat(xs, ys[..n], pool);
      assert both[..|both| - 1] == xs + ys[..n] && both[|both| - 1] == ys[n];
    }
  }

  // ---- the tracker ----

  class DepthTracker {
    var current: map<string, Depth>
    var dirty: seq<string>

    constructor ()
      ensures State() == Tracker(map[], [])
    {
      current, dirty := map[], [];
    }

    function State(): Tracker
      reads this
    {
      Tracker(current, dirty)
    }

    /** Seed from the database after a restart. */
    method Load(depths: map<string, Depth>)
      modifies this
      ensures State() == Tracker(depths, [])
    {
      current, dirty := depths, [];
    }

    function Get(pool: string): Depth
      reads this
    {
      if pool in current then current[pool] else ZERO
    }

    method Touch(pool: string)
      modifies this
      ensures current == old(current)[pool := old(Get(pool))]
      ensures dirty == if pool in old(dirty) then old(dirty) else old(dirty) + [pool]
    {
      if pool !in current {
        current := current[pool := ZERO];
      }
      if pool !in dirty {
        dirty := dirty + [pool];
      }
    }

    method AddTo(pool: string, assetE8: int, runeE8: int, synthE8: int, units: int)
      modifies this
      ensures State() == old(State()).After(Move(pool, Depth(assetE8, runeE8, synthE8, units)))
    {
      Touch(pool);
      var d := current[pool];
      OverwriteDepth(old(current), pool, d, Depth(d.assetE8 + assetE8, d.runeE8 + runeE8, d.synthE8 + synthE8, d.units + units));
      current := current[pool := Depth(d.assetE8 + assetE8, d.runeE8 + runeE8, d.synthE8 + synthE8, d.units + units)];
    }

    method AddRewards(perPool: seq<(string, int)>)
      modifies this
      ensures State() == old(State()).AfterAll(RewardMoves(perPool))
    {
      var k := 0;
      ghost var t, ms := State(), RewardMoves(perPool);
      while k < |perPool|
        invariant 0 <= k <= |perPool|
        invariant State() == t.AfterAll(ms[..k])
      {
        AddTo(perPool[k].0, 0, perPool[k].1, 0, 0);
        k := k + 1;
        assert ms[..k][..k - 1] == ms[..k - 1] && ms[..k][k - 1] == ms[k - 1];
      }
      assert ms[..k] == ms;
    }

    /** Apply one decoded event. */
    method Apply(r: Recorded)
      modifies this
      ensures State() == old(State()).AfterAll(Moves(r)) && Applied(r, old(State()), State())
    {
      hide CoinTypeOf, IsRune, PoolOfAsset, SwapDelta, RewardMoves, Applied;
      ghost var t := State();
      MovesApply(t, r);
      match r {
        case SwapEvent(s) =>
          ApplySwap(s);
        case StakeEvent(pool, a, rune, units) =>
          AddTo(pool, a, rune, 0, units);
        case WithdrawEvent(pool, a, rune, units, protection) =>
          Touch(pool);
          var d := current[pool];
          d := d.(assetE8 := d.assetE8 - a);
          d := d.(runeE8 := d.runeE8 - rune);
          d := d.(units := d.units - units);
          // impermanent loss protection is paid into the pool by the reserve
          d := d.(runeE8 := d.runeE8 + protection);
          OverwriteDepth(t.current, pool, current[pool], d);
          current := current[pool := d];
        case AddEvent(pool, a, rune) =>
          AddTo(pool, a, rune, 0, 0);
        case ErrataEvent(pool, a, rune) =>
          AddTo(pool, a, rune, 0, 0);
        case PoolBalanceChangeEvent(pool, rune, runeAdd, a, assetAdd) =>
          AddTo(pool, if assetAdd then a else -a, if runeAdd then rune else -rune, 0, 0);
        case RewardsEvent(_, perPool) =>
          AddRewards(perPool);
        case SlashEvent(pool, asset, a) =>
          if IsRune(asset) {
            AddTo(pool, 0, a, 0, 0);
          } else {
            AddTo(pool, a, 0, 0, 0);
          }
        case FeeEvent(asset, _, deduct) =>
          if deduct != 0 {
            AddTo(PoolOfAsset(asset), 0, -deduct, 0, 0);
          }
        case GasEvent(asset, a, rune) =>
          AddTo(PoolOfAsset(asset), -a, rune, 0, 0);
        case Other(_, _) =>
      }
      if |Moves(r)| == 1 {
        OneMove(t, Moves(r)[0]);
      }
    }

    method ApplySwap(s: Swap)
      modifies this
      ensures State() == old(State()).After(Move(s.pool, SwapDelta(s)))
    {
      hide CoinTypeOf, IsRune;
      Touch(s.pool);
      var d := current[s.pool];
      var fromRune := IsRune(s.fromAsset);
      var fromSynth := CoinTypeOf(s.fromAsset).Synth?;
      var toSynth := CoinTypeOf(s.toAsset).Synth?;
      if toSynth {
        d := d.(runeE8 := d.runeE8 + s.fromE8);
        d := d.(synthE8 := d.synthE8 + s.toE8);
      } else if fromSynth {
        d := d.(synthE8 := d.synthE8 - s.fromE8);
        d := d.(runeE8 := d.runeE8 - s.toE8);
      } else if fromRune {
        d := d.(runeE8 := d.runeE8 + s.fromE8);
        d := d.(assetE8 := d.assetE8 - s.toE8);
      } else {
        d := d.(assetE8 := d.assetE8 + s.fromE8);
        d := d.(runeE8 := d.runeE8 - s.toE8);
      }
      OverwriteDepth(old(current), s.pool, current[s.pool], d);
      current := current[s.pool := d];
    }

    /** The touched pools with their depths; clears the dirty list. */
    method TakeChanged() returns (changed: seq<(string, Depth)>)
      modifies this
      ensures changed == old(State()).Changed()
      ensures State() == Tracker(old(current), [])
    {
      var taken := dirty;
      dirty := [];
      changed := seq(|taken|, k requires 0 <= k < |taken| reads this => (taken[k], Get(taken[k])));
    }
  }

  lemma OverwriteDepth(m: map<string, Depth>, pool: string, c: Depth, d: Depth)
    ensures m[pool := c][pool := d] == m[pool := d]
  {
  }

  lemma OneMove(t: Tracker, m: Move)
    ensures t.AfterAll([m]) == t.After(m)
  {
    assert [m][..0] == [];
  }
}
