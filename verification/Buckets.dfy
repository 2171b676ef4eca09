/** Turning `from`/`to`/`count`/`interval` into bucket boundaries. */
module Buckets {
  import opened Wrappers
  import opened Intervals
  import opened BlockCursors

  const MAX_INTERVAL_COUNT: int := 400
  const CUTOFF_WINDOW_MULTIPLE: int := 2 * MAX_INTERVAL_COUNT

  datatype Error =
    | CountWithoutInterval
    | CountOutOfRange
    | CountFromAndTo
    | FromNotBeforeTo
    | TooWideRange
    | NoIntervalRequested

  datatype Params = Params(from: Option<int>, to: Option<int>, count: Option<int>, interval: Option<Interval>)

  /** `|timestamps| - 1` half-open buckets; bucket `j` is `[timestamps[j], timestamps[j + 1])`. */
  datatype Buckets = Buckets(timestamps: seq<int>, interval: Option<Interval>) {
    function Count(): int {
      |timestamps| - 1
    }
  }

  // ---- specification ----

  /** Each timestamp is an edge and each is the successor of the one before it. */
  predicate IsRun(i: Interval, ts: seq<int>) {
    && (forall j :: 0 <= j < |ts| ==> IsEdge(i, ts[j]))
    && (forall j :: 0 < j < |ts| ==> ts[j] == Advance(i, ts[j - 1]))
  }

  /** `n` consecutive edges from edge number `k`. */
  function EdgeRun(i: Interval, k: int, n: nat): (r: seq<int>)
    ensures |r| == n
  {
    seq(n, j => Edge(i, k + j))
  }

  /** The first edge at or after `t`. */
  function Ceiling(i: Interval, t: int): int {
    if IsEdge(i, t) then t else Advance(i, Truncate(i, t))
  }

  /** How many timestamps `Boundaries` returns: the edges before `until` and one more, but never
      more than the loop's safety break leaves. */
  function BoundaryCount(i: Interval, from: int, until: int): int {
    var n := EdgeIndex(i, until - 1) - EdgeIndex(i, from) + 2;
    if n > MAX_INTERVAL_COUNT + 4 then MAX_INTERVAL_COUNT + 4 else n
  }

  function BoundariesSpec(i: Interval, from: int, until: int): (r: Result<seq<int>, Error>)
    ensures r.Success? ==> |r.value| >= 2
  {
    if until <= from then Failure(FromNotBeforeTo)
    else if MaxDuration(i) * CUTOFF_WINDOW_MULTIPLE < until - from then Failure(TooWideRange)
    else
      BoundaryCountAtLeastTwo(i, from, until);
      Success(EdgeRun(i, EdgeIndex(i, from), BoundaryCount(i, from, until)))
  }

  lemma BoundaryCountAtLeastTwo(i: Interval, from: int, until: int)
    requires from < until
    ensures 2 <= BoundaryCount(i, from, until) <= MAX_INTERVAL_COUNT + 4
  {
    hide Edge, EdgeIndex;
    EdgeBrackets(i, from);
    EdgeBrackets(i, until - 1);
    EdgeOrder(i, EdgeIndex(i, from), EdgeIndex(i, until - 1) + 1);
  }

  function LastKept(ts: seq<int>, lastBlock: int, k: int): (l: int)
    requires 1 <= k < |ts|
    ensures 1 <= l <= k
    decreases k
  {
    if k > 1 && lastBlock < ts[k - 1] then LastKept(ts, lastBlock, k - 1) else k
  }

  function FirstKept(ts: seq<int>, firstBlock: int, l: int, k: int): (f: int)
    requires 0 <= k < l < |ts|
    ensures k <= f < l
    decreases l - k
  {
    if k < l - 1 && ts[k + 1] < firstBlock then FirstKept(ts, firstBlock, l, k + 1) else k
  }

  function Restricted(firstBlock: int, lastBlock: int, ts: seq<int>): seq<int>
    requires |ts| >= 2
  {
    var l := LastKept(ts, lastBlock, |ts| - 1);
    ts[FirstKept(ts, firstBlock, l, 0)..l + 1]
  }

  lemma EdgeRunSlice(i: Interval, k: int, n: nat, a: nat, b: nat)
    requires a <= b <= n
    ensures EdgeRun(i, k, n)[a..b] == EdgeRun(i, k + a, b - a)
  {
    hide Edge;
  }

  lemma EdgeRunIsRun(i: Interval, k: int, n: nat)
    ensures IsRun(i, EdgeRun(i, k, n))
  {
    hide Edge, IsEdge, Advance;
    var ts := EdgeRun(i, k, n);
    forall j | 0 <= j < n ensures IsEdge(i, ts[j]) {
      EdgeIsEdge(i, k + j);
    }
    forall j | 0 < j < n ensures ts[j] == Advance(i, ts[j - 1]) {
      AdvanceIsNextEdge(i, k + j - 1);
    }
  }

  // ---- operations ----

  /** Calendar-aligned boundaries covering the window, up to the safety break. */
  method Boundaries(i: Interval, from: int, until: int) returns (r: Result<seq<int>, Error>)
    ensures r == BoundariesSpec(i, from, until)
    ensures r.Success? ==> |r.value| >= 2
  {
    hide Edge, EdgeIndex, Truncate, Advance, MaxDuration;
    if until <= from {
      return Failure(FromNotBeforeTo);
    }
    if MaxDuration(i) * CUTOFF_WINDOW_MULTIPLE < until - from {
      return Failure(TooWideRange);
    }
    ghost var k := EdgeIndex(i, from);
    ghost var last := EdgeIndex(i, until - 1);
    EdgeBrackets(i, from);
    EdgeBrackets(i, until - 1);
    TruncateIsEdge(i, from);
    EdgeOrder(i, k, last + 1);

    var timestamps: seq<int> := [];
    var t := Truncate(i, from);
    while t < until
      invariant |timestamps| <= MAX_INTERVAL_COUNT + 2
      invariant timestamps == EdgeRun(i, k, |timestamps|)
      invariant t == Edge(i, k + |timestamps|)
      invariant k + |timestamps| <= last + 1
      decreases MAX_INTERVAL_COUNT + 3 - |timestamps|
    {
      EdgeOrder(i, k + |timestamps|, last + 1);
      timestamps := timestamps + [t];
      AdvanceIsNextEdge(i, k + |timestamps| - 1);
      t := Advance(i, t);
      if |timestamps| > MAX_INTERVAL_COUNT + 2 {
        break;
      }
    }
    EdgeOrder(i, last, k + |timestamps|);
    timestamps := timestamps + [t];
    assert timestamps == EdgeRun(i, k, |timestamps|);
    assert |timestamps| == BoundaryCount(i, from, until);
    if |timestamps| < 2 {
      return Failure(NoIntervalRequested);
    }
    r := Success(timestamps);
  }

  /** Clamp to the blocks we hold, leaving at least one bucket. */
  method Restrict(firstBlock: int, lastBlock: int, ts: seq<int>) returns (r: seq<int>)
    requires |ts| >= 2
    ensures r == Restricted(firstBlock, lastBlock, ts)
  {
    var lastOk := |ts| - 1;
    while lastOk > 1 && lastBlock < ts[lastOk - 1]
      invariant 1 <= lastOk < |ts|
      invariant LastKept(ts, lastBlock, lastOk) == LastKept(ts, lastBlock, |ts| - 1)
    {
      lastOk := lastOk - 1;
    }
    var firstOk := 0;
    while firstOk < lastOk - 1 && ts[firstOk + 1] < firstBlock
      invariant 0 <= firstOk < lastOk
      invariant FirstKept(ts, firstBlock, lastOk, firstOk) == FirstKept(ts, firstBlock, lastOk, 0)
    {
      firstOk := firstOk + 1;
    }
    r := ts[firstOk..lastOk + 1];
  }

  /** The window whose boundaries are computed: wide enough for `count` of the longest intervals. */
  function WindowOf(p: Params, i: Interval, first: int, now: int): (int, int) {
    if p.count.None? then (p.from.GetOr(first), p.to.GetOr(now))
    else if p.from.Some? then (p.from.value, p.from.value + p.count.value * MaxDuration(i))
    else (p.to.GetOr(now) - p.count.value * MaxDuration(i), p.to.GetOr(now))
  }

  /** Cutting the boundaries down to the data and to the number of buckets asked for. */
  function Cut(p: Params, first: int, now: int, ts: seq<int>): seq<int>
    requires |ts| >= 2
  {
    if p.count.None? then Restricted(first, now, Take(ts, MAX_INTERVAL_COUNT + 1))
    else if p.from.Some? then Take(Restricted(first, now, ts), p.count.value + 1)
    else TakeLast(Restricted(first, now, ts), p.count.value + 1)
  }

  function Take(ts: seq<int>, n: int): seq<int> {
    if n < 0 then [] else if |ts| <= n then ts else ts[..n]
  }

  function TakeLast(ts: seq<int>, n: int): seq<int> {
    if n < 0 then [] else if |ts| <= n then ts else ts[|ts| - n..]
  }

  /** What `Generate` answers when the data spans the seconds `first` to `now`. */
  function GenerateSpec(p: Params, first: int, now: int): Result<Buckets, Error> {
    if p.interval.None? then
      if p.count.Some? then Failure(CountWithoutInterval)
      else Success(Buckets([p.from.GetOr(first), p.to.GetOr(now)], None))
    else if p.count.Some? && !(1 <= p.count.value <= MAX_INTERVAL_COUNT) then Failure(CountOutOfRange)
    else if p.count.Some? && p.from.Some? && p.to.Some? then Failure(CountFromAndTo)
    else
      var i := p.interval.value;
      var (from, until) := WindowOf(p, i, first, now);
      match BoundariesSpec(i, from, until)
      case Failure(e) => Failure(e)
      case Success(ts) => Success(Buckets(Cut(p, first, now, ts), Some(i)))
  }

  method Generate(p: Params, cursor: BlockCursor) returns (r: Result<Buckets, Error>)
    ensures r == GenerateSpec(p, cursor.FirstSecond(), cursor.NowSecond())
  {
    hide BoundariesSpec, Restricted, MaxDuration;
    var first := cursor.FirstSecond();
    var now := cursor.NowSecond();
    if p.interval.None? {
      if p.count.Some? {
        return Failure(CountWithoutInterval);
      }
      return Success(Buckets([p.from.GetOr(first), p.to.GetOr(now)], None));
    }
    var i := p.interval.value;
    if p.count.None? {
      var b := Boundaries(i, p.from.GetOr(first), p.to.GetOr(now));
      if b.Failure? {
        return Failure(b.error);
      }
      var ts := b.value;
      if |ts| - 1 > MAX_INTERVAL_COUNT {
        ts := ts[..MAX_INTERVAL_COUNT + 1];
      }
      ts := Restrict(first, now, ts);
      return Success(Buckets(ts, Some(i)));
    }
    var count := p.count.value;
    if count < 1 || count > MAX_INTERVAL_COUNT {
      return Failure(CountOutOfRange);
    }
    if p.from.Some? && p.to.Some? {
      return Failure(CountFromAndTo);
    }
    var span := count * MaxDuration(i);
    var from, until, trimFromStart := 0, 0, p.from.None?;
    if p.from.Some? {
      from, until := p.from.value, p.from.value + span;
    } else {
      from, until := p.to.GetOr(now) - span, p.to.GetOr(now);
    }
    var b := Boundaries(i, from, until);
    if b.Failure? {
      return Failure(b.error);
    }
    var ts := Restrict(first, now, b.value);
    if |ts| - 1 > count {
      if trimFromStart {
        ts := ts[|ts| - 1 - count..];
      } else {
        ts := ts[..count + 1];
      }
    }
    return Success(Buckets(ts, Some(i)));
  }
}
