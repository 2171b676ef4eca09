/** What every answer of `Generate` looks like, and where its buckets are anchored. */
module BucketTheorems {
  import opened Wrappers
  import opened Calendar
  import opened Intervals
  import opened Buckets

  // ---- restriction ----

  lemma {:induction false} LastKeptDrops(ts: seq<int>, lastBlock: int, k: int)
    requires 1 <= k < |ts|
    ensures var l := LastKept(ts, lastBlock, k);
            (forall j :: l <= j < k ==> lastBlock < ts[j]) && (l > 1 ==> ts[l - 1] <= lastBlock)
    decreases k
  {
    if k > 1 && lastBlock < ts[k - 1] {
      LastKeptDrops(ts, lastBlock, k - 1);
    }
  }

  lemma {:induction false} FirstKeptDrops(ts: seq<int>, firstBlock: int, l: int, k: int)
    requires 0 <= k < l < |ts|
    ensures var f := FirstKept(ts, firstBlock, l, k);
            (forall j :: k < j <= f ==> ts[j] < firstBlock) && (f < l - 1 ==> firstBlock <= ts[f + 1])
    decreases l - k
  {
    if k < l - 1 && ts[k + 1] < firstBlock {
      FirstKeptDrops(ts, firstBlock, l, k + 1);
    }
  }

  /** Restriction keeps a contiguous run of at least one bucket. Every bucket that meets the data
      is kept, and at most one kept bucket lies wholly before it and one wholly after it. */
  lemma RestrictKeepsData(firstBlock: int, lastBlock: int, ts: seq<int>) returns (f: int, l: int)
    requires |ts| >= 2
    ensures 0 <= f < l < |ts| && Restricted(firstBlock, lastBlock, ts) == ts[f..l + 1]
    ensures forall j :: 0 <= j < |ts| - 1 && ts[j] <= lastBlock && firstBlock <= ts[j + 1] ==> f <= j < l
    ensures l - f > 1 ==> firstBlock <= ts[f + 1] && ts[l - 1] <= lastBlock
  {
    l := LastKept(ts, lastBlock, |ts| - 1);
    f := FirstKept(ts, firstBlock, l, 0);
    LastKeptDrops(ts, lastBlock, |ts| - 1);
    FirstKeptDrops(ts, firstBlock, l, 0);
  }

  // ---- shape ----

  lemma TakeOfRun(i: Interval, k: int, n: nat, c: nat)
    ensures Take(EdgeRun(i, k, n), c) == EdgeRun(i, k, if n <= c then n else c)
  {
    hide Edge, EdgeRun;
    if n > c {
      EdgeRunSlice(i, k, n, 0, c);
    }
  }

  lemma TakeLastOfRun(i: Interval, k: int, n: nat, c: nat)
    ensures TakeLast(EdgeRun(i, k, n), c) == if n <= c then EdgeRun(i, k, n) else EdgeRun(i, k + n - c, c)
  {
    hide Edge, EdgeRun;
    if n > c {
      EdgeRunSlice(i, k, n, n - c, n);
      var ts := EdgeRun(i, k, n);
      assert ts[n - c..] == ts[n - c..n];
    }
  }

  lemma RestrictedRun(firstBlock: int, lastBlock: int, i: Interval, k: int, n: nat) returns (f: int, m: nat)
    requires n >= 2
    ensures Restricted(firstBlock, lastBlock, EdgeRun(i, k, n)) == EdgeRun(i, k + f, m)
    ensures 0 <= f && 2 <= m && f + m <= n
    ensures forall j :: (k <= j < k + n - 1 && Edge(i, j) <= lastBlock && firstBlock <= Edge(i, j + 1)
                         ==> k + f <= j < k + f + m - 1)
  {
    hide Edge, Restricted;
    var ts := EdgeRun(i, k, n);
    var l;
    f, l := RestrictKeepsData(firstBlock, lastBlock, ts);
    m := l + 1 - f;
    EdgeRunSlice(i, k, n, f, l + 1);
    forall j | k <= j < k + n - 1 && Edge(i, j) <= lastBlock && firstBlock <= Edge(i, j + 1)
      ensures k + f <= j < k + f + m - 1
    {
      assert ts[j - k] == Edge(i, j) && ts[j - k + 1] == Edge(i, j + 1);
    }
  }

  /** A successful answer with an interval is a run of consecutive edges. */
  lemma GenerateIsEdgeRun(p: Params, first: int, now: int) returns (k: int, n: nat)
    requires p.interval.Some? && GenerateSpec(p, first, now).Success?
    ensures GenerateSpec(p, first, now).value.timestamps == EdgeRun(p.interval.value, k, n)
    ensures 2 <= n <= MAX_INTERVAL_COUNT + 1
  {
    hide Edge, EdgeIndex, MaxDuration, EdgeRun, Restricted, BoundaryCount, Take, TakeLast;
    var i := p.interval.value;
    var (from, until) := WindowOf(p, i, first, now);
    k, n := EdgeIndex(i, from), BoundaryCount(i, from, until);
    BoundaryCountAtLeastTwo(i, from, until);
    if p.count.None? {
      TakeOfRun(i, k, n, MAX_INTERVAL_COUNT + 1);
      n := if n <= MAX_INTERVAL_COUNT + 1 then n else MAX_INTERVAL_COUNT + 1;
    }
    var f, m := RestrictedRun(first, now, i, k, n);
    k, n := k + f, m;
    if p.count.Some? {
      var c := p.count.value + 1;
      TakeOfRun(i, k, n, c);
      TakeLastOfRun(i, k, n, c);
      if n > c {
        k, n := if p.from.Some? then k else k + n - c, c;
      }
    }
  }

  /** Every successful answer with an interval has 1 to 400 buckets, cut at consecutive edges. */
  lemma GenerateShape(p: Params, first: int, now: int)
    requires p.interval.Some?
    ensures var r := GenerateSpec(p, first, now);
            r.Success? ==> (2 <= |r.value.timestamps| <= MAX_INTERVAL_COUNT + 1
                            && IsRun(p.interval.value, r.value.timestamps))
  {
    hide Edge, EdgeIndex, MaxDuration, BoundariesSpec, Restricted, IsRun;
    if GenerateSpec(p, first, now).Success? {
      var k, n := GenerateIsEdgeRun(p, first, now);
      EdgeRunIsRun(p.interval.value, k, n);
    }
  }

  /** Exactly when `Generate` refuses a request. */
  lemma GenerateErrs(p: Params, first: int, now: int)
    ensures GenerateSpec(p, first, now).Failure? <==>
            if p.interval.None? then p.count.Some?
            else if p.count.Some? then
              !(1 <= p.count.value <= MAX_INTERVAL_COUNT) || (p.from.Some? && p.to.Some?)
            else
              var width := p.to.GetOr(now) - p.from.GetOr(first);
              width <= 0 || MaxDuration(p.interval.value) * CUTOFF_WINDOW_MULTIPLE < width
  {
    hide EdgeRun, Restricted, EdgeIndex, BoundaryCount;
    if p.interval.Some? && p.count.Some? && 1 <= p.count.value <= MAX_INTERVAL_COUNT {
      var d, c := MaxDuration(p.interval.value), p.count.value;
      assert 0 < d;
      hide MaxDuration;
      assert 0 < c * d <= CUTOFF_WINDOW_MULTIPLE * d by { Scale(c, d); }
    }
  }

  lemma Scale(c: int, d: int)
    requires 1 <= c <= MAX_INTERVAL_COUNT && d > 0
    ensures 0 < c * d <= CUTOFF_WINDOW_MULTIPLE * d
  {
    assert (CUTOFF_WINDOW_MULTIPLE - c) * d >= 0;
  }

  // ---- anchoring ----

  lemma CeilingIsEdge(i: Interval, t: int)
    ensures Ceiling(i, t) == Edge(i, EdgeIndex(i, t - 1) + 1)
    ensures Ceiling(i, t) >= t
  {
    hide Edge, EdgeIndex, Truncate, Advance;
    var k := EdgeIndex(i, t);
    TruncateIsEdge(i, t);
    AdvanceIsNextEdge(i, k);
    EdgeBrackets(i, t);
    if Truncate(i, t) == t {
      EdgeOrder(i, k - 1, k);
      EdgeIndexUnique(i, k - 1, t - 1);
    } else {
      EdgeIndexUnique(i, k, t - 1);
    }
    EdgeBrackets(i, t - 1);
  }

  /** `count` longest intervals hold at least `count` edges after the first. */
  lemma WindowHoldsCount(i: Interval, from: int, until: int, c: nat)
    requires 1 <= c && from + c * MaxDuration(i) <= until
    ensures EdgeIndex(i, until - 1) - EdgeIndex(i, from) + 1 >= c
  {
    hide Edge, EdgeIndex, MaxDuration;
    var k := EdgeIndex(i, from);
    EdgeBrackets(i, from);
    EdgesApart(i, k, c - 1);
    assert (c - 1) * MaxDuration(i) + MaxDuration(i) == c * MaxDuration(i) by { OneMore(c - 1, MaxDuration(i)); }
    assert MaxDuration(i) > 0 by { MaxIsPositive(i); }
    EdgeBrackets(i, until - 1);
    EdgeOrder(i, k + c - 1, EdgeIndex(i, until - 1) + 1);
  }

  lemma MaxIsPositive(i: Interval)
    ensures MaxDuration(i) > 0
  {
  }

  /** `from` + `count`: exactly `count` buckets, starting at the edge at or before `from`, as soon as
      the data reaches into the first and the last of them. */
  lemma FromCountAnchors(p: Params, first: int, now: int)
    requires p.interval.Some? && p.count.Some? && 1 <= p.count.value <= MAX_INTERVAL_COUNT
    requires p.from.Some? && p.to.None?
    ensures var i, c, k := p.interval.value, p.count.value, EdgeIndex(p.interval.value, p.from.value);
            first <= Edge(i, k + 1) && Edge(i, k + c - 1) <= now ==>
              GenerateSpec(p, first, now) == Success(Buckets(EdgeRun(i, k, c + 1), p.interval))
              && EdgeRun(i, k, c + 1)[0] == Truncate(i, p.from.value)
  {
    hide Edge, EdgeIndex, MaxDuration, EdgeRun, Restricted, Take, TakeLast, Truncate;
    var i, c, from := p.interval.value, p.count.value, p.from.value;
    var k := EdgeIndex(i, from);
    if first <= Edge(i, k + 1) && Edge(i, k + c - 1) <= now {
      GenerateErrs(p, first, now);
      var until := from + c * MaxDuration(i);
      var n := BoundaryCount(i, from, until);
      WindowHoldsCount(i, from, until, c);
      var f, m := RestrictedRun(first, now, i, k, n);
      EdgeOrder(i, k, k + c - 1);
      EdgeOrder(i, k + 1, k + c);
      assert f == 0 && m >= c + 1;
      TakeOfRun(i, k, m, c + 1);
      TruncateIsEdge(i, from);
      assert EdgeRun(i, k, c + 1)[0] == Edge(i, k) by { RunHead(i, k, c + 1); }
    }
  }

  lemma RunHead(i: Interval, k: int, n: nat)
    requires n > 0
    ensures EdgeRun(i, k, n)[0] == Edge(i, k) && EdgeRun(i, k, n)[n - 1] == Edge(i, k + n - 1)
  {
    hide Edge;
  }

  /** The safety break lets the loop visit 403 edges; the window fits when the 403rd edge after the
      first one has reached `to`. */
  predicate ReachesEnd(i: Interval, count: int, to: int) {
    to <= Edge(i, EdgeIndex(i, to - count * MaxDuration(i)) + 403)
  }

  lemma ReachesEndByIndex(i: Interval, count: int, to: int)
    ensures ReachesEnd(i, count, to)
       <==> EdgeIndex(i, to - 1) + 1 <= EdgeIndex(i, to - count * MaxDuration(i)) + 403
  {
    hide Edge, EdgeIndex, MaxDuration;
    var e, b := EdgeIndex(i, to - 1) + 1, EdgeIndex(i, to - count * MaxDuration(i));
    EdgeBrackets(i, to - 1);
    EdgeOrder(i, e - 1, b + 403);
    EdgeOrder(i, b + 403, e);
  }

  predicate WithTo(p: Params) {
    p.interval.Some? && p.count.Some? && 1 <= p.count.value <= MAX_INTERVAL_COUNT && p.from.None?
  }

  /** The answer to `to` + `count` before it is known where it ends. */
  lemma ToCountRun(p: Params, first: int, now: int) returns (b: int, n: nat, f: int, m: nat)
    requires WithTo(p)
    ensures var i, c, to := p.interval.value, p.count.value, p.to.GetOr(now);
            && b == EdgeIndex(i, to - c * MaxDuration(i)) && n == BoundaryCount(i, to - c * MaxDuration(i), to)
            && 0 <= f && 2 <= m && f + m <= n && b + c <= EdgeIndex(i, to - 1) + 1
            && GenerateSpec(p, first, now) == Success(Buckets(TakeLast(EdgeRun(i, b + f, m), c + 1), p.interval))
            && forall j :: (b <= j < b + n - 1 && Edge(i, j) <= now && first <= Edge(i, j + 1) ==> b + f <= j < b + f + m - 1)
  {
    hide Edge, EdgeIndex, MaxDuration, EdgeRun, Restricted, TakeLast;
    var i, c, to := p.interval.value, p.count.value, p.to.GetOr(now);
    GenerateErrs(p, first, now);
    b, n := EdgeIndex(i, to - c * MaxDuration(i)), BoundaryCount(i, to - c * MaxDuration(i), to);
    WindowHoldsCount(i, to - c * MaxDuration(i), to, c);
    f, m := RestrictedRun(first, now, i, b, n);
  }

  /** The last `count` buckets up to the first edge at or after `to`. */
  function LastBuckets(i: Interval, count: nat, to: int): seq<int> {
    EdgeRun(i, EdgeIndex(i, to - 1) + 1 - count, count + 1)
  }

  lemma LastBucketsEndAtCeiling(i: Interval, count: nat, to: int)
    ensures IsRun(i, LastBuckets(i, count, to)) && LastBuckets(i, count, to)[count] == Ceiling(i, to)
  {
    hide Edge, EdgeIndex, EdgeRun, Ceiling, IsRun;
    var k := EdgeIndex(i, to - 1) + 1 - count;
    EdgeRunIsRun(i, k, count + 1);
    RunHead(i, k, count + 1);
    CeilingIsEdge(i, to);
  }

  /** The data reaches into the first and the last of the buckets asked for. */
  predicate DataSpans(i: Interval, count: int, to: int, first: int, now: int) {
    var e := EdgeIndex(i, to - 1) + 1;
    first <= Edge(i, e - count + 1) && Edge(i, e - 1) <= now
  }

  lemma ToCountHolds(p: Params, first: int, now: int)
    requires WithTo(p)
    requires DataSpans(p.interval.value, p.count.value, p.to.GetOr(now), first, now)
    ensures var i, c, to := p.interval.value, p.count.value, p.to.GetOr(now);
            ReachesEnd(i, c, to) ==> GenerateSpec(p, first, now) == Success(Buckets(LastBuckets(i, c, to), p.interval))
  {
    hide Edge, EdgeIndex, MaxDuration, EdgeRun, GenerateSpec, TakeLast, ReachesEnd;
    var i, c, to := p.interval.value, p.count.value, p.to.GetOr(now);
    if ReachesEnd(i, c, to) {
      var e := EdgeIndex(i, to - 1) + 1;
      var b, n, f, m := ToCountRun(p, first, now);
      ReachesEndByIndex(i, c, to);
      assert b + n - 1 == e;
      EdgeOrder(i, e - 1, e - c);
      EdgeOrder(i, e, e - c + 1);
      assert b + f <= e - c && e - 1 < b + f + m - 1;
      TakeLastOfRun(i, b + f, m, c + 1);
      assert b + f + m - (c + 1) == e - c;
    }
  }

  lemma ToCountCutShort(p: Params, first: int, now: int)
    requires WithTo(p)
    ensures var i, c, to := p.interval.value, p.count.value, p.to.GetOr(now);
            !ReachesEnd(i, c, to) ==> GenerateSpec(p, first, now) != Success(Buckets(LastBuckets(i, c, to), p.interval))
  {
    hide Edge, EdgeIndex, MaxDuration, EdgeRun, GenerateSpec, TakeLast, ReachesEnd;
    var i, c, to := p.interval.value, p.count.value, p.to.GetOr(now);
    if !ReachesEnd(i, c, to) {
      var e := EdgeIndex(i, to - 1) + 1;
      var b, n, f, m := ToCountRun(p, first, now);
      ReachesEndByIndex(i, c, to);
      TakeLastOfRun(i, b + f, m, c + 1);
      var last := b + f + m - 1;
      RunHead(i, if m <= c + 1 then b + f else last - c, if m <= c + 1 then m else c + 1);
      RunHead(i, e - c, c + 1);
      assert last < e;
      EdgeOrder(i, last, e);
    }
  }

  /** When the data spans all the buckets asked for, the answer is exactly those buckets if and only
      if the safety break does not cut the window short. */
  lemma ToCountIsExact(p: Params, first: int, now: int)
    requires WithTo(p)
    requires DataSpans(p.interval.value, p.count.value, p.to.GetOr(now), first, now)
    ensures var i, c, to := p.interval.value, p.count.value, p.to.GetOr(now);
            GenerateSpec(p, first, now) == Success(Buckets(LastBuckets(i, c, to), p.interval)) <==> ReachesEnd(i, c, to)
  {
    hide *;
    ToCountHolds(p, first, now);
    ToCountCutShort(p, first, now);
  }

  predicate HasBucket(ts: seq<int>, from: int, until: int) {
    exists h :: 0 <= h < |ts| - 1 && ts[h] == from && ts[h + 1] == until
  }

  predicate MeetsData(from: int, until: int, first: int, now: int) {
    from <= now && first <= until
  }

  lemma BucketOfRun(i: Interval, k: int, n: nat, q: int)
    requires k <= q < k + n - 1
    ensures HasBucket(EdgeRun(i, k, n), Edge(i, q), Edge(i, q + 1))
  {
    hide Edge;
    var ts := EdgeRun(i, k, n);
    assert ts[q - k] == Edge(i, q) && ts[q - k + 1] == Edge(i, q + 1);
  }

  lemma RunEndsBefore(i: Interval, k: int, n: nat, e: int)
    requires k + n - 1 < e
    ensures forall h :: 0 <= h < n ==> EdgeRun(i, k, n)[h] < Edge(i, e)
  {
    hide Edge;
    forall h | 0 <= h < n ensures EdgeRun(i, k, n)[h] < Edge(i, e) {
      EdgeOrder(i, k + h, e);
    }
  }

  /** One bucket of the last `count`, by its edge number. */
  lemma ToCountKeeps(p: Params, first: int, now: int, q: int)
    requires WithTo(p)
    ensures var i, c, to := p.interval.value, p.count.value, p.to.GetOr(now);
            var e := EdgeIndex(i, to - 1) + 1;
            ReachesEnd(i, c, to) && e - c <= q < e && MeetsData(Edge(i, q), Edge(i, q + 1), first, now)
            ==> GenerateSpec(p, first, now).Success?
                && HasBucket(GenerateSpec(p, first, now).value.timestamps, Edge(i, q), Edge(i, q + 1))
  {
    hide Edge, EdgeIndex, MaxDuration, EdgeRun, GenerateSpec, TakeLast, ReachesEnd, HasBucket;
    var i, c, to := p.interval.value, p.count.value, p.to.GetOr(now);
    var e := EdgeIndex(i, to - 1) + 1;
    if ReachesEnd(i, c, to) && e - c <= q < e && MeetsData(Edge(i, q), Edge(i, q + 1), first, now) {
      var b, n, f, m := ToCountRun(p, first, now);
      ReachesEndByIndex(i, c, to);
      TakeLastOfRun(i, b + f, m, c + 1);
      if m <= c + 1 {
        BucketOfRun(i, b + f, m, q);
      } else {
        BucketOfRun(i, b + f + m - (c + 1), c + 1, q);
      }
    }
  }

  lemma ToCountMissesNewest(p: Params, first: int, now: int)
    requires WithTo(p)
    ensures var i, c, to := p.interval.value, p.count.value, p.to.GetOr(now);
            !ReachesEnd(i, c, to) ==>
              && GenerateSpec(p, first, now).Success?
              && forall h :: 0 <= h < |GenerateSpec(p, first, now).value.timestamps|
                     ==> GenerateSpec(p, first, now).value.timestamps[h] < Ceiling(i, to)
  {
    hide Edge, EdgeIndex, MaxDuration, EdgeRun, GenerateSpec, TakeLast, ReachesEnd, Ceiling;
    var i, c, to := p.interval.value, p.count.value, p.to.GetOr(now);
    if !ReachesEnd(i, c, to) {
      var e := EdgeIndex(i, to - 1) + 1;
      var b, n, f, m := ToCountRun(p, first, now);
      ReachesEndByIndex(i, c, to);
      TakeLastOfRun(i, b + f, m, c + 1);
      CeilingIsEdge(i, to);
      if m <= c + 1 {
        RunEndsBefore(i, b + f, m, e);
      } else {
        RunEndsBefore(i, b + f + m - (c + 1), c + 1, e);
      }
    }
  }

  /** `to` + `count` (`to` is the present when absent), whatever data there is. Unless the safety
      break cuts the window short, every one of the last `count` buckets up to the first edge at or
      after `to` that meets the data is in the answer. When `to` lies within the data, the newest of
      them meets it, and is in the answer if and only if the break does not. */
  lemma ToCountAnchors(p: Params, first: int, now: int)
    requires WithTo(p)
    ensures var i, c, to := p.interval.value, p.count.value, p.to.GetOr(now);
            var last := LastBuckets(i, c, to);
            GenerateSpec(p, first, now).Success?
            && var ts := GenerateSpec(p, first, now).value.timestamps;
               && (ReachesEnd(i, c, to) ==>
                     forall j :: 0 <= j < c && MeetsData(last[j], last[j + 1], first, now) ==> HasBucket(ts, last[j], last[j + 1]))
               && (first <= to <= now ==>
                     && last[c] == Ceiling(i, to) && MeetsData(last[c - 1], last[c], first, now)
                     && (HasBucket(ts, last[c - 1], last[c]) <==> ReachesEnd(i, c, to)))
  {
    hide Edge, EdgeIndex, MaxDuration, GenerateSpec, ReachesEnd, Ceiling;
    var i, c, to := p.interval.value, p.count.value, p.to.GetOr(now);
    var e, last := EdgeIndex(i, to - 1) + 1, LastBuckets(i, c, to);
    GenerateErrs(p, first, now);
    forall j | 0 <= j < c && ReachesEnd(i, c, to) && MeetsData(last[j], last[j + 1], first, now)
      ensures HasBucket(GenerateSpec(p, first, now).value.timestamps, last[j], last[j + 1])
    {
      ToCountKeeps(p, first, now, e - c + j);
    }
    CeilingIsEdge(i, to);
    EdgeBrackets(i, to - 1);
    ToCountMissesNewest(p, first, now);
  }

  // ---- which counts the safety break spares ----

  lemma EndReached(i: Interval, count: int, to: int, least: int)
    requires var b := EdgeIndex(i, to - count * MaxDuration(i)); least <= Edge(i, b + 403) - Edge(i, b)
    requires (count + 1) * MaxDuration(i) <= least
    ensures ReachesEnd(i, count, to)
  {
    hide Edge, EdgeIndex, MaxDuration;
    var from := to - count * MaxDuration(i);
    var b := EdgeIndex(i, from);
    EdgeBrackets(i, from);
    assert Edge(i, b + 1) - Edge(i, b) <= MaxDuration(i) by { EdgeLength(i, b); }
    assert (count + 1) * MaxDuration(i) == count * MaxDuration(i) + MaxDuration(i);
  }

  /** Fixed-length and yearly buckets are never cut short. */
  lemma FixedAndYearReachEnd(i: Interval, count: int, to: int)
    requires !i.Month? && !i.Quarter? && 1 <= count <= MAX_INTERVAL_COUNT
    ensures ReachesEnd(i, count, to)
  {
    hide Edge, EdgeIndex, ReachesEnd;
    EdgesApart(i, EdgeIndex(i, to - count * MaxDuration(i)), 403);
    EndReached(i, count, to, 403 * MinDuration(i));
  }

  lemma YearsApart(y: int)
    ensures 12_052 <= YearStart(y + 33) - YearStart(y) <= 12_054
    ensures 36_524 <= YearStart(y + 100) - YearStart(y) <= 36_525
  {
    DivApart(y, 33, 4);
    DivApart(y, 33, 100);
    DivApart(y, 33, 400);
    DivApart(y / 100, (y + 33) / 100 - y / 100, 4);
    DivByHundreds(y);
    DivByHundreds(y + 33);
    DivApart(y, 100, 4);
    DivApart(y, 100, 100);
    DivApart(y, 100, 400);
  }

  lemma DivApart(y: int, n: nat, d: int)
    requires d > 0
    ensures n / d <= (y + n) / d - y / d <= n / d + 1
    ensures n % d == 0 ==> (y + n) / d - y / d == n / d
  {
    var r := y % d + n % d;
    if r < d {
      Quotient(y + n, d, y / d + n / d, r);
    } else {
      Quotient(y + n, d, y / d + n / d + 1, r - d);
    }
  }

  lemma DivByHundreds(y: int)
    ensures y / 400 == y / 100 / 4
  {
    Quotient(y, 400, y / 100 / 4, y / 100 % 4 * 100 + y % 100);
  }

  /** Twelve months per year: the same month `n` years later. */
  lemma SameMonthLater(m: int, n: int)
    ensures var y := MarchYear(Date(m / 12, m % 12 + 1, 1));
            MonthStart(m + 12 * n) - MonthStart(m) == (YearStart(y + n) - YearStart(y)) * SECONDS_PER_DAY
  {
    hide DaysFromCivil, YearStart;
    Quotient(m + 12 * n, 12, m / 12 + n, m % 12);
    DaysByYearStart(m / 12, m % 12 + 1, 1);
    DaysByYearStart(m / 12 + n, m % 12 + 1, 1);
  }

  /** 403 months or quarters last about 33 years and 7 months, or 100 years and 9 months. */
  lemma LongRuns(k: int)
    ensures 12_248 * SECONDS_PER_DAY <= Edge(Month, k + 403) - Edge(Month, k) <= 12_271 * SECONDS_PER_DAY
    ensures 36_776 * SECONDS_PER_DAY <= Edge(Quarter, k + 403) - Edge(Quarter, k) <= 36_804 * SECONDS_PER_DAY
  {
    hide MonthStart, YearStart;
    SameMonthLater(k, 33);
    YearsApart(MarchYear(Date(k / 12, k % 12 + 1, 1)));
    EdgesApart(Month, k + 396, 7);
    SameMonthLater(3 * k, 100);
    YearsApart(MarchYear(Date(3 * k / 12, 3 * k % 12 + 1, 1)));
    EdgesApart(Month, 3 * k + 1_200, 9);
  }

  /** Monthly and quarterly buckets: up to 394 of them are never cut short, 396 or more always. */
  lemma MonthAndQuarterReachEnd(i: Interval, count: int, to: int)
    requires (i.Month? || i.Quarter?) && 1 <= count <= MAX_INTERVAL_COUNT
    ensures count <= 394 ==> ReachesEnd(i, count, to)
    ensures count >= 396 ==> !ReachesEnd(i, count, to)
  {
    hide Edge, EdgeIndex;
    var from := to - count * MaxDuration(i);
    var b := EdgeIndex(i, from);
    LongRuns(b);
    EdgeBrackets(i, from);
    if count <= 394 {
      hide ReachesEnd;
      EndReached(i, count, to, if i.Month? then 12_248 * SECONDS_PER_DAY else 36_776 * SECONDS_PER_DAY);
    }
  }

  /** So 396 or more months or quarters up to a moment within the data always lack the newest one. */
  lemma WideMonthsMissNewest(p: Params, first: int, now: int)
    requires WithTo(p) && (p.interval.value.Month? || p.interval.value.Quarter?) && p.count.value >= 396
    requires first <= p.to.GetOr(now) <= now
    ensures var i, c, to := p.interval.value, p.count.value, p.to.GetOr(now);
            var last := LastBuckets(i, c, to);
            && MeetsData(last[c - 1], last[c], first, now) && GenerateSpec(p, first, now).Success?
            && !HasBucket(GenerateSpec(p, first, now).value.timestamps, last[c - 1], last[c])
  {
    hide GenerateSpec, LastBuckets, ReachesEnd, HasBucket, MeetsData, Ceiling;
    ToCountAnchors(p, first, now);
    MonthAndQuarterReachEnd(p.interval.value, p.count.value, p.to.GetOr(now));
  }

  // ---- requests without a count ----

  predicate NoCount(p: Params) {
    p.interval.Some? && p.count.None?
  }

  function From(p: Params, first: int): int {
    if p.from.Some? then p.from.value else first
  }

  function To(p: Params, now: int): int {
    if p.to.Some? then p.to.value else now
  }

  /** The run of edges answered, and what of the first 400 buckets of the window it keeps. */
  lemma NoCountRun(p: Params, first: int, now: int) returns (k: int, n: nat)
    requires NoCount(p) && GenerateSpec(p, first, now).Success?
    ensures var i, from, to := p.interval.value, From(p, first), To(p, now);
            var b, e := EdgeIndex(i, from), EdgeIndex(i, to - 1) + 1;
            && GenerateSpec(p, first, now).value.timestamps == EdgeRun(i, k, n) && n >= 2
            && from < to && b <= k && k + n - 1 <= e && k + n - 1 <= b + MAX_INTERVAL_COUNT
            && forall q :: b <= q < e && q < b + MAX_INTERVAL_COUNT && MeetsData(Edge(i, q), Edge(i, q + 1), first, now)
                 ==> k <= q < k + n - 1
  {
    hide Edge, EdgeIndex, MaxDuration, EdgeRun, Restricted, Take;
    var i, from, to := p.interval.value, From(p, first), To(p, now);
    var b, count := EdgeIndex(i, from), BoundaryCount(i, from, to);
    BoundaryCountAtLeastTwo(i, from, to);
    TakeOfRun(i, b, count, MAX_INTERVAL_COUNT + 1);
    var f, m := RestrictedRun(first, now, i, b, if count <= MAX_INTERVAL_COUNT + 1 then count else MAX_INTERVAL_COUNT + 1);
    k, n := b + f, m;
  }

  /** Every bucket answered meets the window, and every one of the first 400 buckets of the window
      that meets the data is answered. */
  lemma WindowIsAnswered(p: Params, first: int, now: int)
    requires NoCount(p) && GenerateSpec(p, first, now).Success?
    ensures var i, from, to := p.interval.value, From(p, first), To(p, now);
            var ts, b := GenerateSpec(p, first, now).value.timestamps, EdgeIndex(p.interval.value, From(p, first));
            && (forall h :: 0 <= h < |ts| - 1 ==> ts[h] < to) && (forall h :: 0 < h < |ts| ==> from < ts[h])
            && (forall q :: b <= q < b + MAX_INTERVAL_COUNT && Edge(i, q) < to && MeetsData(Edge(i, q), Edge(i, q + 1), first, now)
                  ==> HasBucket(ts, Edge(i, q), Edge(i, q + 1)))
  {
    hide Edge, EdgeIndex, EdgeRun, GenerateSpec, HasBucket;
    var i, from, to := p.interval.value, From(p, first), To(p, now);
    var b, e := EdgeIndex(i, from), EdgeIndex(i, to - 1) + 1;
    var k, n := NoCountRun(p, first, now);
    EdgeBrackets(i, from);
    EdgeBrackets(i, to - 1);
    forall h | 0 <= h < n - 1 ensures EdgeRun(i, k, n)[h] < to {
      RunAt(i, k, n, h);
      EdgeOrder(i, k + h, e - 1);
    }
    forall h | 0 < h < n ensures from < EdgeRun(i, k, n)[h] {
      RunAt(i, k, n, h);
      EdgeOrder(i, b + 1, k + h);
    }
    forall q | b <= q < b + MAX_INTERVAL_COUNT && Edge(i, q) < to && MeetsData(Edge(i, q), Edge(i, q + 1), first, now)
      ensures HasBucket(EdgeRun(i, k, n), Edge(i, q), Edge(i, q + 1))
    {
      EdgeOrder(i, e, q);
      BucketOfRun(i, k, n, q);
    }
  }

  lemma RunAt(i: Interval, k: int, n: nat, h: nat)
    requires h < n
    ensures EdgeRun(i, k, n)[h] == Edge(i, k + h)
  {
    hide Edge;
  }

  /** A window of at most 400 buckets within the data is answered in full: from the edge at or before
      `from` to the first edge at or after `to`. */
  lemma WindowIsCovered(p: Params, first: int, now: int)
    requires NoCount(p) && first <= From(p, first) < To(p, now) <= now
    requires To(p, now) <= Edge(p.interval.value, EdgeIndex(p.interval.value, From(p, first)) + MAX_INTERVAL_COUNT)
    ensures GenerateSpec(p, first, now).Success?
    ensures var ts := GenerateSpec(p, first, now).value.timestamps;
            && |ts| >= 2 && ts[0] == Truncate(p.interval.value, From(p, first))
            && ts[|ts| - 1] == Ceiling(p.interval.value, To(p, now))
  {
    hide Edge, EdgeIndex, EdgeRun, GenerateSpec, Truncate, Ceiling;
    var i, from, to := p.interval.value, From(p, first), To(p, now);
    var b, e := EdgeIndex(i, from), EdgeIndex(i, to - 1) + 1;
    NotTooWide(p, first, now);
    var k, n := NoCountRun(p, first, now);
    EdgeBrackets(i, from);
    EdgeBrackets(i, to - 1);
    EdgeOrder(i, b, e);
    EdgeOrder(i, b + MAX_INTERVAL_COUNT, e - 1);
    EdgeOrder(i, e, b + 1);
    assert MeetsData(Edge(i, b), Edge(i, b + 1), first, now);
    EdgeOrder(i, b + 1, e);
    assert MeetsData(Edge(i, e - 1), Edge(i, e), first, now);
    assert k == b && k + n - 1 == e;
    RunAt(i, k, n, 0);
    RunAt(i, k, n, n - 1);
    TruncateIsEdge(i, from);
    CeilingIsEdge(i, to);
  }

  lemma NotTooWide(p: Params, first: int, now: int)
    requires NoCount(p) && From(p, first) < To(p, now)
    requires To(p, now) <= Edge(p.interval.value, EdgeIndex(p.interval.value, From(p, first)) + MAX_INTERVAL_COUNT)
    ensures GenerateSpec(p, first, now).Success?
  {
    hide Edge, EdgeIndex, GenerateSpec, MaxDuration;
    var i, from := p.interval.value, From(p, first);
    GenerateErrs(p, first, now);
    EdgeBrackets(i, from);
    EdgesApart(i, EdgeIndex(i, from), MAX_INTERVAL_COUNT);
    MaxIsPositive(i);
  }

  /** Without an interval the answer is the one span asked for. */
  lemma OneSpan(p: Params, first: int, now: int)
    requires p.interval.None?
    ensures if p.count.Some? then GenerateSpec(p, first, now) == Failure(CountWithoutInterval)
            else GenerateSpec(p, first, now).Success? && GenerateSpec(p, first, now).value.timestamps == [From(p, first), To(p, now)]
                 && GenerateSpec(p, first, now).value.interval == None
  {
  }

  /** Which error a refused request is told. */
  lemma ErrorTold(p: Params, first: int, now: int)
    requires p.interval.Some?
    ensures var r, width := GenerateSpec(p, first, now), To(p, now) - From(p, first);
            && (p.count.Some? && (p.count.value < 1 || p.count.value > 400) <==> r == Failure(CountOutOfRange))
            && (p.count.Some? && 1 <= p.count.value <= 400 && p.from.Some? && p.to.Some? <==> r == Failure(CountFromAndTo))
            && (p.count.None? && width <= 0 <==> r == Failure(FromNotBeforeTo))
            && (p.count.None? && width > 800 * MaxDuration(p.interval.value) <==> r == Failure(TooWideRange))
  {
    hide EdgeRun, Restricted, EdgeIndex, BoundaryCount, MaxDuration;
    GenerateErrs(p, first, now);
    MaxIsPositive(p.interval.value);
    if p.count.Some? {
      hide GenerateSpec;
      CountIsNeverTooWide(p, first, now);
    }
  }

  lemma CountIsNeverTooWide(p: Params, first: int, now: int)
    requires p.interval.Some? && p.count.Some?
    ensures GenerateSpec(p, first, now) !in {Failure(FromNotBeforeTo), Failure(TooWideRange)}
    ensures p.count.value < 1 || p.count.value > 400 <==> GenerateSpec(p, first, now) == Failure(CountOutOfRange)
    ensures 1 <= p.count.value <= 400 && p.from.Some? && p.to.Some? <==> GenerateSpec(p, first, now) == Failure(CountFromAndTo)
  {
    hide EdgeRun, Restricted, EdgeIndex, BoundaryCount, MaxDuration;
    GenerateErrs(p, first, now);
  }

  /** `from` + `count`, whatever data there is: every one of the first `count` buckets from the edge
      at or before `from` that meets the data is in the answer. */
  lemma FromCountKeeps(p: Params, first: int, now: int, q: int)
    requires p.interval.Some? && p.count.Some? && 1 <= p.count.value <= MAX_INTERVAL_COUNT && p.from.Some? && p.to.None?
    ensures var i, b := p.interval.value, EdgeIndex(p.interval.value, p.from.value);
            GenerateSpec(p, first, now).Success?
            && (b <= q < b + p.count.value && MeetsData(Edge(i, q), Edge(i, q + 1), first, now)
                ==> HasBucket(GenerateSpec(p, first, now).value.timestamps, Edge(i, q), Edge(i, q + 1)))
  {
    hide Edge, EdgeIndex, MaxDuration, EdgeRun, Restricted, Take, HasBucket;
    var i, c, from := p.interval.value, p.count.value, p.from.value;
    var b, until := EdgeIndex(i, from), from + c * MaxDuration(i);
    GenerateErrs(p, first, now);
    if b <= q < b + c && MeetsData(Edge(i, q), Edge(i, q + 1), first, now) {
      var n := BoundaryCount(i, from, until);
      WindowHoldsCount(i, from, until, c);
      var f, m := RestrictedRun(first, now, i, b, n);
      TakeOfRun(i, b + f, m, c + 1);
      BucketOfRun(i, b + f, if m <= c + 1 then m else c + 1, q);
    }
  }
}
