/** Bucket edges: rounding a second down to an edge, and stepping to the next edge. */
module Intervals {
  import opened Calendar

  datatype Interval = Min5 | Hour | Day | Week | Month | Quarter | Year

  function MinDuration(i: Interval): int {
    match i
    case Min5 => 300
    case Hour => 3_600
    case Day => 86_400
    case Week => 7 * 86_400
    case Month => 28 * 86_400
    case Quarter => 3 * 28 * 86_400
    case Year => 365 * 86_400
  }

  function MaxDuration(i: Interval): int {
    match i
    case Min5 => 300
    case Hour => 3_600
    case Day => 86_400
    case Week => 7 * 86_400
    case Month => 31 * 86_400
    case Quarter => 3 * 31 * 86_400
    case Year => 366 * 86_400
  }

  const THURSDAY_OFFSET: int := 3 * 86_400

  function Truncate(i: Interval, t: int): int {
    match i
    case Min5 => t / 300 * 300
    case Hour => t / 3_600 * 3_600
    case Day => t / 86_400 * 86_400
    case Week =>
      var shifted := t + THURSDAY_OFFSET;
      shifted / (7 * 86_400) * (7 * 86_400) - THURSDAY_OFFSET
    case _ =>
      var d := CivilFromEpochSeconds(t);
      var month := FirstMonth(i, d.month);
      if month < 1 then EpochSecondsFromCivil(d.year - 1, 1, 1)
      else EpochSecondsFromCivil(d.year, month, 1)
  }

  function FirstMonth(i: Interval, month: int): int {
    match i
    case Quarter => (month - 1) / 3 * 3 + 1
    case Year => 1
    case _ => month
  }

  function Advance(i: Interval, t: int): int {
    match i
    case Min5 | Hour | Day | Week => t + MinDuration(i)
    case _ =>
      var d := CivilFromEpochSeconds(t);
      var total := d.year * 12 + (d.month - 1) + MonthsPer(i);
      EpochSecondsFromCivil(total / 12, total % 12 + 1, 1)
  }

  function MonthsPer(i: Interval): int {
    match i
    case Month => 1
    case Quarter => 3
    case Year => 12
    case _ => 0
  }

  // ---- edges by number ----

  /** First second of month `m`, counting months from January of year 0. */
  function MonthStart(m: int): int {
    EpochSecondsFromCivil(m / 12, m % 12 + 1, 1)
  }

  /** Edge number `k`: every edge of an interval is `Edge(i, k)` for exactly one `k`. */
  function Edge(i: Interval, k: int): int {
    match i
    case Min5 => 300 * k
    case Hour => 3_600 * k
    case Day => 86_400 * k
    case Week => 7 * 86_400 * k - THURSDAY_OFFSET
    case Month => MonthStart(k)
    case Quarter => MonthStart(3 * k)
    case Year => MonthStart(12 * k)
  }

  /** The number of the last edge at or before `t`. */
  function EdgeIndex(i: Interval, t: int): int {
    match i
    case Min5 => t / 300
    case Hour => t / 3_600
    case Day => t / 86_400
    case Week => (t + THURSDAY_OFFSET) / (7 * 86_400)
    case Month => MonthIndex(t)
    case Quarter => MonthIndex(t) / 3
    case Year => MonthIndex(t) / 12
  }

  function MonthIndex(t: int): int {
    var d := CivilFromEpochSeconds(t);
    d.year * 12 + (d.month - 1)
  }

  // ---- months ----

  lemma SplitMonth(year: int, month: int)
    requires 1 <= month <= 12
    ensures (year * 12 + (month - 1)) / 12 == year && (year * 12 + (month - 1)) % 12 == month - 1
  {
  }

  lemma MonthStartOf(year: int, month: int)
    requires 1 <= month <= 12
    ensures MonthStart(year * 12 + (month - 1)) == EpochSecondsFromCivil(year, month, 1)
  {
    SplitMonth(year, month);
    hide EpochSecondsFromCivil;
  }

  lemma EpochOfDay(year: int, month: int, day: int)
    ensures EpochSecondsFromCivil(year, month, day) == EpochSecondsFromCivil(year, month, 1) + (day - 1) * SECONDS_PER_DAY
  {
  }

  lemma EpochOfNextDay(d: Date)
    requires IsValid(d)
    ensures IsValid(NextDay(d))
    ensures var e := NextDay(d);
            EpochSecondsFromCivil(e.year, e.month, e.day) == EpochSecondsFromCivil(d.year, d.month, d.day) + SECONDS_PER_DAY
  {
    DaysFromNextDay(d);
    hide DaysFromCivil, NextDay, IsValid;
  }

  /** The first of next month is as many days away as this month has. */
  lemma MonthLengthOf(year: int, month: int)
    requires 1 <= month <= 12
    ensures MonthStart(year * 12 + month)
         == MonthStart(year * 12 + (month - 1)) + DaysInMonth(year, month) * SECONDS_PER_DAY
  {
    var last := Date(year, month, DaysInMonth(year, month));
    EpochOfNextDay(last);
    EpochOfDay(year, month, last.day);
    MonthStartOf(year, month);
    var next := if month < 12 then Date(year, month + 1, 1) else Date(year + 1, 1, 1);
    assert NextDay(last) == next;
    MonthStartOf(next.year, next.month);
    hide *;
  }

  /** Months are 28 to 31 days long, whatever the year. */
  lemma MonthLength(m: int)
    ensures 28 * SECONDS_PER_DAY <= MonthStart(m + 1) - MonthStart(m) <= 31 * SECONDS_PER_DAY
    ensures MonthStart(m + 1) - MonthStart(m) == DaysInMonth(m / 12, m % 12 + 1) * SECONDS_PER_DAY
  {
    MonthLengthOf(m / 12, m % 12 + 1);
    hide MonthStart, IsLeap;
  }

  lemma MonthBrackets(t: int)
    ensures MonthStart(MonthIndex(t)) <= t < MonthStart(MonthIndex(t) + 1)
  {
    EpochOfCivil(t);
    hide DaysInMonth, CivilFromEpochSeconds, MonthStart, EpochSecondsFromCivil;
    var d := CivilFromEpochSeconds(t);
    EpochOfDay(d.year, d.month, d.day);
    MonthStartOf(d.year, d.month);
    MonthLengthOf(d.year, d.month);
  }

  // ---- every interval kind ----

  lemma JanuaryFirst(year: int)
    ensures MonthStart(12 * year) == (YearStart(year - 1) - 719_162) * SECONDS_PER_DAY
  {
    hide MonthStart, DaysFromCivil, YearStart;
    MonthStartOf(year, 1);
    DaysByYearStart(year, 1, 1);
  }

  lemma YearLength(year: int)
    ensures MonthStart(12 * year + 12) - MonthStart(12 * year) == (if IsLeap(year) then 366 else 365) * SECONDS_PER_DAY
  {
    hide MonthStart, YearStart, IsLeap;
    JanuaryFirst(year);
    JanuaryFirst(year + 1);
    YearStartNext(year - 1);
  }

  /** The shortest and longest an interval is declared to be are bounds on every one of them. */
  lemma EdgeLength(i: Interval, k: int)
    ensures MinDuration(i) <= Edge(i, k + 1) - Edge(i, k) <= MaxDuration(i)
  {
    hide MonthStart, IsLeap;
    match i
    case Month => MonthLength(k);
    case Quarter =>
      MonthLength(3 * k);
      MonthLength(3 * k + 1);
      MonthLength(3 * k + 2);
    case Year => YearLength(k);
    case _ =>
  }

  /** `n` intervals take between `n` times the shortest and `n` times the longest. */
  lemma {:induction false} EdgesApart(i: Interval, k: int, n: nat)
    ensures n * MinDuration(i) <= Edge(i, k + n) - Edge(i, k) <= n * MaxDuration(i)
  {
    hide *;
    if n > 0 {
      EdgesApart(i, k, n - 1);
      EdgeLength(i, k + n - 1);
      OneMore(n - 1, MinDuration(i));
      OneMore(n - 1, MaxDuration(i));
    }
  }

  lemma OneMore(n: nat, d: int)
    ensures (n + 1) * d == n * d + d
  {
  }

  /** Edges increase strictly with their number. */
  lemma EdgeOrder(i: Interval, j: int, k: int)
    ensures Edge(i, j) < Edge(i, k) <==> j < k
  {
    hide Edge;
    if j < k {
      EdgesApart(i, j, k - j);
      Positive(k - j, MinDuration(i));
    } else {
      EdgesApart(i, k, j - k);
      Positive(j - k, MinDuration(i));
    }
  }

  lemma Positive(n: nat, d: int)
    requires d > 0
    ensures n * d >= 0 && (n > 0 ==> n * d > 0)
  {
  }

  lemma EdgeBrackets(i: Interval, t: int)
    ensures Edge(i, EdgeIndex(i, t)) <= t < Edge(i, EdgeIndex(i, t) + 1)
  {
    hide MonthStart, MonthIndex;
    match i
    case Month => MonthBrackets(t);
    case Quarter =>
      MonthBrackets(t);
      var m := MonthIndex(t);
      MonthsGrow(3 * (m / 3), m);
      MonthsGrow(m + 1, 3 * (m / 3) + 3);
    case Year =>
      MonthBrackets(t);
      var m := MonthIndex(t);
      MonthsGrow(12 * (m / 12), m);
      MonthsGrow(m + 1, 12 * (m / 12) + 12);
    case _ =>
  }

  lemma MonthsGrow(m: int, n: int)
    requires m <= n
    ensures MonthStart(m) <= MonthStart(n)
  {
    EdgeOrder(Month, n, m);
    hide MonthStart;
  }

  /** Only one edge number brackets a given second. */
  lemma EdgeIndexUnique(i: Interval, k: int, t: int)
    requires Edge(i, k) <= t < Edge(i, k + 1)
    ensures EdgeIndex(i, t) == k
  {
    hide Edge, EdgeIndex;
    EdgeBrackets(i, t);
    EdgeOrder(i, k, EdgeIndex(i, t) + 1);
    EdgeOrder(i, EdgeIndex(i, t), k + 1);
  }

  /** `Truncate` returns the edge numbered by `EdgeIndex`. */
  lemma TruncateIsEdge(i: Interval, t: int)
    ensures Truncate(i, t) == Edge(i, EdgeIndex(i, t))
  {
    hide MonthStart, EpochSecondsFromCivil, CivilFromEpochSeconds;
    if i.Month? || i.Quarter? || i.Year? {
      EpochOfCivil(t);
      var d := CivilFromEpochSeconds(t);
      MonthStartOf(d.year, d.month);
      MonthStartOf(d.year, (d.month - 1) / 3 * 3 + 1);
      MonthStartOf(d.year, 1);
    }
  }

  lemma AdvanceMonths(i: Interval, m: int)
    requires i.Month? || i.Quarter? || i.Year?
    ensures Advance(i, MonthStart(m)) == MonthStart(m + MonthsPer(i))
  {
    assert MonthIndex(MonthStart(m)) == m by {
      hide MonthStart, MonthIndex;
      MonthLength(m);
      EdgeIndexUnique(Month, m, MonthStart(m));
    }
    hide EpochSecondsFromCivil, CivilFromEpochSeconds, MonthsPer;
  }

  /** From an edge, `Advance` goes to the edge with the next number. */
  lemma AdvanceIsNextEdge(i: Interval, k: int)
    ensures Advance(i, Edge(i, k)) == Edge(i, k + 1)
  {
    hide MonthStart;
    match i
    case Month => hide Advance; AdvanceMonths(i, k);
    case Quarter => hide Advance; AdvanceMonths(i, 3 * k);
    case Year => hide Advance; AdvanceMonths(i, 12 * k);
    case _ =>
  }

  // ---- main results ----

  predicate IsEdge(i: Interval, b: int) {
    Truncate(i, b) == b
  }

  /** Edges are exactly the numbered edges. */
  lemma EdgeIsEdge(i: Interval, k: int)
    ensures IsEdge(i, Edge(i, k)) && EdgeIndex(i, Edge(i, k)) == k
  {
    hide Edge, Truncate, EdgeIndex;
    EdgeOrder(i, k, k + 1);
    EdgeIndexUnique(i, k, Edge(i, k));
    TruncateIsEdge(i, Edge(i, k));
  }

  /** `Truncate` is the floor: the greatest edge at or before `t`, with the next edge after `t`. */
  lemma TruncateIsFloor(i: Interval, t: int)
    ensures Truncate(i, t) <= t < Advance(i, Truncate(i, t))
    ensures IsEdge(i, Truncate(i, t))
    ensures forall b :: IsEdge(i, b) && b <= t ==> b <= Truncate(i, t)
  {
    hide Edge, Truncate, EdgeIndex, Advance;
    TruncateIsEdge(i, t);
    var k := EdgeIndex(i, t);
    EdgeBrackets(i, t);
    AdvanceIsNextEdge(i, k);
    EdgeIsEdge(i, k);
    forall b | IsEdge(i, b) && b <= t ensures b <= Truncate(i, t) {
      TruncateIsMonotone(i, b, t);
    }
  }

  lemma TruncateIsMonotone(i: Interval, t: int, u: int)
    requires t <= u
    ensures Truncate(i, t) <= Truncate(i, u)
  {
    hide Edge, Truncate, EdgeIndex;
    TruncateIsEdge(i, t);
    TruncateIsEdge(i, u);
    EdgeBrackets(i, t);
    EdgeBrackets(i, u);
    EdgeOrder(i, EdgeIndex(i, t), EdgeIndex(i, u) + 1);
    EdgeOrder(i, EdgeIndex(i, u), EdgeIndex(i, t));
  }

  /** `Advance` is the successor: the least edge after an edge, at a declared distance from it. */
  lemma AdvanceIsSuccessor(i: Interval, b: int)
    requires IsEdge(i, b)
    ensures IsEdge(i, Advance(i, b))
    ensures MinDuration(i) <= Advance(i, b) - b <= MaxDuration(i)
    ensures forall t :: b <= t < Advance(i, b) ==> Truncate(i, t) == b
  {
    hide Edge, Truncate, EdgeIndex, Advance, MinDuration, MaxDuration;
    var k := EdgeIndex(i, b);
    TruncateIsEdge(i, b);
    AdvanceIsNextEdge(i, k);
    EdgeIsEdge(i, k + 1);
    EdgeLength(i, k);
    forall t | b <= t < Advance(i, b) ensures Truncate(i, t) == b {
      EdgeIndexUnique(i, k, t);
      TruncateIsEdge(i, t);
    }
  }
}
