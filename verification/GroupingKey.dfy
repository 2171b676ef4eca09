/** The SQL grouping key against the bucket boundaries. */
module GroupingKey {
  import opened Wrappers
  import opened Time
  import opened Calendar
  import opened Intervals
  import opened Buckets
  import opened BucketTheorems

  // ---- date_trunc, on the calendar stepped day by day ----

  datatype Field = MinuteField | HourField | DayField | WeekField | MonthField | QuarterField | YearField

  function DateTruncField(i: Interval): Field {
    match i
    case Min5 => MinuteField
    case Hour => HourField
    case Day => DayField
    case Week => WeekField
    case Month => MonthField
    case Quarter => QuarterField
    case Year => YearField
  }

  /** Days of `year` in the months `from..month`. */
  function DaysBetweenMonths(year: int, from: int, month: int): int
    decreases month - from
  {
    if month <= from then 0 else DaysInMonth(year, from) + DaysBetweenMonths(year, from + 1, month)
  }

  /** Postgres `date_trunc` in UTC, on epoch seconds: the start of the field `s` lies in. */
  function DateTrunc(field: Field, s: int): int {
    var n := s / SECONDS_PER_DAY;
    var date := SteppedDate(n);
    match field
    case MinuteField => s - s % 60
    case HourField => s - s % 3_600
    case DayField => s - s % SECONDS_PER_DAY
    case WeekField => (n - (n + 3) % 7) * SECONDS_PER_DAY
    case MonthField => (n - (date.day - 1)) * SECONDS_PER_DAY
    case QuarterField =>
      var firstMonth := date.month - (date.month - 1) % 3;
      (n - (date.day - 1) - DaysBetweenMonths(date.year, firstMonth, date.month)) * SECONDS_PER_DAY
    case YearField =>
      (n - (date.day - 1) - DaysBetweenMonths(date.year, 1, date.month)) * SECONDS_PER_DAY
  }

  /** The bucket start the SQL query computes for a row at nanosecond `ns`. */
  function GroupKey(b: Buckets, ns: int): int
    requires |b.timestamps| >= 2
  {
    match b.interval
    case None => b.timestamps[0]
    case Some(i) => DateTrunc(DateTruncField(i), TruncDiv(TruncDiv(ns, NANOS_PER_SECOND), 300) * 300)
  }

  // ---- the two agree ----

  lemma {:induction false} MonthStartWithinYear(year: int, from: int, month: int)
    requires 1 <= from <= month <= 12
    ensures MonthStart(year * 12 + (month - 1))
         == MonthStart(year * 12 + (from - 1)) + DaysBetweenMonths(year, from, month) * SECONDS_PER_DAY
    decreases month - from
  {
    hide MonthStart, DaysInMonth;
    if from < month {
      MonthLengthOf(year, from);
      MonthStartWithinYear(year, from + 1, month);
    }
  }

  /** The start of the month, quarter or year, found by stepping back through the calendar. */
  lemma MonthsBack(i: Interval, s: int)
    requires i.Month? || i.Quarter? || i.Year?
    ensures var n := s / SECONDS_PER_DAY;
            var d := SteppedDate(n);
            1 <= d.month <= 12 && 1 <= FirstMonth(i, d.month) <= d.month
            && Truncate(i, s) == (n - (d.day - 1) - DaysBetweenMonths(d.year, FirstMonth(i, d.month), d.month)) * SECONDS_PER_DAY
  {
    hide SteppedDate, MonthStart, EpochSecondsFromCivil, CivilFromDays, DaysInMonth, DaysBetweenMonths;
    CivilIsSteppedDate(s / SECONDS_PER_DAY);
    EpochOfCivil(s);
    var d := SteppedDate(s / SECONDS_PER_DAY);
    var first := FirstMonth(i, d.month);
    EpochOfDay(d.year, d.month, d.day);
    MonthStartOf(d.year, d.month);
    MonthStartOf(d.year, first);
    MonthStartWithinYear(d.year, first, d.month);
  }

  /** The calendar code rounds to the same second as `date_trunc`, for every second. */
  lemma TruncateIsDateTrunc(i: Interval, s: int)
    ensures Truncate(i, s) == if i.Min5? then s - s % 300 else DateTrunc(DateTruncField(i), s)
  {
    if i.Month? || i.Quarter? || i.Year? {
      hide Truncate, SteppedDate, DaysBetweenMonths;
      MonthsBack(i, s);
      var d := SteppedDate(s / SECONDS_PER_DAY);
      NoMonths(d.year, d.month);
      QuarterStart(d.month);
    } else {
      hide Truncate, DateTrunc;
      FixedIsDateTrunc(i, s);
    }
  }

  lemma FixedIsDateTrunc(i: Interval, s: int)
    requires !(i.Month? || i.Quarter? || i.Year?)
    ensures Truncate(i, s) == if i.Min5? then s - s % 300 else DateTrunc(DateTruncField(i), s)
  {
    hide SteppedDate;
    if i.Week? {
      WeekFromThursday(s);
    }
  }

  lemma WeekFromThursday(s: int)
    ensures Truncate(Week, s) == DateTrunc(WeekField, s)
  {
    hide SteppedDate;
  }

  /** What the edges are, on the calendar stepped day by day: whole multiples, Mondays (day 4 was one),
      first days of months, of January, April, July and October, and of January. */
  predicate StartsInterval(i: Interval, t: int) {
    var n := t / SECONDS_PER_DAY;
    var date := SteppedDate(n);
    match i
    case Min5 => t % 300 == 0
    case Hour => t % 3_600 == 0
    case Day => t % 86_400 == 0
    case Week => t % 86_400 == 0 && (n - 4) % 7 == 0
    case Month => t % 86_400 == 0 && date.day == 1
    case Quarter => t % 86_400 == 0 && date.day == 1 && (date.month == 1 || date.month == 4 || date.month == 7 || date.month == 10)
    case Year => t % 86_400 == 0 && date.day == 1 && date.month == 1
  }

  lemma EdgesAre(i: Interval, t: int)
    ensures IsEdge(i, t) <==> StartsInterval(i, t)
  {
    if i.Month? || i.Quarter? || i.Year? {
      MonthEdgesAre(i, t);
    } else {
      hide SteppedDate;
      if i.Week? {
        WeekEdgesAre(t);
      }
    }
  }

  lemma WeekEdgesAre(t: int)
    ensures Truncate(Week, t) == t <==> t % 86_400 == 0 && (t / 86_400 - 4) % 7 == 0
  {
    var w := (t + THURSDAY_OFFSET) / (7 * 86_400);
    if Truncate(Week, t) == t {
      Quotient(t, 86_400, 7 * w - 3, 0);
      Quotient(7 * w - 7, 7, w - 1, 0);
    }
    if t % 86_400 == 0 && (t / 86_400 - 4) % 7 == 0 {
      var k := (t / 86_400 - 4) / 7;
      assert t == 86_400 * (7 * k + 4);
      Quotient(t + THURSDAY_OFFSET, 7 * 86_400, k + 1, 0);
    }
  }

  lemma MonthEdgesAre(i: Interval, t: int)
    requires i.Month? || i.Quarter? || i.Year?
    ensures Truncate(i, t) == t <==> StartsInterval(i, t)
  {
    hide SteppedDate, EpochSecondsFromCivil, CivilFromDays, DaysInMonth;
    CivilIsSteppedDate(t / SECONDS_PER_DAY);
    EpochOfCivil(t);
    var d := SteppedDate(t / SECONDS_PER_DAY);
    var first := FirstMonth(i, d.month);
    SteppedDateIsValid(t / SECONDS_PER_DAY);
    FirstIsValid(i, d);
    if Truncate(i, t) == t {
      CivilOfEpoch(Date(d.year, first, 1), 0);
      MidnightOf(d.year, first);
    }
    FirstMonthIs(i, d.month);
  }

  lemma FirstIsValid(i: Interval, d: Date)
    requires IsValid(d)
    ensures IsValid(Date(d.year, FirstMonth(i, d.month), 1))
  {
  }

  lemma MidnightOf(year: int, month: int)
    ensures EpochSecondsFromCivil(year, month, 1) % SECONDS_PER_DAY == 0
  {
    hide DaysFromCivil;
    Quotient(DaysFromCivil(year, month, 1) * SECONDS_PER_DAY, SECONDS_PER_DAY, DaysFromCivil(year, month, 1), 0);
  }

  lemma FirstMonthIs(i: Interval, month: int)
    requires 1 <= month <= 12
    ensures FirstMonth(Quarter, month) == month <==> month == 1 || month == 4 || month == 7 || month == 10
    ensures FirstMonth(Month, month) == month
    ensures FirstMonth(Year, month) == 1
  {
  }

  lemma NoMonths(year: int, month: int)
    ensures DaysBetweenMonths(year, month, month) == 0
  {
  }

  lemma QuarterStart(month: int)
    ensures (month - 1) / 3 * 3 + 1 == month - (month - 1) % 3
  {
  }

  lemma MonthStartOnFiveMinutes(m: int)
    ensures MonthStart(m) % 300 == 0
  {
    hide DaysFromCivil;
    var days := DaysFromCivil(m / 12, m % 12 + 1, 1);
    assert MonthStart(m) == 300 * (288 * days);
  }

  /** Edges are whole multiples of five minutes. */
  lemma EdgeOnFiveMinutes(i: Interval, k: int)
    ensures Edge(i, k) % 300 == 0
  {
    hide MonthStart;
    match i
    case Month => MonthStartOnFiveMinutes(k);
    case Quarter => MonthStartOnFiveMinutes(3 * k);
    case Year => MonthStartOnFiveMinutes(12 * k);
    case Min5 => Quotient(300 * k, 300, k, 0);
    case Hour => Quotient(3_600 * k, 300, 12 * k, 0);
    case Day => Quotient(86_400 * k, 300, 288 * k, 0);
    case Week => Quotient(7 * 86_400 * k - THURSDAY_OFFSET, 300, 2_016 * k - 864, 0);
  }

  /** Rounding down to five minutes first does not move a second to another bucket. */
  lemma FiveMinutesFirst(i: Interval, s: int)
    ensures EdgeIndex(i, s / 300 * 300) == EdgeIndex(i, s)
  {
    hide Edge, EdgeIndex;
    var k := EdgeIndex(i, s);
    EdgeBrackets(i, s);
    EdgeOnFiveMinutes(i, k);
    EdgeIndexUnique(i, k, s / 300 * 300);
  }

  lemma GroupKeyIsTruncate(b: Buckets, ns: int)
    requires |b.timestamps| >= 2 && b.interval.Some? && ns >= 0
    ensures GroupKey(b, ns) == Truncate(b.interval.value, ns / NANOS_PER_SECOND)
  {
    hide Edge, EdgeIndex, DateTrunc, Truncate;
    var i, s := b.interval.value, ns / NANOS_PER_SECOND;
    FiveMinutesFirst(i, s);
    TruncateIsEdge(i, s);
    TruncateIsEdge(i, s / 300 * 300);
    TruncateIsDateTrunc(i, s / 300 * 300);
    if i.Min5? {
      MinuteOfFiveMinutes(s);
    }
  }

  /** Before the epoch the integer divisions round up to a five-minute mark, so a row is filed under
      the next bucket exactly when that mark starts one. */
  lemma KeyBeforeEpoch(b: Buckets, ns: int)
    requires |b.timestamps| >= 2 && b.interval.Some? && ns < 0
    ensures var i, mark := b.interval.value, TruncDiv(TruncDiv(ns, NANOS_PER_SECOND), 300) * 300;
            GroupKey(b, ns) == Truncate(i, ns / NANOS_PER_SECOND) <==> !IsEdge(i, mark) || ns == ToNano(mark)
  {
    hide Edge, EdgeIndex, DateTrunc, Truncate;
    var i, s, mark := b.interval.value, ns / NANOS_PER_SECOND, TruncDiv(TruncDiv(ns, NANOS_PER_SECOND), 300) * 300;
    MarkAfter(ns);
    TruncateIsDateTrunc(i, mark);
    MinuteOfFiveMinutes(mark);
    TruncateIsEdge(i, s);
    TruncateIsEdge(i, mark);
    var k := EdgeIndex(i, mark);
    EdgeBrackets(i, s);
    EdgeBrackets(i, mark);
    EdgeOnFiveMinutes(i, k);
    if IsEdge(i, mark) && s < mark {
      EdgeIsEdge(i, k);
    } else if !IsEdge(i, mark) {
      EdgeIsEdge(i, k);
      EdgeIndexUnique(i, k, s);
    }
  }

  lemma MarkAfter(ns: int)
    requires ns < 0
    ensures var s, mark := ns / NANOS_PER_SECOND, TruncDiv(TruncDiv(ns, NANOS_PER_SECOND), 300) * 300;
            mark % 300 == 0 && mark - 300 <= s <= mark && (s == mark <==> ns == ToNano(mark))
  {
  }

  lemma MinuteOfFiveMinutes(s: int)
    ensures DateTrunc(MinuteField, s / 300 * 300) == s / 300 * 300
  {
    assert s / 300 * 300 == 60 * (s / 300 * 5);
  }

  /** Boundaries as `Generate` makes them. */
  predicate WellFormed(b: Buckets) {
    && |b.timestamps| >= 2
    && (b.interval.None? ==> |b.timestamps| == 2)
    && (b.interval.Some? ==> IsRun(b.interval.value, b.timestamps))
  }

  lemma GenerateIsWellFormed(p: Params, first: int, now: int)
    ensures var r := GenerateSpec(p, first, now); r.Success? ==> WellFormed(r.value)
  {
    hide IsRun, BoundariesSpec, Cut, WindowOf;
    if p.interval.Some? {
      GenerateShape(p, first, now);
    }
  }

  /** The half-open range of nanosecond timestamps a query is bound to. */
  predicate InSpan(from: int, until: int, ns: int) {
    ToNano(from) <= ns < ToNano(until)
  }

  predicate InBucket(b: Buckets, j: int, ns: int)
    requires 0 <= j < |b.timestamps| - 1
  {
    InSpan(b.timestamps[j], b.timestamps[j + 1], ns)
  }

  predicate InRange(b: Buckets, ns: int)
    requires |b.timestamps| >= 2
  {
    InSpan(b.timestamps[0], b.timestamps[|b.timestamps| - 1], ns)
  }

  lemma {:induction false} RunByNumber(i: Interval, ts: seq<int>, j: nat)
    requires j < |ts| && IsRun(i, ts)
    ensures ts[j] == Edge(i, EdgeIndex(i, ts[0]) + j)
  {
    hide Edge, EdgeIndex, Truncate, Advance;
    if j == 0 {
      TruncateIsEdge(i, ts[0]);
    } else {
      RunByNumber(i, ts, j - 1);
      AdvanceIsNextEdge(i, EdgeIndex(i, ts[0]) + j - 1);
    }
  }

  /** Which seconds lie between two edges, by edge number. */
  lemma SpanOfEdges(i: Interval, a: int, b: int, ns: int)
    ensures InSpan(Edge(i, a), Edge(i, b), ns) <==> a <= EdgeIndex(i, ns / NANOS_PER_SECOND) < b
  {
    hide Edge, EdgeIndex;
    var s := ns / NANOS_PER_SECOND;
    var k := EdgeIndex(i, s);
    EdgeBrackets(i, s);
    EdgeOrder(i, a, k);
    EdgeOrder(i, k + 1, a);
    EdgeOrder(i, b, k);
    EdgeOrder(i, k + 1, b);
  }

  /** A row in range is grouped under the start of the one bucket that contains it. */
  lemma GroupKeyNamesItsBucket(b: Buckets, ns: int) returns (j: int)
    requires WellFormed(b) && ns >= 0 && InRange(b, ns)
    ensures 0 <= j < b.Count() && InBucket(b, j, ns) && GroupKey(b, ns) == b.timestamps[j]
    ensures forall h :: 0 <= h < b.Count() && (InBucket(b, h, ns) || GroupKey(b, ns) == b.timestamps[h]) ==> h == j
  {
    hide Edge, EdgeIndex, Truncate, GroupKey, IsRun, InSpan;
    var n := |b.timestamps|;
    if b.interval.None? {
      j := 0;
      assert GroupKey(b, ns) == b.timestamps[0] by { SingleSpanKey(b, ns); }
    } else {
      var i := b.interval.value;
      var k := EdgeIndex(i, b.timestamps[0]);
      forall h | 0 <= h < n ensures b.timestamps[h] == Edge(i, k + h) {
        RunByNumber(i, b.timestamps, h);
      }
      SpanOfEdges(i, k, k + n - 1, ns);
      j := EdgeIndex(i, ns / NANOS_PER_SECOND) - k;
      SpanOfEdges(i, k + j, k + j + 1, ns);
      GroupKeyIsTruncate(b, ns);
      TruncateIsEdge(i, ns / NANOS_PER_SECOND);
      forall h | 0 <= h < n - 1 && (InBucket(b, h, ns) || GroupKey(b, ns) == b.timestamps[h]) ensures h == j {
        SpanOfEdges(i, k + h, k + h + 1, ns);
        EdgeOrder(i, k + h, k + j);
        EdgeOrder(i, k + j, k + h);
      }
    }
  }

  lemma SingleSpanKey(b: Buckets, ns: int)
    requires |b.timestamps| >= 2 && b.interval.None?
    ensures GroupKey(b, ns) == b.timestamps[0]
  {
  }

  lemma {:induction false} TimestampsAscend(b: Buckets, i: nat, j: nat)
    requires WellFormed(b) && i < j < |b.timestamps|
    ensures b.interval.Some? ==> b.timestamps[i] < b.timestamps[j]
  {
    hide Edge, EdgeIndex, IsRun;
    if b.interval.Some? {
      var k := EdgeIndex(b.interval.value, b.timestamps[0]);
      RunByNumber(b.interval.value, b.timestamps, i);
      RunByNumber(b.interval.value, b.timestamps, j);
      EdgeOrder(b.interval.value, k + i, k + j);
    }
  }

  /** A row is selected and keyed to bucket `j` exactly when it lies in bucket `j`. */
  lemma KeyedIsInBucket(b: Buckets, j: nat, ns: int)
    requires WellFormed(b) && j < b.Count() && ns >= 0
    ensures InRange(b, ns) && GroupKey(b, ns) == b.timestamps[j] <==> InBucket(b, j, ns)
  {
    hide GroupKey, IsRun;
    if j > 0 {
      TimestampsAscend(b, 0, j);
    }
    if j + 1 < b.Count() {
      TimestampsAscend(b, j + 1, b.Count());
    }
    if InRange(b, ns) {
      var h := GroupKeyNamesItsBucket(b, ns);
    }
  }

  lemma StartsAreDistinct(b: Buckets, i: nat, j: nat)
    requires WellFormed(b) && i < j < b.Count()
    ensures b.timestamps[i] != b.timestamps[j]
  {
    hide IsRun;
    TimestampsAscend(b, i, j);
  }
}
