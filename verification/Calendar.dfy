/** Gregorian calendar arithmetic: the closed formulas the bucket code uses, against a calendar
    that is stepped one day at a time from 1970-01-01. */
module Calendar {

  const SECONDS_PER_DAY: int := 86_400

  datatype Date = Date(year: int, month: int, day: int)

  // ---- the reference calendar (section 5.7 and Appendix C of RFC 3339) ----

  predicate IsLeap(year: int) {
    year % 4 == 0 && (year % 100 != 0 || year % 400 == 0)
  }

  function DaysInMonth(year: int, month: int): int {
    if month == 2 then (if IsLeap(year) then 29 else 28)
    else if month == 4 || month == 6 || month == 9 || month == 11 then 30
    else 31
  }

  predicate IsValid(d: Date) {
    1 <= d.month <= 12 && 1 <= d.day <= DaysInMonth(d.year, d.month)
  }

  function NextDay(d: Date): Date {
    if d.day < DaysInMonth(d.year, d.month) then Date(d.year, d.month, d.day + 1)
    else if d.month < 12 then Date(d.year, d.month + 1, 1)
    else Date(d.year + 1, 1, 1)
  }

  function PreviousDay(d: Date): Date {
    if d.day > 1 then Date(d.year, d.month, d.day - 1)
    else if d.month > 1 then Date(d.year, d.month - 1, DaysInMonth(d.year, d.month - 1))
    else Date(d.year - 1, 12, 31)
  }

  /** The date `n` days after 1970-01-01 (before it when `n` is negative), one day at a time. */
  function SteppedDate(n: int): Date
    decreases if n < 0 then -n else n
  {
    if n == 0 then Date(1970, 1, 1)
    else if n > 0 then NextDay(SteppedDate(n - 1))
    else PreviousDay(SteppedDate(n + 1))
  }

  // ---- the formulas of the program ----

  function CivilFromEpochSeconds(seconds: int): Date {
    CivilFromDays(seconds / SECONDS_PER_DAY)
  }

  function YearOfEra(doe: int): int {
    (doe - doe / 1_460 + doe / 36_524 - doe / 146_096) / 365
  }

  function CivilFromDays(days: int): Date {
    var z := days + 719_468;
    DateInEra(z / 146_097, z % 146_097)
  }

  function DateInEra(era: int, doe: int): Date {
    var yoe := YearOfEra(doe);
    var y := yoe + era * 400;
    var doy := doe - (365 * yoe + yoe / 4 - yoe / 100);
    DateInMarchYear(y, doy)
  }

  /** Day `doy` of the year that starts on 1 March of year `y`. */
  function DateInMarchYear(y: int, doy: int): Date {
    var mp := (5 * doy + 2) / 153;
    var d := doy - (153 * mp + 2) / 5 + 1;
    var m := if mp < 10 then mp + 3 else mp - 9;
    Date(if m <= 2 then y + 1 else y, m, d)
  }

  function DaysFromCivil(year: int, month: int, day: int): int {
    var y := if month <= 2 then year - 1 else year;
    var era := y / 400;
    var yoe := y - era * 400;
    var mp := if month > 2 then month - 3 else month + 9;
    var doy := (153 * mp + 2) / 5 + day - 1;
    var doe := yoe * 365 + yoe / 4 - yoe / 100 + doy;
    era * 146_097 + doe - 719_468
  }

  function EpochSecondsFromCivil(year: int, month: int, day: int): int {
    DaysFromCivil(year, month, day) * SECONDS_PER_DAY
  }

  // ---- the formulas agree with the reference ----

  /** Day `doe` of a 400-year era lies in year `YearOfEra(doe)`, counted from March. */
  lemma YearOfEraBrackets(doe: int) returns (yoe: int, doy: int)
    requires 0 <= doe < 146_097
    ensures yoe == YearOfEra(doe) && doy == doe - (365 * yoe + yoe / 4 - yoe / 100)
    ensures 0 <= yoe < 400 && 0 <= doy <= 365
    ensures doy == 365 ==> IsLeap(yoe + 1)
  {
    var c := if doe == 146_096 then 3 else doe / 36_524;
    var inCentury := doe - 36_524 * c;
    var a := inCentury / 1_461;
    var inCycle := inCentury - 1_461 * a;
    var b := if inCycle == 1_460 then 3 else inCycle / 365;
    var t := inCycle - 365 * b;
    assert 0 <= c <= 3 && 0 <= a <= 24 && 0 <= b <= 3 && 0 <= t <= 365;
    assert t == 365 ==> b == 3;
    yoe := 100 * c + 4 * a + b;
    doy := t;
    hide IsLeap;
    var e := if 24 * c + a + 365 * b + t >= 1_460 then 1 else 0;
    assert doe == 1_460 * (25 * c + a) + (24 * c + a + 365 * b + t);
    assert doe / 1_460 == 25 * c + a + e;
    assert doe == 36_524 * c + (1_461 * a + 365 * b + t);
    assert yoe / 4 == 25 * c + a;
    assert yoe / 100 == c;
    assert doe - doe / 1_460 + doe / 36_524 - doe / 146_096 == 365 * yoe + t - e;
    if t == 365 {
      assert IsLeap(yoe + 1) by { LastYearOfCycleIsLeap(c, a); }
    }
  }

  lemma LastYearOfCycleIsLeap(c: int, a: int)
    requires 0 <= c <= 3 && 0 <= a <= 24 && (a == 24 ==> c == 3)
    ensures IsLeap(100 * c + 4 * a + 3 + 1)
  {
    Quotient(100 * c + 4 * a + 4, 4, 25 * c + a + 1, 0);
    if a < 24 {
      Quotient(100 * c + 4 * a + 4, 100, c, 4 * a + 4);
    }
  }

  function MarchYear(d: Date): int {
    if d.month <= 2 then d.year - 1 else d.year
  }

  function MonthFromMarch(month: int): int {
    if month > 2 then month - 3 else month + 9
  }

  /** Days before March-based year `y`, without eras. */
  function YearStart(y: int): int {
    365 * y + y / 4 - y / 100 + y / 400
  }

  lemma YearStartByEra(era: int, yoe: int)
    requires 0 <= yoe < 400
    ensures YearStart(era * 400 + yoe) == era * 146_097 + yoe * 365 + yoe / 4 - yoe / 100
  {
    assert (era * 400 + yoe) / 4 == era * 100 + yoe / 4;
    assert (era * 400 + yoe) / 100 == era * 4 + yoe / 100;
    assert (era * 400 + yoe) / 400 == era;
  }

  lemma DaysByYearStart(year: int, month: int, day: int)
    ensures DaysFromCivil(year, month, day)
         == YearStart(MarchYear(Date(year, month, day))) + (153 * MonthFromMarch(month) + 2) / 5 + day - 1 - 719_468
  {
    var y := if month <= 2 then year - 1 else year;
    YearStartByEra(y / 400, y % 400);
  }

  /** Inverting the month formula inside a year counted from March. */
  lemma DateInMarchYearIsValid(y: int, doy: int)
    requires 0 <= doy <= 365 && (doy == 365 ==> IsLeap(y + 1))
    ensures var d := DateInMarchYear(y, doy);
            IsValid(d) && DaysFromCivil(d.year, d.month, d.day) == YearStart(y) + doy - 719_468
  {
    var d := DateInMarchYear(y, doy);
    DaysByYearStart(d.year, d.month, d.day);
    hide DaysFromCivil, YearStart, IsLeap;
  }

  lemma DateInEraIsValid(era: int, doe: int)
    requires 0 <= doe < 146_097
    ensures var d := DateInEra(era, doe);
            IsValid(d) && DaysFromCivil(d.year, d.month, d.day) == era * 146_097 + doe - 719_468
  {
    hide DaysFromCivil, YearStart, IsLeap, YearOfEra, DateInMarchYear, IsValid;
    var yoe, doy := YearOfEraBrackets(doe);
    var y := yoe + era * 400;
    assert doy == 365 ==> IsLeap(y + 1) by { LeapByEra(era, yoe + 1); }
    assert YearStart(y) + doy == era * 146_097 + doe by { YearStartByEra(era, yoe); }
    DateInMarchYearIsValid(y, doy);
  }

  /** `CivilFromDays` returns a real calendar date, and `DaysFromCivil` undoes it. */
  lemma CivilIsValid(n: int)
    ensures IsValid(CivilFromDays(n))
    ensures var d := CivilFromDays(n); DaysFromCivil(d.year, d.month, d.day) == n
  {
    hide DaysFromCivil, DateInEra;
    DateInEraIsValid((n + 719_468) / 146_097, (n + 719_468) % 146_097);
  }

  lemma LeapByEra(era: int, yoe: int)
    ensures IsLeap(yoe + era * 400) == IsLeap(yoe)
  {
    var y := yoe + era * 400;
    Quotient(y, 4, yoe / 4 + era * 100, yoe % 4);
    Quotient(y, 100, yoe / 100 + era * 4, yoe % 100);
    Quotient(y, 400, yoe / 400 + era, yoe % 400);
  }

  /** Division is the only way to split `n` into a multiple of `d` and a remainder below `d`. */
  lemma Quotient(n: int, d: int, q: int, r: int)
    requires d > 0 && n == q * d + r && 0 <= r < d
    ensures n / d == q && n % d == r
  {
    var p, s := n / d, n % d;
    assert n == p * d + s;
    assert (q - p) * d == s - r;
    assert (p - q) * d == r - s;
    if q > p {
      MultipleAtLeast(q - p, d);
    }
    if q < p {
      MultipleAtLeast(p - q, d);
    }
  }

  lemma MultipleAtLeast(k: int, d: int)
    requires k >= 1 && d > 0
    ensures k * d >= d
  {
  }

  /** `n / d` steps up exactly when `n + 1` is a multiple of `d`. */
  lemma DivNext(n: int, d: int)
    requires d > 1
    ensures (n + 1) / d == n / d + if (n + 1) % d == 0 then 1 else 0
  {
    if n % d == d - 1 {
      Quotient(n + 1, d, n / d + 1, 0);
    } else {
      Quotient(n + 1, d, n / d, n % d + 1);
    }
  }

  lemma LeapIsNested(y: int)
    ensures y % 400 == 0 ==> y % 100 == 0
    ensures y % 100 == 0 ==> y % 4 == 0
  {
    if y % 400 == 0 {
      Quotient(y, 100, y / 400 * 4, 0);
    }
    if y % 100 == 0 {
      Quotient(y, 4, y / 100 * 25, 0);
    }
  }

  lemma YearStartNext(y: int)
    ensures YearStart(y + 1) - YearStart(y) == if IsLeap(y + 1) then 366 else 365
  {
    DivNext(y, 4);
    DivNext(y, 100);
    DivNext(y, 400);
    LeapIsNested(y + 1);
  }

  /** Stepping one day forward adds one to the day number. */
  lemma DaysFromNextDay(d: Date)
    requires IsValid(d)
    ensures IsValid(NextDay(d)) && PreviousDay(NextDay(d)) == d
    ensures var e := NextDay(d); DaysFromCivil(e.year, e.month, e.day) == DaysFromCivil(d.year, d.month, d.day) + 1
  {
    var e := NextDay(d);
    DaysByYearStart(d.year, d.month, d.day);
    DaysByYearStart(e.year, e.month, e.day);
    hide DaysFromCivil, YearStart;
    if d.month == 2 {
      YearStartNext(d.year - 1);
      hide IsLeap;
    } else {
      hide IsLeap;
    }
  }

  lemma DaysFromPreviousDay(d: Date)
    requires IsValid(d)
    ensures IsValid(PreviousDay(d)) && NextDay(PreviousDay(d)) == d
  {
  }

  lemma EpochIsValid()
    ensures IsValid(Date(1970, 1, 1)) && DaysFromCivil(1970, 1, 1) == 0
  {
  }

  lemma {:induction false} SteppedDateIsValid(n: int)
    ensures IsValid(SteppedDate(n))
    ensures var d := SteppedDate(n); DaysFromCivil(d.year, d.month, d.day) == n
    decreases if n < 0 then -n else n
  {
    hide DaysFromCivil, IsValid, NextDay, PreviousDay;
    if n == 0 {
      EpochIsValid();
    } else if n > 0 {
      SteppedDateIsValid(n - 1);
      DaysFromNextDay(SteppedDate(n - 1));
    } else {
      SteppedDateIsValid(n + 1);
      DaysFromPreviousDay(SteppedDate(n + 1));
      DaysFromNextDay(SteppedDate(n));
    }
  }

  /** A valid date falls inside its March-based year. */
  lemma DayInsideYear(d: Date)
    requires IsValid(d)
    ensures YearStart(MarchYear(d)) <= DaysFromCivil(d.year, d.month, d.day) + 719_468 < YearStart(MarchYear(d) + 1)
  {
    DaysByYearStart(d.year, d.month, d.day);
    YearStartNext(MarchYear(d));
    hide DaysFromCivil, YearStart;
    if d.month != 2 {
      hide IsLeap;
    }
  }

  lemma YearStartGrows(y: int, z: int)
    requires y <= z
    ensures YearStart(y) <= YearStart(z)
  {
  }

  lemma DayInsideMonth(d: Date)
    requires IsValid(d)
    ensures var mp := MonthFromMarch(d.month);
            0 <= mp <= 11 && d.day <= (153 * (mp + 1) + 2) / 5 - (153 * mp + 2) / 5
  {
    hide IsLeap;
  }

  lemma MonthOffsetGrows(mp: int, mq: int)
    requires 0 <= mp <= mq <= 12
    ensures (153 * mp + 2) / 5 <= (153 * mq + 2) / 5
  {
  }

  /** Dates with the same day number lie in the same year, counted from March. */
  lemma SameMarchYear(d: Date, e: Date)
    requires IsValid(d) && IsValid(e)
    ensures DaysFromCivil(d.year, d.month, d.day) == DaysFromCivil(e.year, e.month, e.day)
        ==> MarchYear(d) >= MarchYear(e)
  {
    DayInsideYear(d);
    DayInsideYear(e);
    hide *;
    if MarchYear(d) < MarchYear(e) {
      YearStartGrows(MarchYear(d) + 1, MarchYear(e));
    }
  }

  lemma DaysFromCivilInjective(d: Date, e: Date)
    requires IsValid(d) && IsValid(e)
    ensures DaysFromCivil(d.year, d.month, d.day) == DaysFromCivil(e.year, e.month, e.day) ==> d == e
  {
    hide DaysFromCivil, DaysInMonth, MonthFromMarch;
    if DaysFromCivil(d.year, d.month, d.day) == DaysFromCivil(e.year, e.month, e.day) {
      SameMarchYear(d, e);
      SameMarchYear(e, d);
      DayInsideMonth(d);
      DayInsideMonth(e);
      SameDayOfYear(d, e);
      SameMonthOffset(MonthFromMarch(d.month), MonthFromMarch(e.month), d.day, e.day);
      MonthFromMarchInjective(d.month, e.month);
    }
  }

  lemma SameDayOfYear(d: Date, e: Date)
    requires DaysFromCivil(d.year, d.month, d.day) == DaysFromCivil(e.year, e.month, e.day)
    requires MarchYear(d) == MarchYear(e)
    ensures (153 * MonthFromMarch(d.month) + 2) / 5 + d.day == (153 * MonthFromMarch(e.month) + 2) / 5 + e.day
  {
    DaysByYearStart(d.year, d.month, d.day);
    DaysByYearStart(e.year, e.month, e.day);
    hide DaysFromCivil, YearStart, MonthFromMarch;
    assert MarchYear(Date(d.year, d.month, d.day)) == MarchYear(d);
  }

  lemma SameMonthOffset(mp: int, mq: int, day: int, other: int)
    requires 0 <= mp <= 11 && 1 <= day <= (153 * (mp + 1) + 2) / 5 - (153 * mp + 2) / 5
    requires 0 <= mq <= 11 && 1 <= other <= (153 * (mq + 1) + 2) / 5 - (153 * mq + 2) / 5
    requires (153 * mp + 2) / 5 + day == (153 * mq + 2) / 5 + other
    ensures mp == mq && day == other
  {
    if mp < mq {
      MonthOffsetGrows(mp + 1, mq);
    }
    if mq < mp {
      MonthOffsetGrows(mq + 1, mp);
    }
  }

  lemma MonthFromMarchInjective(m: int, n: int)
    requires 1 <= m <= 12 && 1 <= n <= 12 && MonthFromMarch(m) == MonthFromMarch(n)
    ensures m == n
  {
  }

  // ---- main results ----

  /** The closed formula is the calendar stepped day by day, for every day, before 1970 too. */
  lemma CivilIsSteppedDate(n: int)
    ensures CivilFromDays(n) == SteppedDate(n)
  {
    CivilIsValid(n);
    SteppedDateIsValid(n);
    DaysFromCivilInjective(CivilFromDays(n), SteppedDate(n));
  }

  /** `EpochSecondsFromCivil` gives midnight of the date `CivilFromEpochSeconds` reports. */
  lemma EpochOfCivil(s: int)
    ensures var d := CivilFromEpochSeconds(s);
            IsValid(d) && EpochSecondsFromCivil(d.year, d.month, d.day) == s - s % SECONDS_PER_DAY
  {
    CivilIsValid(s / SECONDS_PER_DAY);
  }

  /** Every second of a valid date, in any year, is read back as that date. */
  lemma CivilOfEpoch(d: Date, second: int)
    requires IsValid(d) && 0 <= second < SECONDS_PER_DAY
    ensures CivilFromEpochSeconds(EpochSecondsFromCivil(d.year, d.month, d.day) + second) == d
  {
    var n := DaysFromCivil(d.year, d.month, d.day);
    CivilIsValid(n);
    hide DaysFromCivil, CivilFromDays;
    assert (n * SECONDS_PER_DAY + second) / SECONDS_PER_DAY == n;
    DaysFromCivilInjective(CivilFromDays(n), d);
  }
}
