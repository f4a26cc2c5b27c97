/**
 The Unix-time formatter of the node's build script: seconds since 1970 to a civil UTC date and time
 by Hinnant's era algorithm, and then to a fixed-layout string.

 The reference is the Gregorian calendar itself: leap years, month lengths and "the next day".
 */
module CivilTime {

  datatype Date = Date(year: int, month: int, day: int)

  // ---------------------------------------------------------------- the algorithm

  // Rust's `/` on signed integers.
  function TruncDiv(a: int, b: int): int
    requires b > 0
  {
    if a >= 0 then a / b else -((-a) / b)
  }

  const DAYS_PER_ERA := 146_097

  function EraOf(z: int): (era: int)
    ensures 0 <= z - era * DAYS_PER_ERA < DAYS_PER_ERA
  {
    TruncDiv(if z >= 0 then z else z - 146_096, DAYS_PER_ERA)
  }

  /** Civil date of day number `days`, counted from 1970-01-01. */
  function CivilFromDays(days: int): Date {
    var z := days + 719_468;
    var era := EraOf(z);
    CivilFromEraDay(era, z - era * DAYS_PER_ERA)
  }

  function CivilFromEraDay(era: int, doe: int): Date
    requires 0 <= doe < DAYS_PER_ERA
  {
    var yoe := YearOfEra(doe);
    YearOfEraBounds(doe);
    CivilFromEra(era, yoe, doe - YearStart(yoe))
  }

  // Years run from March, so that the leap day comes last.
  function CivilFromEra(era: int, yoe: int, doy: int): Date
    requires 0 <= doy
  {
    var y := yoe + era * 400;
    var mp := (5 * doy + 2) / 153;
    var day := doy - (153 * mp + 2) / 5 + 1;
    var month := mp + if mp < 10 then 3 else -9;
    var year := y + if month <= 2 then 1 else 0;
    Date(year, month, day)
  }

  // From here on every operand is non-negative, so Rust's `/` is Euclidean.
  function YearOfEra(doe: int): int
    requires 0 <= doe < DAYS_PER_ERA
  {
    LeapFree(doe) / 365
  }

  // The day of the era with the leap days taken out, give or take the rounding Hinnant exploits.
  function LeapFree(doe: int): int
    requires 0 <= doe < DAYS_PER_ERA
  {
    doe - doe / 1_460 + doe / 36_524 - doe / 146_096
  }

  function YearStart(yoe: int): int
    requires 0 <= yoe
  {
    365 * yoe + yoe / 4 - yoe / 100
  }

  lemma LeapFreeIsMonotone(d1: int, d2: int)
    requires 0 <= d1 <= d2 < DAYS_PER_ERA
    ensures LeapFree(d1) <= LeapFree(d2)
  {
    assert d2 / 1_460 - d1 / 1_460 <= d2 - d1;
    assert d2 / 146_096 - d1 / 146_096 <= d2 / 36_524 - d1 / 36_524;
  }

  // Year `y` of the era is year `w` of its century `e`.
  lemma YearSplit(y: int, e: int, w: int)
    requires 0 <= e && 0 <= w < 100 && y == 100 * e + w
    ensures YearStart(y) == 36_524 * e + 365 * w + w / 4
  {
    assert y / 100 == e;
    assert y / 4 == 25 * e + w / 4;
  }

  lemma LeapFreeAtYearStart(y: int)
    requires 0 <= y <= 399
    ensures 0 <= YearStart(y) < DAYS_PER_ERA && LeapFree(YearStart(y)) >= 365 * y
  {
    var e, w := y / 100, y % 100;
    YearSplit(y, e, w);
    var d := YearStart(y);
    assert d / 36_524 == e;
    assert d / 1_460 <= 25 * e + w / 4;
  }

  lemma LeapFreeBeforeYearStart(y: int)
    requires 1 <= y <= 399
    ensures 0 < YearStart(y) < DAYS_PER_ERA && LeapFree(YearStart(y) - 1) < 365 * y
  {
    var e, w := y / 100, y % 100;
    YearSplit(y, e, w);
    var d := YearStart(y) - 1;
    if w == 0 {
      assert d / 36_524 == e - 1;
      assert d / 1_460 >= 25 * e - 1;
    } else {
      assert d / 36_524 == e;
      assert d / 1_460 >= 25 * e + w / 4;
    }
  }

  lemma YearOfEraBounds(doe: int)
    requires 0 <= doe < DAYS_PER_ERA
    ensures 0 <= YearOfEra(doe) <= 399
    ensures YearStart(YearOfEra(doe)) <= doe
    ensures YearOfEra(doe) < 399 ==> doe < YearStart(YearOfEra(doe) + 1)
  {
    LeapFreeIsMonotone(0, doe);
    LeapFreeIsMonotone(doe, DAYS_PER_ERA - 1);
    var y := YearOfEra(doe);
    if doe < YearStart(y) {
      LeapFreeBeforeYearStart(y);
      LeapFreeIsMonotone(doe, YearStart(y) - 1);
    }
    if y < 399 && YearStart(y + 1) <= doe {
      LeapFreeAtYearStart(y + 1);
      LeapFreeIsMonotone(YearStart(y + 1), doe);
    }
  }

  // ---------------------------------------------------------------- the calendar

  predicate IsLeap(year: int) {
    year % 4 == 0 && (year % 100 != 0 || year % 400 == 0)
  }

  function DaysInMonth(year: int, month: int): int {
    if month == 2 then (if IsLeap(year) then 29 else 28)
    else if month == 4 || month == 6 || month == 9 || month == 11 then 30
    else 31
  }

  predicate ValidDate(d: Date) {
    1 <= d.month <= 12 && 1 <= d.day <= DaysInMonth(d.year, d.month)
  }

  function NextDay(d: Date): Date {
    if d.day < DaysInMonth(d.year, d.month) then Date(d.year, d.month, d.day + 1)
    else if d.month < 12 then Date(d.year, d.month + 1, 1)
    else Date(d.year + 1, 1, 1)
  }

  // Days from 0000-01-01 to the first of January of `year`.
  function DaysBeforeYear(year: int): int {
    365 * year + (year + 3) / 4 - (year + 99) / 100 + (year + 399) / 400
  }

  function DaysBeforeMonth(year: int, month: int): int
    requires 1 <= month
    decreases month
  {
    if month == 1 then 0 else DaysBeforeMonth(year, month - 1) + DaysInMonth(year, month - 1)
  }

  // Days from 1970-01-01 to `d`.
  function DayNumber(d: Date): int
    requires 1 <= d.month
  {
    DaysBeforeYear(d.year) + DaysBeforeMonth(d.year, d.month) + d.day - 1 - 719_528
  }

  lemma Ceiling4(year: int)
    ensures (year + 3) / 4 == year / 4 + if year % 4 == 0 then 0 else 1
    ensures (year + 4) / 4 == year / 4 + 1
  {
    assert year == 4 * (year / 4) + year % 4;
  }

  lemma Ceiling100(year: int)
    ensures (year + 99) / 100 == year / 100 + if year % 100 == 0 then 0 else 1
    ensures (year + 100) / 100 == year / 100 + 1
  {
    assert year == 100 * (year / 100) + year % 100;
  }

  lemma Ceiling400(year: int)
    ensures (year + 399) / 400 == year / 400 + if year % 400 == 0 then 0 else 1
    ensures (year + 400) / 400 == year / 400 + 1
  {
    assert year == 400 * (year / 400) + year % 400;
  }

  lemma Divisibility(year: int)
    ensures year % 400 == 0 ==> year % 100 == 0
    ensures year % 100 == 0 ==> year % 4 == 0
  {}

  lemma YearLength(year: int)
    ensures DaysBeforeYear(year + 1) == DaysBeforeYear(year) + if IsLeap(year) then 366 else 365
  {
    Ceiling4(year);
    Ceiling100(year);
    Ceiling400(year);
    Divisibility(year);
  }

  lemma MonthStarts(year: int)
    ensures DaysBeforeMonth(year, 2) == 31
    ensures var k := if IsLeap(year) then 60 else 59;
            && DaysBeforeMonth(year, 3) == k
            && DaysBeforeMonth(year, 4) == k + 31
            && DaysBeforeMonth(year, 5) == k + 61
            && DaysBeforeMonth(year, 6) == k + 92
            && DaysBeforeMonth(year, 7) == k + 122
            && DaysBeforeMonth(year, 8) == k + 153
            && DaysBeforeMonth(year, 9) == k + 184
            && DaysBeforeMonth(year, 10) == k + 214
            && DaysBeforeMonth(year, 11) == k + 245
            && DaysBeforeMonth(year, 12) == k + 275
  {
    assert DaysBeforeMonth(year, 2) == 31;
    assert DaysBeforeMonth(year, 4) == DaysBeforeMonth(year, 3) + 31;
    assert DaysBeforeMonth(year, 6) == DaysBeforeMonth(year, 5) + 31;
    assert DaysBeforeMonth(year, 8) == DaysBeforeMonth(year, 7) + 31;
    assert DaysBeforeMonth(year, 10) == DaysBeforeMonth(year, 9) + 30;
    assert DaysBeforeMonth(year, 12) == DaysBeforeMonth(year, 11) + 30;
  }

  /** One day later in the calendar is one more in the count. */
  lemma NextDayCounts(d: Date)
    requires ValidDate(d)
    ensures ValidDate(NextDay(d)) && DayNumber(NextDay(d)) == DayNumber(d) + 1
  {
    if d.month == 12 {
      YearLength(d.year);
      MonthStarts(d.year);
    }
  }

  // ---------------------------------------------------------------- the algorithm is the calendar

  // The first of March of year `yoe` of an era, in both countings.
  lemma MarchFirst(era: int, yoe: int)
    requires 0 <= yoe <= 399
    ensures var y := yoe + era * 400;
            DaysBeforeYear(y) + (if IsLeap(y) then 60 else 59) == YearStart(yoe) + era * DAYS_PER_ERA + 60
  {
    var y := yoe + era * 400;
    assert y / 4 == yoe / 4 + 100 * era && y / 100 == yoe / 100 + 4 * era && y / 400 == era;
    Ceiling4(y);
    Ceiling100(y);
    Ceiling400(y);
    Divisibility(y);
  }

  lemma LeapRepeats(w: int, era: int)
    ensures IsLeap(w + era * 400) == IsLeap(w)
  {
    var y := w + era * 400;
    assert y / 4 == w / 4 + 100 * era;
    assert y / 100 == w / 100 + 4 * era;
    assert y / 400 == w / 400 + era;
  }

  lemma MarchYearLength(yoe: int)
    requires 0 <= yoe <= 399
    ensures YearStart(yoe + 1) == YearStart(yoe) + 365
      + (if (yoe + 1) % 4 == 0 then 1 else 0) - (if (yoe + 1) % 100 == 0 then 1 else 0)
  {
    var w := yoe + 1;
    assert w / 4 == (w - 1) / 4 + if w % 4 == 0 then 1 else 0;
    assert w / 100 == (w - 1) / 100 + if w % 100 == 0 then 1 else 0;
  }

  // A March year has 366 days only when the February in it is a leap one.
  lemma DayOfYearBounds(era: int, doe: int)
    requires 0 <= doe < DAYS_PER_ERA
    ensures var yoe := YearOfEra(doe);
            && 0 <= yoe <= 399
            && 0 <= doe - YearStart(yoe) < if IsLeap(yoe + era * 400 + 1) then 366 else 365
  {
    YearOfEraBounds(doe);
    var yoe := YearOfEra(doe);
    MarchYearLength(yoe);
    LeapRepeats(yoe + 1, era);
  }

  function MonthStart(mp: int): int
    requires 0 <= mp
  {
    (153 * mp + 2) / 5
  }

  lemma {:induction false} MonthStartIsCumulative(year: int, mp: int)
    requires 0 <= mp <= 9
    ensures DaysBeforeMonth(year, mp + 3) == MonthStart(mp) + if IsLeap(year) then 60 else 59
    ensures DaysInMonth(year, mp + 3) == MonthStart(mp + 1) - MonthStart(mp)
  {
    if mp == 0 {
      MonthStarts(year);
    } else {
      MonthStartIsCumulative(year, mp - 1);
    }
  }

  lemma MonthOfDay(doy: int)
    requires 0 <= doy < 366
    ensures var mp := (5 * doy + 2) / 153;
            0 <= mp <= 11 && MonthStart(mp) <= doy < MonthStart(mp + 1) && (mp <= 9 <==> doy < 306)
  {}

  lemma SpringToWinter(era: int, yoe: int, doy: int)
    requires 0 <= yoe <= 399 && 0 <= doy < 306
    ensures var d := CivilFromEra(era, yoe, doy);
            && ValidDate(d)
            && DayNumber(d) + 719_468 == era * DAYS_PER_ERA + YearStart(yoe) + doy
  {
    var mp := (5 * doy + 2) / 153;
    MonthOfDay(doy);
    MonthStartIsCumulative(yoe + era * 400, mp);
    MarchFirst(era, yoe);
  }

  lemma JanuaryFebruary(era: int, yoe: int, doy: int)
    requires 0 <= yoe <= 399
    requires 306 <= doy < if IsLeap(yoe + era * 400 + 1) then 366 else 365
    ensures var d := CivilFromEra(era, yoe, doy);
            && ValidDate(d)
            && DayNumber(d) + 719_468 == era * DAYS_PER_ERA + YearStart(yoe) + doy
  {
    var y := yoe + era * 400;
    MonthOfDay(doy);
    YearLength(y);
    MonthStarts(y + 1);
    MarchFirst(era, yoe);
  }

  lemma EraIsCorrect(era: int, doe: int)
    requires 0 <= doe < DAYS_PER_ERA
    ensures var d := CivilFromEraDay(era, doe);
            ValidDate(d) && DayNumber(d) + 719_468 == era * DAYS_PER_ERA + doe
  {
    DayOfYearBounds(era, doe);
    var yoe := YearOfEra(doe);
    if doe - YearStart(yoe) < 306 {
      SpringToWinter(era, yoe, doe - YearStart(yoe));
    } else {
      JanuaryFebruary(era, yoe, doe - YearStart(yoe));
    }
  }

  /** Every day number gets a valid Gregorian date, from which it can be recovered. */
  lemma CivilIsCorrect(days: int)
    ensures ValidDate(CivilFromDays(days))
    ensures DayNumber(CivilFromDays(days)) == days
  {
    var z := days + 719_468;
    EraIsCorrect(EraOf(z), z - EraOf(z) * DAYS_PER_ERA);
  }

  lemma {:induction false} YearsAreOrdered(y1: int, y2: int)
    requires y1 < y2
    ensures DaysBeforeYear(y1) + (if IsLeap(y1) then 366 else 365) <= DaysBeforeYear(y2)
    decreases y2 - y1
  {
    YearLength(y1);
    if y1 + 1 == y2 {
    } else {
      YearsAreOrdered(y1 + 1, y2);
    }
  }

  lemma {:induction false} MonthsAreOrdered(year: int, m1: int, m2: int)
    requires 1 <= m1 < m2
    ensures DaysBeforeMonth(year, m1) + DaysInMonth(year, m1) <= DaysBeforeMonth(year, m2)
    decreases m2 - m1
  {
    if m1 + 1 == m2 {
    } else {
      MonthsAreOrdered(year, m1 + 1, m2);
    }
  }

  predicate Before(d1: Date, d2: Date) {
    || d1.year < d2.year
    || (d1.year == d2.year && d1.month < d2.month)
    || (d1.year == d2.year && d1.month == d2.month && d1.day < d2.day)
  }

  /** Calendar order is the order of day numbers. */
  lemma DatesAreOrdered(d1: Date, d2: Date)
    requires ValidDate(d1) && ValidDate(d2)
    ensures Before(d1, d2) <==> DayNumber(d1) < DayNumber(d2)
  {
    if Before(d1, d2) { EarlierIsLess(d1, d2); }
    if Before(d2, d1) { EarlierIsLess(d2, d1); }
  }

  lemma EarlierIsLess(d1: Date, d2: Date)
    requires ValidDate(d1) && ValidDate(d2) && Before(d1, d2)
    ensures DayNumber(d1) < DayNumber(d2)
  {
    if d1.year < d2.year {
      YearsAreOrdered(d1.year, d2.year);
      MonthStarts(d1.year);
      if d1.month < 12 { MonthsAreOrdered(d1.year, d1.month, 12); }
      if 1 < d2.month { MonthsAreOrdered(d2.year, 1, d2.month); }
    } else if d1.month < d2.month {
      MonthsAreOrdered(d1.year, d1.month, d2.month);
    }
  }

  /** Every valid date is reached, from its own day number and no other. */
  lemma CivilIsOnto(d: Date)
    requires ValidDate(d)
    ensures CivilFromDays(DayNumber(d)) == d
  {
    var c := CivilFromDays(DayNumber(d));
    CivilIsCorrect(DayNumber(d));
    DatesAreOrdered(c, d);
    DatesAreOrdered(d, c);
  }

  /** The conversion steps through the calendar one day at a time. */
  lemma CivilFollowsTheCalendar(days: int)
    ensures CivilFromDays(days + 1) == NextDay(CivilFromDays(days))
  {
    var d := CivilFromDays(days);
    CivilIsCorrect(days);
    NextDayCounts(d);
    CivilIsOnto(NextDay(d));
  }

  /** ... starting from the Unix epoch. */
  lemma CivilEpoch()
    ensures CivilFromDays(0) == Date(1970, 1, 1)
  {
    var d := Date(1970, 1, 1);
    assert DayNumber(d) == 0;
    CivilIsOnto(d);
  }
}
