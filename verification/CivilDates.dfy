/**
 The closed-form calendar: the day count of `parse_rfc3339` (src/main.rs) and its inverse in
 `format_rfc3339_utc` (src/write/logical.rs), against the proleptic Gregorian calendar.
 */
module CivilDates {

  datatype Date = Date(year: int, month: int, day: int)

  predicate Leap(year: int) {
    year % 4 == 0 && (year % 100 != 0 || year % 400 == 0)
  }

  function MonthLength(year: int, month: int): int
  {
    if month == 2 then (if Leap(year) then 29 else 28)
    else if month == 4 || month == 6 || month == 9 || month == 11 then 30
    else 31
  }

  /** A date of the calendar. */
  predicate Valid(d: Date) {
    1 <= d.month <= 12 && 1 <= d.day <= MonthLength(d.year, d.month)
  }

  /** The day after. */
  function NextDay(d: Date): Date {
    if d.day < MonthLength(d.year, d.month) then d.(day := d.day + 1)
    else if d.month < 12 then Date(d.year, d.month + 1, 1)
    else Date(d.year + 1, 1, 1)
  }

  predicate Before(a: Date, b: Date) {
    || a.year < b.year
    || (a.year == b.year && (a.month < b.month || (a.month == b.month && a.day < b.day)))
  }

  /** Rust's integer division, which rounds toward zero. */
  function TruncDiv(a: int, b: int): int
    requires b > 0
  {
    if a >= 0 then a / b else -((-a) / b)
  }

  /** Rust's remainder, which takes the sign of the dividend. */
  function TruncMod(a: int, b: int): int
    requires b > 0
  {
    a - TruncDiv(a, b) * b
  }

  /** The reader's day count, 1970-01-01 being day 0. */
  function DaysOf(d: Date): int {
    var y := if d.month <= 2 then d.year - 1 else d.year;
    var era := TruncDiv(if y >= 0 then y else y - 399, 400);
    var yoe := y - era * 400;
    var mp := TruncMod(d.month + 9, 12);
    var doy := TruncDiv(153 * mp + 2, 5) + d.day - 1;
    var doe := yoe * 365 + TruncDiv(yoe, 4) - TruncDiv(yoe, 100) + doy;
    era * 146_097 + doe - 719_468
  }

  /** The writer's date of a day. `/` and `%` are Euclidean, as its `div_euclid` and `rem_euclid` are. */
  function CivilOf(days: int): Date {
    var z := days + 719_468;
    CivilInEra(z / 146_097, z % 146_097)
  }

  function CivilInEra(era: int, doe: int): Date {
    var yoe := (doe - doe / 1460 + doe / 36_524 - doe / 146_096) / 365;
    var y := yoe + era * 400;
    var doy := doe - (365 * yoe + yoe / 4 - yoe / 100);
    var mp := (5 * doy + 2) / 153;
    var d := doy - (153 * mp + 2) / 5 + 1;
    var m := if mp < 10 then mp + 3 else mp - 9;
    Date(if m <= 2 then y + 1 else y, m, d)
  }

  // ----- years that begin in March -----

  /** The day count of 1 March of year `y`. */
  function MarchFirst(y: int): int {
    365 * y + y / 4 - y / 100 + y / 400 - 719_468
  }

  /** Days from 1 March to the first of the month that comes `mp` months later. */
  function MonthStart(mp: int): int {
    (153 * mp + 2) / 5
  }

  function MarchYear(d: Date): int {
    if d.month <= 2 then d.year - 1 else d.year
  }

  function MarchMonth(month: int): int {
    if month <= 2 then month + 9 else month - 3
  }

  lemma EraIsFloor(y: int)
    ensures TruncDiv(if y >= 0 then y else y - 399, 400) == y / 400
  {
  }

  lemma CenturyForm(y: int)
    ensures var era, yoe := y / 400, y % 400;
      era * 146_097 + yoe * 365 + yoe / 4 - yoe / 100 - 719_468 == MarchFirst(y)
  {
    var era, yoe := y / 400, y % 400;
    assert y == 400 * era + yoe;
    assert y / 4 == 100 * era + yoe / 4;
    assert y / 100 == 4 * era + yoe / 100;
  }

  /** The closed form splits into the March year, the month and the day. */
  lemma DaysSplit(d: Date)
    requires 1 <= d.month <= 12
    ensures DaysOf(d) == MarchFirst(MarchYear(d)) + MonthStart(MarchMonth(d.month)) + d.day - 1
  {
    EraIsFloor(MarchYear(d));
    CenturyForm(MarchYear(d));
  }

  /** A March year has a leap day when the year it ends in is a leap year. */
  lemma MarchYearLength(y: int)
    ensures MarchFirst(y + 1) - MarchFirst(y) == if Leap(y + 1) then 366 else 365
  {
    assert (y + 1) / 4 - y / 4 == if (y + 1) % 4 == 0 then 1 else 0;
    assert (y + 1) / 100 - y / 100 == if (y + 1) % 100 == 0 then 1 else 0;
    assert (y + 1) / 400 - y / 400 == if (y + 1) % 400 == 0 then 1 else 0;
  }

  lemma MonthStep(year: int, month: int)
    requires 1 <= month <= 12 && month != 2
    ensures MonthStart(MarchMonth(if month == 12 then 1 else month + 1)) ==
      MonthStart(MarchMonth(month)) + MonthLength(year, month)
  {
  }

  // ----- the reader's count is the calendar -----

  lemma EpochIsDayZero()
    ensures DaysOf(Date(1970, 1, 1)) == 0
  {
    DaysSplit(Date(1970, 1, 1));
  }

  lemma SameMonth(d: Date)
    requires 1 <= d.month <= 12
    ensures DaysOf(d.(day := d.day + 1)) == DaysOf(d) + 1
  {
    DaysSplit(d);
    DaysSplit(d.(day := d.day + 1));
  }

  lemma FebruaryEnds(year: int)
    ensures DaysOf(Date(year, 3, 1)) == DaysOf(Date(year, 2, MonthLength(year, 2))) + 1
  {
    DaysSplit(Date(year, 3, 1));
    DaysSplit(Date(year, 2, MonthLength(year, 2)));
    MarchYearLength(year - 1);
  }

  lemma MonthEnds(year: int, month: int)
    requires 1 <= month <= 12 && month != 2
    ensures var next := if month == 12 then Date(year + 1, 1, 1) else Date(year, month + 1, 1);
      DaysOf(next) == DaysOf(Date(year, month, MonthLength(year, month))) + 1
  {
    var next := if month == 12 then Date(year + 1, 1, 1) else Date(year, month + 1, 1);
    DaysSplit(next);
    DaysSplit(Date(year, month, MonthLength(year, month)));
    MonthStep(year, month);
  }

  /** The day after any date, month ends, leap days, negative years and era boundaries included, counts one more. */
  lemma NextDayCountsOne(d: Date)
    requires Valid(d)
    ensures Valid(NextDay(d)) && DaysOf(NextDay(d)) == DaysOf(d) + 1
  {
    if d.day < MonthLength(d.year, d.month) {
      SameMonth(d);
    } else if d.month == 2 {
      FebruaryEnds(d.year);
    } else {
      MonthEnds(d.year, d.month);
    }
  }

  // ----- the writer's inverse -----

  /** A March year of the era by century, four-year cycle and year; only some have a 366th day. */
  predicate InEra(c: int, q: int, t: int, doy: int) {
    && 0 <= c < 4 && 0 <= q < 25 && 0 <= t < 4 && 0 <= doy <= 365
    && (doy == 365 ==> t == 3 && (q < 24 || c == 3))
  }

  function DayOfEra(c: int, q: int, t: int, doy: int): int {
    36_524 * c + 1461 * q + 365 * t + doy
  }

  lemma YearOfEra(c: int, q: int, t: int, doy: int)
    requires InEra(c, q, t, doy)
    ensures var doe := DayOfEra(c, q, t, doy);
      && 0 <= doe < 146_097
      && (doe - doe / 1460 + doe / 36_524 - doe / 146_096) / 365 == 100 * c + 4 * q + t
  {
    var doe := DayOfEra(c, q, t, doy);
    var last := if doe == 146_096 then 1 else 0;
    assert doe / 146_096 == last;
    assert doe / 36_524 == c + last;
    var over := if 24 * c + q + 365 * t + doy >= 1460 then 1 else 0;
    assert doe == 1460 * (25 * c + q) + 24 * c + q + 365 * t + doy;
    assert doe / 1460 == 25 * c + q + over;
    assert doe - doe / 1460 + c == 365 * (100 * c + 4 * q + t) + doy - over;
  }

  lemma YearDays(c: int, q: int, t: int)
    requires 0 <= c < 4 && 0 <= q < 25 && 0 <= t < 4
    ensures var yoe := 100 * c + 4 * q + t;
      && 0 <= yoe < 400
      && 365 * yoe + yoe / 4 - yoe / 100 == 36_524 * c + 1461 * q + 365 * t
      && (Leap(yoe + 1) <==> t == 3 && (q < 24 || c == 3))
  {
    var yoe := 100 * c + 4 * q + t;
    assert yoe / 4 == 25 * c + q;
    assert yoe / 100 == c;
    assert (yoe + 1) % 4 == 0 <==> t == 3;
    assert (yoe + 1) % 100 == 0 <==> t == 3 && q == 24;
    assert (yoe + 1) % 400 == 0 <==> t == 3 && q == 24 && c == 3;
  }

  /** Every day of an era belongs to one of its years. */
  lemma EraCovered(doe: int) returns (c: int, q: int, t: int, doy: int)
    requires 0 <= doe < 146_097
    ensures InEra(c, q, t, doy) && doe == DayOfEra(c, q, t, doy)
  {
    c := if doe < 3 * 36_524 then doe / 36_524 else 3;
    var inCentury := doe - 36_524 * c;
    q := inCentury / 1461;
    var inCycle := inCentury - 1461 * q;
    t := if inCycle < 3 * 365 then inCycle / 365 else 3;
    doy := inCycle - 365 * t;
  }

  lemma RemainderIs(x: int, m: int, q: int, r: int)
    requires m == 4 || m == 100 || m == 400
    requires 0 <= r < m && x == q * m + r
    ensures x / m == q && x % m == r
  {
    if m == 4 {
    } else if m == 100 {
    } else {
    }
  }

  lemma LeapPeriodic(year: int, era: int)
    ensures Leap(year + 400 * era) <==> Leap(year)
  {
    RemainderIs(year + 400 * era, 4, year / 4 + 100 * era, year % 4);
    RemainderIs(year + 400 * era, 100, year / 100 + 4 * era, year % 100);
    RemainderIs(year + 400 * era, 400, year / 400 + era, year % 400);
  }

  /** The month and day of a day within a March year. */
  lemma MonthOfYear(y: int, doy: int)
    requires 0 <= doy <= 365 && (doy == 365 ==> Leap(y + 1))
    ensures var mp := (5 * doy + 2) / 153;
      var m := if mp < 10 then mp + 3 else mp - 9;
      var d := Date(if m <= 2 then y + 1 else y, m, doy - (153 * mp + 2) / 5 + 1);
      Valid(d) && MarchMonth(m) == mp && MarchYear(d) == y && MonthStart(mp) + d.day - 1 == doy
  {
  }

  /** The writer's steps for a day of a known March year. */
  lemma CivilOfEra(era: int, c: int, q: int, t: int, doy: int)
    requires InEra(c, q, t, doy)
    ensures var yoe := 100 * c + 4 * q + t;
      var mp := (5 * doy + 2) / 153;
      var m := if mp < 10 then mp + 3 else mp - 9;
      var y := yoe + era * 400;
      CivilInEra(era, DayOfEra(c, q, t, doy))
        == Date(if m <= 2 then y + 1 else y, m, doy - (153 * mp + 2) / 5 + 1)
  {
    YearOfEra(c, q, t, doy);
    YearDays(c, q, t);
  }

  lemma MarchFirstOfEra(era: int, c: int, q: int, t: int)
    requires InEra(c, q, t, 0)
    ensures MarchFirst(100 * c + 4 * q + t + era * 400) == era * 146_097 + DayOfEra(c, q, t, 0) - 719_468
    ensures Leap(100 * c + 4 * q + t + era * 400 + 1) <==> t == 3 && (q < 24 || c == 3)
  {
    YearDays(c, q, t);
    var yoe := 100 * c + 4 * q + t;
    RemainderIs(yoe + era * 400, 400, era, yoe);
    CenturyForm(yoe + era * 400);
    LeapPeriodic(yoe + 1, era);
  }

  lemma EraInverse(era: int, c: int, q: int, t: int, doy: int)
    requires InEra(c, q, t, doy)
    ensures var doe := DayOfEra(c, q, t, doy);
      Valid(CivilInEra(era, doe)) && DaysOf(CivilInEra(era, doe)) == era * 146_097 + doe - 719_468
  {
    var d := CivilInEra(era, DayOfEra(c, q, t, doy));
    CivilOfEra(era, c, q, t, doy);
    MarchFirstOfEra(era, c, q, t);
    MonthOfYear(100 * c + 4 * q + t + era * 400, doy);
    DaysSplit(d);
    assert DaysOf(d) == MarchFirst(MarchYear(d)) + doy;
  }

  lemma DayInverse(era: int, doe: int)
    requires 0 <= doe < 146_097
    ensures Valid(CivilInEra(era, doe)) && DaysOf(CivilInEra(era, doe)) == era * 146_097 + doe - 719_468
  {
    var c, q, t, doy := EraCovered(doe);
    EraInverse(era, c, q, t, doy);
  }

  /** The writer's date of a day is a date of the calendar, and the reader counts it back to that day. */
  lemma CivilIsInverse(days: int)
    ensures Valid(CivilOf(days)) && DaysOf(CivilOf(days)) == days
  {
    DayInverse((days + 719_468) / 146_097, (days + 719_468) % 146_097);
  }

  lemma LaterYears(y: int, y': int)
    requires y < y'
    ensures MarchFirst(y) + 365 <= MarchFirst(y')
    ensures Leap(y + 1) ==> MarchFirst(y) + 366 <= MarchFirst(y')
    decreases y' - y
  {
    MarchYearLength(y);
    if y + 1 < y' {
      LaterYears(y + 1, y');
    }
  }

  lemma MarchMonthFits(d: Date)
    requires Valid(d)
    ensures var doy := MonthStart(MarchMonth(d.month)) + d.day - 1;
      0 <= doy < if Leap(MarchYear(d) + 1) then 366 else 365
  {
  }

  lemma LaterMonths(year: int, m: int, m': int)
    requires 1 <= m < m' <= 12 && (m' <= 2 || m > 2)
    ensures MonthStart(MarchMonth(m)) + MonthLength(year, m) <= MonthStart(MarchMonth(m'))
    decreases m' - m
  {
    MonthStep(year, m);
    if m + 1 < m' {
      LaterMonths(year, m + 1, m');
    }
  }

  lemma LaterInMarchYear(a: Date, b: Date)
    requires Valid(a) && Valid(b) && Before(a, b) && MarchYear(a) == MarchYear(b)
    ensures MonthStart(MarchMonth(a.month)) + a.day < MonthStart(MarchMonth(b.month)) + b.day
  {
    if a.year == b.year {
      if a.month < b.month {
        LaterMonths(a.year, a.month, b.month);
      }
    } else {
      assert a.month > 2 && b.month <= 2;
      if a.month < 12 {
        LaterMonths(a.year, a.month, 12);
      }
      MonthStep(a.year, 12);
    }
  }

  /** Later dates count higher. */
  lemma DaysIncrease(a: Date, b: Date)
    requires Valid(a) && Valid(b) && Before(a, b)
    ensures DaysOf(a) < DaysOf(b)
  {
    DaysSplit(a);
    DaysSplit(b);
    if MarchYear(a) == MarchYear(b) {
      LaterInMarchYear(a, b);
    } else {
      MarchMonthFits(a);
      MarchMonthFits(b);
      assert MarchYear(a) < MarchYear(b);
      LaterYears(MarchYear(a), MarchYear(b));
    }
  }

  /**
   Reading a date and writing it back gives the date exactly when it is one of the calendar. The reader does not
   check, so 30 February is read as a day of March.
   */
  lemma ReadAsWrittenExactlyWhenValid(d: Date)
    ensures CivilOf(DaysOf(d)) == d <==> Valid(d)
  {
    var back := CivilOf(DaysOf(d));
    CivilIsInverse(DaysOf(d));
    if Valid(d) {
      if Before(back, d) {
        DaysIncrease(back, d);
      } else if Before(d, back) {
        DaysIncrease(d, back);
      }
    }
  }
}
