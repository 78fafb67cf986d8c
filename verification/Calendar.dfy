/** Dates as the repeat engine uses them: UTC midnights, held as whole days since 1 January 1970. */
module Calendar {
  import GoInt

  type Date = int

  datatype Civil = Civil(year: int, month: int, day: int)

  const EPOCH_LEAP_DAYS := 477

  predicate IsLeap(year: int) {
    year % 4 == 0 && (year % 100 != 0 || year % 400 == 0)
  }

  /** The length of a month counted from January of year 0. */
  function MonthLength(month: int): (n: int)
    ensures 28 <= n <= 31
  {
    match month % 12
    case 1 => if IsLeap(month / 12) then 29 else 28
    case 3 => 30
    case 5 => 30
    case 8 => 30
    case 10 => 30
    case _ => 31
  }

  /** Leap days in the years up to and including this one, counted from year 1. */
  function LeapDays(year: int): int {
    year / 4 - year / 100 + year / 400
  }

  function YearStart(year: int): Date {
    365 * (year - 1970) + LeapDays(year - 1) - EPOCH_LEAP_DAYS
  }

  function DaysBeforeMonth(leap: bool, month: int): int
    requires 0 <= month <= 12
  {
    var march := if leap then 60 else 59;
    if month == 0 then 0 else if month == 1 then 31 else if month == 2 then march
    else if month == 3 then march + 31 else if month == 4 then march + 61
    else if month == 5 then march + 92 else if month == 6 then march + 122
    else if month == 7 then march + 153 else if month == 8 then march + 184
    else if month == 9 then march + 214 else if month == 10 then march + 245
    else if month == 11 then march + 275 else march + 306
  }

  function MonthStart(month: int): Date {
    YearStart(month / 12) + DaysBeforeMonth(IsLeap(month / 12), month % 12)
  }

  lemma LeapDaysStep(year: int)
    ensures LeapDays(year) == LeapDays(year - 1) + if IsLeap(year) then 1 else 0
  {
    GoInt.DivBelow(year, 4);
    GoInt.DivBelow(year, 100);
    GoInt.DivBelow(year, 400);
    if year % 400 == 0 {
      GoInt.EuclidUnique(year, 100, 4 * (year / 400), 0);
    }
    if year % 100 == 0 {
      GoInt.EuclidUnique(year, 4, 25 * (year / 100), 0);
    }
  }

  lemma YearLength(year: int)
    ensures YearStart(year + 1) == YearStart(year) + DaysBeforeMonth(IsLeap(year), 12)
  {
    LeapDaysStep(year);
    hide LeapDays, IsLeap;
  }

  /** Months follow one another with no gap, each as long as MonthLength says. */
  lemma MonthStartStep(month: int)
    ensures MonthStart(month + 1) == MonthStart(month) + MonthLength(month)
  {
    var y, m := month / 12, month % 12;
    if m == 11 {
      YearLength(y);
      assert (month + 1) / 12 == y + 1 && (month + 1) % 12 == 0;
    } else {
      assert (month + 1) / 12 == y && (month + 1) % 12 == m + 1;
    }
  }

  lemma {:induction false} MonthStartMonotone(a: int, b: int)
    requires a < b
    ensures MonthStart(a) + MonthLength(a) <= MonthStart(b)
    ensures MonthStart(b) >= MonthStart(a) + 28 * (b - a)
    decreases b - a
  {
    MonthStartStep(b - 1);
    if a < b - 1 {
      MonthStartMonotone(a, b - 1);
    }
  }

  function YearOf(d: Date): (year: int)
    ensures YearStart(year) <= d < YearStart(year + 1)
  {
    var guess := 1970 + d * 400 / 146097;
    if d < YearStart(guess) then guess - 1
    else if d >= YearStart(guess + 1) then guess + 1
    else guess
  }

  function MonthWithinYear(leap: bool, k: int): (m: int)
    requires 0 <= k < DaysBeforeMonth(leap, 12)
    ensures 0 <= m < 12 && DaysBeforeMonth(leap, m) <= k < DaysBeforeMonth(leap, m + 1)
  {
    var march := if leap then 60 else 59;
    if k < 31 then 0 else if k < march then 1 else if k < march + 31 then 2
    else if k < march + 61 then 3 else if k < march + 92 then 4 else if k < march + 122 then 5
    else if k < march + 153 then 6 else if k < march + 184 then 7 else if k < march + 214 then 8
    else if k < march + 245 then 9 else if k < march + 275 then 10 else 11
  }

  /** A date's month, counted from January of year 0. */
  function MonthOf(d: Date): (month: int)
    ensures MonthStart(month) <= d < MonthStart(month) + MonthLength(month)
  {
    var y := YearOf(d);
    YearLength(y);
    var m := MonthWithinYear(IsLeap(y), d - YearStart(y));
    var month := 12 * y + m;
    assert month / 12 == y && month % 12 == m;
    month
  }

  lemma MonthOfUnique(d: Date, month: int)
    requires MonthStart(month) <= d < MonthStart(month) + MonthLength(month)
    ensures MonthOf(d) == month
  {
    if MonthOf(d) < month {
      MonthStartMonotone(MonthOf(d), month);
    } else if month < MonthOf(d) {
      MonthStartMonotone(month, MonthOf(d));
    }
  }

  lemma MonthOfMonotone(a: Date, b: Date)
    requires a <= b
    ensures MonthOf(a) <= MonthOf(b)
  {
    if MonthOf(b) < MonthOf(a) {
      MonthStartMonotone(MonthOf(b), MonthOf(a));
    }
  }

  function Year(d: Date): int { MonthOf(d) / 12 }

  function Month(d: Date): int { MonthOf(d) % 12 + 1 }

  function Day(d: Date): int { d - MonthStart(MonthOf(d)) + 1 }

  /** Days of the week number from Sunday as 0; 1 January 1970 was a Thursday. */
  function Weekday(d: Date): (w: int)
    ensures 0 <= w < 7
  {
    (d + 4) % 7
  }

  function ToCivil(d: Date): Civil {
    Civil(Year(d), Month(d), Day(d))
  }

  predicate ValidCivil(c: Civil) {
    1 <= c.month <= 12 && 1 <= c.day <= MonthLength(12 * c.year + c.month - 1)
  }

  /** time.Date at midnight: out-of-range months and days carry into the next unit. */
  function CivilDate(year: int, month: int, day: int): Date {
    MonthStart(12 * year + month - 1) + day - 1
  }

  /** The calendar stated as an odometer, with no day counting. */
  function NextDay(c: Civil): Civil {
    if c.day < MonthLength(12 * c.year + c.month - 1) then c.(day := c.day + 1)
    else if c.month < 12 then Civil(c.year, c.month + 1, 1)
    else Civil(c.year + 1, 1, 1)
  }

  lemma MonthSplit(d: Date)
    ensures 12 * Year(d) + Month(d) - 1 == MonthOf(d)
  {
  }

  /** Reading a date's fields and rebuilding it gives the date back, and the fields are a real date. */
  lemma CivilOfDate(d: Date)
    ensures ValidCivil(ToCivil(d))
    ensures CivilDate(Year(d), Month(d), Day(d)) == d
  {
    MonthSplit(d);
    hide MonthOf, MonthStart, MonthLength;
  }

  /** Every real year, month and day is the fields of the date built from it. */
  lemma DateOfCivil(c: Civil)
    requires ValidCivil(c)
    ensures ToCivil(CivilDate(c.year, c.month, c.day)) == c
  {
    hide MonthOf, MonthStart, MonthLength;
    var month := 12 * c.year + c.month - 1;
    MonthOfUnique(CivilDate(c.year, c.month, c.day), month);
    GoInt.EuclidUnique(month, 12, c.year, c.month - 1);
  }

  lemma NextMonthFields(month: int)
    ensures if month % 12 == 11 then (month + 1) / 12 == month / 12 + 1 && (month + 1) % 12 == 0
            else (month + 1) / 12 == month / 12 && (month + 1) % 12 == month % 12 + 1
  {
  }

  lemma EpochMonth()
    ensures MonthStart(23640) == 0 && 23640 / 12 == 1970 && 23640 % 12 == 0
  {
    assert LeapDays(1969) == EPOCH_LEAP_DAYS;
  }

  lemma EpochDay()
    ensures ToCivil(0) == Civil(1970, 1, 1) && Weekday(0) == 4
  {
    EpochMonth();
    hide MonthOf, MonthStart, MonthLength;
    MonthOfUnique(0, 23640);
  }

  /** The day count turns the civil odometer by one each day and starts at Thursday 1 January 1970. */
  lemma DaysFollowOdometer(d: Date)
    ensures ToCivil(d + 1) == NextDay(ToCivil(d))
    ensures ToCivil(0) == Civil(1970, 1, 1) && Weekday(0) == 4
    ensures Weekday(d + 1) == (Weekday(d) + 1) % 7
  {
    EpochDay();
    hide MonthOf, MonthStart, MonthLength;
    var m := MonthOf(d);
    MonthSplit(d);
    if Day(d) < MonthLength(m) {
      MonthOfUnique(d + 1, m);
    } else {
      MonthStartStep(m);
      MonthOfUnique(d + 1, m + 1);
      NextMonthFields(m);
    }
  }

  /** AddDate(0, 0, n): the day field moves and the carry is normalised. */
  function AddDays(d: Date, n: int): (r: Date)
    ensures r == d + n
  {
    MonthSplit(d);
    hide MonthOf, MonthStart;
    CivilDate(Year(d), Month(d), Day(d) + n)
  }

  lemma LastDayOfMonth(month: int)
    ensures MonthOf(MonthStart(month + 1) - 1) == month
    ensures Day(MonthStart(month + 1) - 1) == MonthLength(month)
  {
    MonthStartStep(month);
    MonthOfUnique(MonthStart(month + 1) - 1, month);
  }

  lemma DayZero(year: int, month: int)
    ensures CivilDate(year, month + 1, 0) == MonthStart(12 * year + month - 1 + 1) - 1
  {
    hide MonthStart;
  }

  /** time.Date(year, month+1, 0).Day(). */
  function DaysInMonth(year: int, month: int): (n: int)
    ensures n == MonthLength(12 * year + month - 1)
  {
    hide Day, MonthLength, CivilDate, MonthStart;
    DayZero(year, month);
    LastDayOfMonth(12 * year + month - 1);
    Day(CivilDate(year, month + 1, 0))
  }

  /** Unix seconds apart, divided down to days. */
  function DaysBetween(a: Date, b: Date): (n: int)
    ensures n == b - a
  {
    GoInt.Div(86400 * b - 86400 * a, 86400)
  }

  /** The lengths of the Gregorian months. */
  lemma GregorianMonths(year: int, month: int)
    requires 1 <= month <= 12
    ensures DaysInMonth(year, month) ==
            if month == 2 then (if year % 400 == 0 || (year % 4 == 0 && year % 100 != 0) then 29 else 28)
            else if month in {4, 6, 9, 11} then 30 else 31
  {
    hide DaysInMonth, IsLeap;
    GoInt.EuclidUnique(12 * year + month - 1, 12, year, month - 1);
    LeapMeans(year);
  }

  lemma LeapMeans(year: int)
    ensures IsLeap(year) <==> year % 400 == 0 || (year % 4 == 0 && year % 100 != 0)
  {
    if year % 400 == 0 {
      GoInt.EuclidUnique(year, 4, 100 * (year / 400), 0);
    }
  }
}
