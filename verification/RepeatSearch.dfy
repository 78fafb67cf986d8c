/** Finding a schedule's next date: bounded scans proved against the dates that belong to the schedule. */
module RepeatSearch {
  import opened Calendar
  import opened RepeatRules
  import opened Wrappers
  import GoInt

  // ----- Phase arithmetic -----

  /** The next position after x that is a whole number of intervals from the anchor. */
  function NextInPhase(x: int, anchor: int, n: int): (k: int)
    requires n >= 1
    ensures x < k <= x + n && (k - anchor) % n == 0
  {
    var r := (x - anchor) % n;
    var k := x - r + n;
    var q := (x - anchor) / n;
    assert k - anchor == (q + 1) * n + 0;
    GoInt.EuclidUnique(k - anchor, n, q + 1, 0);
    k
  }

  lemma MulMonotone(a: int, b: int, n: int)
    requires a <= b && n >= 0
    ensures a * n <= b * n
  {
  }

  /** Rounding the offset up to whole steps lands on the least multiple that reaches it. */
  lemma StepsRoundUp(offset: int, n: int)
    requires offset >= 0 && n >= 1
    ensures offset <= (offset + n - 1) / n * n < offset + n
    ensures (offset + n - 1) / n * n % n == 0
  {
    var steps, spare := (offset + n - 1) / n, (offset + n - 1) % n;
    assert offset + n - 1 == steps * n + spare;
    GoInt.EuclidUnique(steps * n, n, steps, 0);
  }

  lemma NoMultipleBetween(steps: int, n: int, k: int)
    requires n >= 1 && k % n == 0 && (steps - 1) * n < k
    ensures steps * n <= k
  {
    var q := k / n;
    assert k == n * q;
    if q < steps {
      MulMonotone(q, steps - 1, n);
    } else {
      MulMonotone(steps, q, n);
    }
  }

  // ----- Weeks -----

  /** Whole weeks since Monday 1 January 2001. */
  function WeekIndex(d: Date): int {
    GoInt.FloorDiv(DaysBetween(CivilDate(2001, 1, 1), d), 7)
  }

  lemma CenturyMonday()
    ensures CivilDate(2001, 1, 1) == 11323
  {
    assert LeapDays(2000) == 485;
  }

  /** The index counts Mondays, also before 2001. */
  lemma WeekIndexCountsMondays(d: Date)
    ensures MondayOf(d) == 11323 + 7 * WeekIndex(d)
  {
    CenturyMonday();
    hide CivilDate;
    GoInt.FloorDivBounds(d - 11323, 7);
    hide GoInt.FloorDiv;
  }

  lemma SameWeekPhase(a: Date, d: Date, n: int)
    requires a <= d && n >= 1
    ensures GoInt.Mod(WeekIndex(d) - WeekIndex(a), n) == 0 <==> (MondayOf(d) - MondayOf(a)) / 7 % n == 0
  {
    WeekIndexCountsMondays(a);
    WeekIndexCountsMondays(d);
    hide WeekIndex, MondayOf, GoInt.Mod;
    assert (MondayOf(d) - MondayOf(a)) / 7 == WeekIndex(d) - WeekIndex(a);
    GoInt.ModZero(WeekIndex(d) - WeekIndex(a), n);
  }

  /** The scan's test is exactly membership in the schedule. */
  lemma WeeklyTest(s: RepeatSchedule, d: Date)
    requires s.rule.frequency == Weekly && s.startsOn <= d
    ensures GoInt.Mod(WeekIndex(d) - WeekIndex(s.startsOn), Every(s.rule)) == 0 && Weekday(d) in s.rule.weekdays
            <==> Occurs(s, d)
  {
    SameWeekPhase(s.startsOn, d, Every(s.rule));
    hide WeekIndex, GoInt.Mod, MondayOf, Weekday, Every;
  }

  lemma WithinWeek(d: Date)
    ensures MondayOf(d) <= d <= MondayOf(d) + 6
  {
  }

  lemma DayOfWeek(k: int, w: int)
    requires IsWeekday(w)
    ensures Weekday(11323 + 7 * k + MondayIndex(w)) == w
  {
  }

  /** Some day of the next in-phase week, at most 7n + 6 days on, belongs to the schedule. */
  lemma WeekScanReaches(s: RepeatSchedule, start: Date) returns (i: int)
    requires s.rule.frequency == Weekly && Placed(s.rule) && s.startsOn <= start
    ensures 0 <= i < 7 * (Every(s.rule) + 1) && Occurs(s, start + i)
  {
    hide WeekIndex, NextInPhase, Every, Weekday, MondayIndex;
    var w :| w in s.rule.weekdays && IsWeekday(w);
    var n, anchor := Every(s.rule), WeekIndex(s.startsOn);
    var k := NextInPhase(WeekIndex(start), anchor, n);
    var e := 11323 + 7 * k + MondayIndex(w);
    WeekIndexCountsMondays(s.startsOn);
    WeekIndexCountsMondays(start);
    DayOfWeek(k, w);
    WithinWeek(start);
    WithinWeek(e);
    assert MondayOf(e) == 11323 + 7 * k;
    assert (MondayOf(e) - MondayOf(s.startsOn)) / 7 == k - anchor;
    i := e - start;
  }

  method FirstWeekly(s: RepeatSchedule, start: Date) returns (r: Option<Date>)
    requires s.rule.frequency == Weekly && s.startsOn <= start
    ensures r.Some? <==> Placed(s.rule)
    ensures r.Some? ==> IsFirst(s, start, r.value)
  {
    hide Occurs, WeekIndex, GoInt.Mod, Weekday, AddDays;
    var n := Every(s.rule);
    if |s.rule.weekdays| == 0 {
      return None;
    }
    var anchorWeek := WeekIndex(s.startsOn);
    for i := 0 to 7 * (n + 1)
      invariant forall e | start <= e < start + i :: !Occurs(s, e)
    {
      var d := AddDays(start, i);
      WeeklyTest(s, d);
      if GoInt.Mod(WeekIndex(d) - anchorWeek, n) == 0 && Weekday(d) in s.rule.weekdays {
        return Some(d);
      }
    }
    if Placed(s.rule) {
      var i := WeekScanReaches(s, start);
      assert false;
    }
    return None;
  }

  // ----- Days -----

  lemma DailyLeast(s: RepeatSchedule, start: Date, steps: int)
    requires s.rule.frequency == Daily && s.startsOn <= start
    requires steps == (start - s.startsOn + Every(s.rule) - 1) / Every(s.rule)
    ensures IsFirst(s, start, s.startsOn + steps * Every(s.rule))
  {
    hide Every;
    var n := Every(s.rule);
    StepsRoundUp(start - s.startsOn, n);
    forall e | start <= e < s.startsOn + steps * n ensures !Occurs(s, e) {
      if (e - s.startsOn) % n == 0 {
        assert (steps - 1) * n == steps * n - n;
        NoMultipleBetween(steps, n, e - s.startsOn);
      }
    }
  }

  method FirstDaily(s: RepeatSchedule, start: Date) returns (d: Date)
    requires s.rule.frequency == Daily && s.startsOn <= start
    ensures IsFirst(s, start, d)
  {
    hide IsFirst, AddDays, GoInt.Div, DaysBetween;
    var n := Every(s.rule);
    var offset := DaysBetween(s.startsOn, start);
    var steps := GoInt.Div(offset + n - 1, n);
    d := AddDays(s.startsOn, steps * n);
    GoInt.DivNonNegative(offset + n - 1, n);
    DailyLeast(s, start, steps);
  }

  // ----- Months -----

  /** The date a monthly rule names in one month. */
  function MonthlyDate(r: RepeatRule, year: int, month: int): Date {
    var last := DaysInMonth(year, month);
    if r.ordinal == LAST then
      var lastDay := CivilDate(year, month, last);
      var back := GoInt.Mod(Weekday(lastDay) - r.weekday + 7, 7);
      AddDays(lastDay, -back)
    else if r.ordinal > 0 then
      var first := CivilDate(year, month, 1);
      var forward := GoInt.Mod(r.weekday - Weekday(first) + 7, 7);
      AddDays(first, forward + (r.ordinal - 1) * 7)
    else if r.monthDay == LAST then
      CivilDate(year, month, last)
    else
      CivilDate(year, month, GoInt.Min(r.monthDay, last))
  }

  /** The loop's candidate for the month with this index. */
  function Candidate(r: RepeatRule, month: int): Date {
    MonthlyDate(r, GoInt.Div(month, 12), GoInt.Mod(month, 12) + 1)
  }

  lemma InMonth(e: Date, month: int)
    ensures MonthOf(e) == month <==> MonthStart(month) <= e < MonthStart(month) + MonthLength(month)
  {
    if MonthStart(month) <= e < MonthStart(month) + MonthLength(month) {
      MonthOfUnique(e, month);
    }
  }

  lemma MonthArguments(month: int)
    ensures 12 * GoInt.Div(month, 12) + (GoInt.Mod(month, 12) + 1) - 1 == month
  {
    hide GoInt.Div;
  }

  /** A monthly date's place in its month, counted from the month's first or last day. */
  lemma MonthlyDateValue(r: RepeatRule, year: int, month: int, index: int)
    requires 12 * year + month - 1 == index
    ensures var first, last := MonthStart(index), MonthStart(index) + MonthLength(index) - 1;
            MonthlyDate(r, year, month) ==
            if r.ordinal == LAST then last - GoInt.Mod(Weekday(last) - r.weekday + 7, 7)
            else if r.ordinal > 0 then first + GoInt.Mod(r.weekday - Weekday(first) + 7, 7) + (r.ordinal - 1) * 7
            else if r.monthDay == LAST then last
            else first + GoInt.Min(r.monthDay, MonthLength(index)) - 1
  {
    hide GoInt.Div, GoInt.Mod, MonthStart, MonthLength, Weekday, DaysInMonth, AddDays, MonthOf, Day;
  }

  lemma SameWeekday(a: Date, b: Date) returns (weeks: int)
    requires Weekday(a) == Weekday(b)
    ensures a == b + 7 * weeks
  {
    weeks := (a + 4) / 7 - (b + 4) / 7;
  }

  lemma WeekdayBack(d: Date, w: int)
    requires IsWeekday(w)
    ensures 0 <= GoInt.Mod(Weekday(d) - w + 7, 7) < 7
    ensures Weekday(d - GoInt.Mod(Weekday(d) - w + 7, 7)) == w
  {
  }

  lemma WeekdayForward(d: Date, w: int, k: int)
    requires IsWeekday(w)
    ensures 0 <= GoInt.Mod(w - Weekday(d) + 7, 7) < 7
    ensures Weekday(d + GoInt.Mod(w - Weekday(d) + 7, 7) + k * 7) == w
  {
  }

  lemma LastWeekdayCandidate(r: RepeatRule, month: int, d: Date)
    requires r.ordinal == LAST && IsWeekday(r.weekday) && MonthOf(d) == month
    ensures MonthOf(Candidate(r, month)) == month
    ensures OnMonthlyDay(r, d) <==> d == Candidate(r, month)
  {
    hide MonthlyDate, GoInt.Div, MonthStart, MonthLength, MonthOf, Weekday, GoInt.Mod;
    var c, last := Candidate(r, month), MonthStart(month) + MonthLength(month) - 1;
    MonthArguments(month);
    MonthlyDateValue(r, GoInt.Div(month, 12), GoInt.Mod(month, 12) + 1, month);
    WeekdayBack(last, r.weekday);
    InMonth(d, month);
    InMonth(d + 7, month);
    InMonth(c, month);
    InMonth(c + 7, month);
    if Weekday(d) == Weekday(c) {
      var weeks := SameWeekday(d, c);
    }
  }

  lemma OrdinalWeekdayCandidate(r: RepeatRule, month: int, d: Date)
    requires 1 <= r.ordinal <= 4 && IsWeekday(r.weekday) && MonthOf(d) == month
    ensures MonthOf(Candidate(r, month)) == month
    ensures OnMonthlyDay(r, d) <==> d == Candidate(r, month)
  {
    hide MonthlyDate, GoInt.Div, MonthStart, MonthLength, MonthOf, Weekday, GoInt.Mod;
    var c, first := Candidate(r, month), MonthStart(month);
    MonthArguments(month);
    MonthlyDateValue(r, GoInt.Div(month, 12), GoInt.Mod(month, 12) + 1, month);
    WeekdayForward(first, r.weekday, r.ordinal - 1);
    InMonth(d, month);
    InMonth(d - 7 * (r.ordinal - 1), month);
    InMonth(d - 7 * r.ordinal, month);
    InMonth(c, month);
    if Weekday(d) == Weekday(c) {
      var weeks := SameWeekday(d, c);
    }
  }

  lemma MonthDayCandidate(r: RepeatRule, month: int, d: Date)
    requires r.ordinal == 0 && (r.monthDay == LAST || r.monthDay >= 1) && MonthOf(d) == month
    ensures MonthOf(Candidate(r, month)) == month
    ensures OnMonthlyDay(r, d) <==> d == Candidate(r, month)
  {
    hide MonthlyDate, GoInt.Div, MonthStart, MonthLength, MonthOf, Weekday, GoInt.Mod;
    MonthArguments(month);
    MonthlyDateValue(r, GoInt.Div(month, 12), GoInt.Mod(month, 12) + 1, month);
    InMonth(d, month);
    InMonth(Candidate(r, month), month);
    InMonth(d + 1, month);
  }

  /** No drift: each month holds exactly one day of a placed monthly rule, the same wherever the search began. */
  lemma OneCandidateAMonth(r: RepeatRule, month: int, d: Date)
    requires r.frequency == Monthly && Placed(r) && MonthOf(d) == month
    ensures MonthOf(Candidate(r, month)) == month
    ensures OnMonthlyDay(r, d) <==> d == Candidate(r, month)
  {
    hide OnMonthlyDay, Candidate, MonthOf, MonthStart, MonthLength, Weekday;
    if r.ordinal == LAST {
      LastWeekdayCandidate(r, month, d);
    } else if r.ordinal > 0 {
      OrdinalWeekdayCandidate(r, month, d);
    } else {
      MonthDayCandidate(r, month, d);
    }
  }

  /** A rule on the 31st, say, comes back to the 31st in every month long enough for it. */
  lemma ClampRecovers(r: RepeatRule, month: int)
    requires r.frequency == Monthly && Placed(r) && r.ordinal == 0 && r.monthDay != LAST
    ensures Day(Candidate(r, month)) == GoInt.Min(r.monthDay, MonthLength(month))
  {
    hide MonthlyDate, GoInt.Div, MonthStart, MonthLength, MonthOf, Weekday, GoInt.Mod;
    MonthArguments(month);
    MonthlyDateValue(r, GoInt.Div(month, 12), GoInt.Mod(month, 12) + 1, month);
    InMonth(Candidate(r, month), month);
  }

  function MonthIndex(d: Date): (month: int)
    ensures month == MonthOf(d)
  {
    MonthSplit(d);
    Year(d) * 12 + Month(d) - 1
  }

  /** Months in phase are those a multiple of the interval from the start's month. */
  lemma MonthlyTest(s: RepeatSchedule, d: Date)
    requires s.rule.frequency == Monthly && s.startsOn <= d
    ensures Occurs(s, d) <==>
            (MonthOf(d) - MonthOf(s.startsOn)) % Every(s.rule) == 0 && OnMonthlyDay(s.rule, d)
  {
    hide MonthOf, OnMonthlyDay, Every;
    MonthSplit(d);
    MonthSplit(s.startsOn);
  }

  lemma MonthlyMember(s: RepeatSchedule, month: int, d: Date)
    requires s.rule.frequency == Monthly && Placed(s.rule) && MonthOf(d) == month
    requires s.startsOn <= d
    ensures Occurs(s, d) <==>
            GoInt.Mod(month - MonthIndex(s.startsOn), Every(s.rule)) == 0 && d == Candidate(s.rule, month)
  {
    hide MonthOf, OnMonthlyDay, Every, Candidate, Placed, GoInt.Mod, Occurs, MonthIndex;
    MonthlyTest(s, d);
    OneCandidateAMonth(s.rule, month, d);
    GoInt.ModZero(month - MonthIndex(s.startsOn), Every(s.rule));
  }

  lemma MonthScanReaches(s: RepeatSchedule, start: Date) returns (d: Date)
    requires s.rule.frequency == Monthly && Placed(s.rule) && s.startsOn <= start
    ensures start <= d && MonthOf(d) <= MonthOf(start) + Every(s.rule) && Occurs(s, d)
  {
    hide MonthOf, OnMonthlyDay, Every, Candidate, Placed, GoInt.Mod, Occurs, MonthIndex, MonthStart, MonthLength;
    var k := NextInPhase(MonthOf(start), MonthOf(s.startsOn), Every(s.rule));
    MonthStartMonotone(k, k + 1);
    MonthOfUnique(MonthStart(k), k);
    OneCandidateAMonth(s.rule, k, MonthStart(k));
    d := Candidate(s.rule, k);
    if d < start {
      MonthOfMonotone(d, start);
    }
    MonthlyMember(s, k, d);
    GoInt.ModZero(k - MonthIndex(s.startsOn), Every(s.rule));
  }

  method FirstMonthly(s: RepeatSchedule, start: Date) returns (r: Option<Date>)
    requires s.rule.frequency == Monthly && s.startsOn <= start
    ensures Placed(s.rule) ==> r.Some? && IsFirst(s, start, r.value)
  {
    hide MonthOf, Occurs, Candidate, Placed, GoInt.Mod, Every, MonthIndex, MonthStart, MonthLength;
    var n := Every(s.rule);
    var anchorMonth := MonthIndex(s.startsOn);
    forall e | start <= e ensures MonthOf(start) <= MonthOf(e) {
      MonthOfMonotone(start, e);
    }
    for month := MonthIndex(start) to MonthIndex(start) + 2 * n + 2
      invariant Placed(s.rule) ==> forall e | start <= e && MonthOf(e) < month :: !Occurs(s, e)
    {
      if GoInt.Mod(month - anchorMonth, n) == 0 {
        var d := Candidate(s.rule, month);
        if d >= start {
          if Placed(s.rule) {
            FirstInMonth(s, start, month);
          }
          return Some(d);
        }
      }
      if Placed(s.rule) {
        forall e | start <= e && MonthOf(e) == month ensures !Occurs(s, e) {
          MonthlyMember(s, month, e);
        }
      }
    }
    if Placed(s.rule) {
      var d := MonthScanReaches(s, start);
      assert false;
    }
    return None;
  }

  lemma FirstInMonth(s: RepeatSchedule, start: Date, month: int)
    requires s.rule.frequency == Monthly && Placed(s.rule) && s.startsOn <= start
    requires GoInt.Mod(month - MonthIndex(s.startsOn), Every(s.rule)) == 0 && Candidate(s.rule, month) >= start
    requires forall e | start <= e && MonthOf(e) < month :: !Occurs(s, e)
    ensures IsFirst(s, start, Candidate(s.rule, month))
  {
    hide MonthOf, Occurs, Candidate, Placed, GoInt.Mod, Every, MonthIndex, MonthStart, MonthLength;
    var c := Candidate(s.rule, month);
    MonthStartMonotone(month, month + 1);
    MonthOfUnique(MonthStart(month), month);
    OneCandidateAMonth(s.rule, month, MonthStart(month));
    MonthlyMember(s, month, c);
    forall e | start <= e < c ensures !Occurs(s, e) {
      MonthOfMonotone(e, c);
      if MonthOf(e) == month {
        MonthlyMember(s, month, e);
      }
    }
  }

  // ----- Years -----

  function YearlyDate(r: RepeatRule, year: int): Date {
    CivilDate(year, r.month, GoInt.Min(r.monthDay, DaysInMonth(year, r.month)))
  }

  lemma YearMonth(d: Date, year: int, month: int)
    requires 1 <= month <= 12
    ensures Year(d) == year && Month(d) == month <==> MonthOf(d) == 12 * year + month - 1
  {
    hide MonthOf;
    GoInt.EuclidUnique(12 * year + month - 1, 12, year, month - 1);
    MonthSplit(d);
  }

  /** No drift: each year holds exactly one day of a placed yearly rule, 28 February standing in for the 29th. */
  lemma OneCandidateAYear(r: RepeatRule, year: int, d: Date)
    requires r.frequency == Yearly && Placed(r)
    ensures Year(YearlyDate(r, year)) == year
    ensures Year(d) == year && Month(d) == r.month && OnMonthDay(r.monthDay, d) <==> d == YearlyDate(r, year)
  {
    hide MonthOf, MonthStart, MonthLength, Year, Month, DaysInMonth;
    var month := 12 * year + r.month - 1;
    var c := YearlyDate(r, year);
    InMonth(d, month);
    InMonth(d + 1, month);
    InMonth(c, month);
    InMonth(c + 1, month);
    YearMonth(d, year, r.month);
    YearMonth(c, year, r.month);
  }

  lemma YearMonotone(a: Date, b: Date)
    requires a <= b
    ensures Year(a) <= Year(b)
  {
    hide MonthOf;
    MonthOfMonotone(a, b);
  }

  lemma YearlyMember(s: RepeatSchedule, year: int, d: Date)
    requires s.rule.frequency == Yearly && Placed(s.rule) && Year(d) == year && s.startsOn <= d
    ensures Occurs(s, d) <==>
            GoInt.Mod(year - Year(s.startsOn), Every(s.rule)) == 0 && d == YearlyDate(s.rule, year)
  {
    hide Year, Month, OnMonthDay, Every, YearlyDate, Placed, GoInt.Mod;
    OneCandidateAYear(s.rule, year, d);
    GoInt.ModZero(year - Year(s.startsOn), Every(s.rule));
  }

  lemma YearScanReaches(s: RepeatSchedule, start: Date) returns (d: Date)
    requires s.rule.frequency == Yearly && Placed(s.rule) && s.startsOn <= start
    ensures start <= d && Year(d) <= Year(start) + Every(s.rule) && Occurs(s, d)
  {
    hide Year, Month, OnMonthDay, Every, YearlyDate, Placed, GoInt.Mod, Occurs;
    var k := NextInPhase(Year(start), Year(s.startsOn), Every(s.rule));
    d := YearlyDate(s.rule, k);
    OneCandidateAYear(s.rule, k, d);
    if d < start {
      YearMonotone(d, start);
    }
    YearlyMember(s, k, d);
    GoInt.ModZero(k - Year(s.startsOn), Every(s.rule));
  }

  lemma FirstInYear(s: RepeatSchedule, start: Date, year: int)
    requires s.rule.frequency == Yearly && Placed(s.rule) && s.startsOn <= start
    requires GoInt.Mod(year - Year(s.startsOn), Every(s.rule)) == 0 && YearlyDate(s.rule, year) >= start
    requires forall e | start <= e && Year(e) < year :: !Occurs(s, e)
    ensures IsFirst(s, start, YearlyDate(s.rule, year))
  {
    hide Year, Month, Occurs, YearlyDate, Placed, GoInt.Mod, Every;
    var c := YearlyDate(s.rule, year);
    OneCandidateAYear(s.rule, year, c);
    YearlyMember(s, year, c);
    forall e | start <= e < c ensures !Occurs(s, e) {
      YearMonotone(e, c);
      if Year(e) == year {
        YearlyMember(s, year, e);
      }
    }
  }

  method FirstYearly(s: RepeatSchedule, start: Date) returns (r: Option<Date>)
    requires s.rule.frequency == Yearly && s.startsOn <= start
    ensures Placed(s.rule) ==> r.Some? && IsFirst(s, start, r.value)
  {
    hide Year, Month, Occurs, Placed, GoInt.Mod, Every, CivilDate;
    var n := Every(s.rule);
    var anchorYear := Year(s.startsOn);
    forall e | start <= e ensures Year(start) <= Year(e) {
      YearMonotone(start, e);
    }
    for year := Year(start) to Year(start) + 2 * n + 2
      invariant Placed(s.rule) ==> forall e | start <= e && Year(e) < year :: !Occurs(s, e)
    {
      if GoInt.Mod(year - anchorYear, n) == 0 {
        var d := CivilDate(year, s.rule.month, GoInt.Min(s.rule.monthDay, DaysInMonth(year, s.rule.month)));
        if d >= start {
          if Placed(s.rule) {
            FirstInYear(s, start, year);
          }
          return Some(d);
        }
      }
      if Placed(s.rule) {
        forall e | start <= e && Year(e) == year ensures !Occurs(s, e) {
          YearlyMember(s, year, e);
        }
      }
    }
    if Placed(s.rule) {
      var d := YearScanReaches(s, start);
      assert false;
    }
    return None;
  }

  // ----- The search over every frequency -----

  /** Schedules with no date at all: no real weekday to fall on, or no known frequency. */
  predicate Dateless(r: RepeatRule) {
    match r.frequency
    case Weekly => forall w | w in r.weekdays :: !IsWeekday(w)
    case Unset => true
    case Other(_) => true
    case _ => false
  }

  /** The least date of the schedule on or after from; the scans never run out for a placed rule. */
  method FirstOnOrAfter(s: RepeatSchedule, from: Date) returns (r: Option<Date>)
    ensures Placed(s.rule) ==> r.Some? && IsFirst(s, from, r.value) && s.startsOn <= r.value
    ensures Dateless(s.rule) ==> r == None
  {
    hide Occurs;
    var start := from;
    if start < s.startsOn {
      start := s.startsOn;
    }
    match s.rule.frequency {
      case Daily =>
        var d := FirstDaily(s, start);
        r := Some(d);
      case Weekly =>
        r := FirstWeekly(s, start);
      case Monthly =>
        r := FirstMonthly(s, start);
      case Yearly =>
        r := FirstYearly(s, start);
      case _ =>
        r := None;
    }
    if Placed(s.rule) {
      FirstFromStart(s, from, start, r.value);
    }
  }

  lemma FirstFromStart(s: RepeatSchedule, from: Date, start: Date, d: Date)
    requires start == GoInt.Max(from, s.startsOn) && IsFirst(s, start, d)
    ensures IsFirst(s, from, d) && s.startsOn <= d
  {
    hide MonthOf, Year, Month, Weekday, MondayOf, OnMonthDay, OnMonthlyDay, Every;
  }

  method NextAfter(s: RepeatSchedule, d: Date) returns (r: Option<Date>)
    ensures Placed(s.rule) ==> r.Some? && d < r.value && IsFirst(s, d + 1, r.value)
    ensures Dateless(s.rule) ==> r == None
  {
    hide Occurs;
    r := FirstOnOrAfter(s, AddDays(d, 1));
  }
}
