/** Which dates a schedule falls on, counted from its rule's own interval. */
module RepeatPhases {
  import opened Calendar
  import opened RepeatRules
  import opened RepeatSearch
  import GoInt

  lemma ScaledPhase(k: int, n: int, c: int)
    requires n >= 1 && c >= 1
    ensures c * n >= 1 && (c * k % (c * n) == 0 <==> k % n == 0)
  {
    var q, r := k / n, k % n;
    assert k == n * q + r;
    assert c * k == q * (c * n) + c * r;
    GoInt.MulBetween(r, n, c);
    GoInt.EuclidUnique(c * k, c * n, q, c * r);
  }

  lemma SamePhase(a: int, b: int, n: int)
    requires n >= 1 && a % n == 0 && b % n == 0
    ensures (a - b) % n == 0
  {
    assert a - b == (a / n - b / n) * n + 0;
    GoInt.EuclidUnique(a - b, n, a / n - b / n, 0);
  }

  /** The Monday of a date's week. */
  lemma MondayBefore(d: Date)
    ensures Weekday(MondayOf(d)) == 1 && MondayOf(d) <= d <= MondayOf(d) + 6
  {
  }

  lemma MondayUnique(d: Date, m: Date)
    requires Weekday(m) == 1 && m <= d <= m + 6
    ensures MondayOf(d) == m
  {
    MondayBefore(d);
    var weeks := SameWeekday(m, MondayOf(d));
    hide MondayOf, Weekday;
  }

  lemma WeekPhase(a: Date, d: Date, n: int)
    requires n >= 1
    ensures 7 * n >= 1
    ensures (MondayOf(d) - MondayOf(a)) / 7 % n == 0 <==> (MondayOf(d) - MondayOf(a)) % (7 * n) == 0
  {
    MondayBefore(a);
    MondayBefore(d);
    var weeks := SameWeekday(MondayOf(d), MondayOf(a));
    hide MondayOf, Weekday;
    ScaledPhase(weeks, n, 7);
  }

  // ----- A schedule's dates in terms of the interval written in its rule -----

  lemma EveryIs(r: RepeatRule)
    ensures Every(r) == if r.interval >= 1 then r.interval else 1
  {
  }

  lemma SameNamedDay(r: RepeatRule, t: RepeatRule, d: Date)
    requires r.ordinal == t.ordinal && r.weekday == t.weekday && r.monthDay == t.monthDay
    ensures OnMonthlyDay(r, d) == OnMonthlyDay(t, d)
  {
    hide MonthOf, MonthStart, MonthLength, Day, Weekday, LastOfMonth, OnMonthDay;
  }

  lemma DailyDates(s: RepeatSchedule, d: Date)
    requires s.rule.frequency == Daily && s.rule.interval >= 1
    ensures Occurs(s, d) <==> s.startsOn <= d && (d - s.startsOn) % s.rule.interval == 0
  {
    hide Every, MondayOf, Weekday, Year, Month, OnMonthDay, OnMonthlyDay;
    EveryIs(s.rule);
  }

  lemma WeeklyDates(s: RepeatSchedule, d: Date)
    requires s.rule.frequency == Weekly && s.rule.interval >= 1
    ensures 7 * s.rule.interval >= 1
    ensures Occurs(s, d) <==>
            s.startsOn <= d && (MondayOf(d) - MondayOf(s.startsOn)) % (7 * s.rule.interval) == 0
            && Weekday(d) in s.rule.weekdays
  {
    hide Every, MondayOf, Weekday, Year, Month, OnMonthDay, OnMonthlyDay;
    EveryIs(s.rule);
    WeekPhase(s.startsOn, d, s.rule.interval);
  }

  lemma MonthlyDates(s: RepeatSchedule, d: Date)
    requires s.rule.frequency == Monthly && s.rule.interval >= 1
    ensures Occurs(s, d) <==>
            s.startsOn <= d && OnMonthlyDay(s.rule, d)
            && (12 * (Year(d) - Year(s.startsOn)) + Month(d) - Month(s.startsOn)) % s.rule.interval == 0
  {
    hide Every, MondayOf, Weekday, Year, Month, OnMonthDay, OnMonthlyDay;
    EveryIs(s.rule);
  }

  lemma YearlyDates(s: RepeatSchedule, d: Date)
    requires s.rule.frequency == Yearly && s.rule.interval >= 1
    ensures Occurs(s, d) <==>
            s.startsOn <= d && (Year(d) - Year(s.startsOn)) % s.rule.interval == 0
            && Month(d) == s.rule.month && OnMonthDay(s.rule.monthDay, d)
  {
    hide Every, MondayOf, Weekday, Year, Month, OnMonthDay, OnMonthlyDay;
    EveryIs(s.rule);
  }

  /** An interval below one counts as one. */
  lemma LowIntervalIsOne(s: RepeatSchedule, d: Date)
    requires s.rule.interval < 1
    ensures Occurs(s, d) <==> Occurs(s.(rule := s.rule.(interval := 1)), d)
  {
    hide Every, MondayOf, Weekday, Year, Month, OnMonthDay, OnMonthlyDay;
    EveryIs(s.rule);
    EveryIs(s.rule.(interval := 1));
    SameNamedDay(s.rule, s.rule.(interval := 1), d);
  }

  lemma NoneWithin(x: int, k: int, n: int)
    requires n >= 1 && x % n == 0 && 0 < k < n
    ensures (x + k) % n != 0 && (x + n) % n == 0
  {
    assert x + k == (x / n) * n + k;
    GoInt.EuclidUnique(x + k, n, x / n, k);
    assert x + n == (x / n + 1) * n + 0;
    GoInt.EuclidUnique(x + n, n, x / n + 1, 0);
  }

  lemma OneOnwards(x: int, n: int)
    requires n >= 1 && x % n == 0
    ensures (x + n) % n == 0
  {
    assert x + n == (x / n + 1) * n + 0;
    GoInt.EuclidUnique(x + n, n, x / n + 1, 0);
  }

  /** A daily date is followed by the one an interval later, and by none between. */
  lemma DailySpacing(s: RepeatSchedule, d: Date)
    requires s.rule.frequency == Daily && s.rule.interval >= 1 && Occurs(s, d)
    ensures IsFirst(s, d + 1, d + s.rule.interval)
  {
    var n, a := s.rule.interval, s.startsOn;
    hide Occurs;
    DailyDates(s, d);
    DailyDates(s, d + n);
    OneOnwards(d - a, n);
    forall e | d + 1 <= e < d + n ensures !Occurs(s, e) {
      DailyDates(s, e);
      NoneWithin(d - a, e - d, n);
    }
  }

  /** Two dates of a weekly schedule are in weeks a whole number of intervals apart. */
  lemma WeeklySpacing(s: RepeatSchedule, d: Date, e: Date)
    requires s.rule.frequency == Weekly && s.rule.interval >= 1 && Occurs(s, d) && Occurs(s, e)
    ensures 7 * s.rule.interval >= 1 && (MondayOf(d) - MondayOf(e)) % (7 * s.rule.interval) == 0
  {
    hide Occurs, MondayOf, Weekday;
    WeeklyDates(s, d);
    WeeklyDates(s, e);
    SamePhase(MondayOf(d) - MondayOf(s.startsOn), MondayOf(e) - MondayOf(s.startsOn), 7 * s.rule.interval);
  }

  /** Two dates of a monthly schedule are in months a whole number of intervals apart. */
  lemma MonthlySpacing(s: RepeatSchedule, d: Date, e: Date)
    requires s.rule.frequency == Monthly && s.rule.interval >= 1 && Occurs(s, d) && Occurs(s, e)
    ensures (12 * (Year(d) - Year(e)) + Month(d) - Month(e)) % s.rule.interval == 0
  {
    hide Occurs, Year, Month, OnMonthlyDay;
    MonthlyDates(s, d);
    MonthlyDates(s, e);
    var x := 12 * (Year(d) - Year(s.startsOn)) + Month(d) - Month(s.startsOn);
    var y := 12 * (Year(e) - Year(s.startsOn)) + Month(e) - Month(s.startsOn);
    assert x - y == 12 * (Year(d) - Year(e)) + Month(d) - Month(e);
    SamePhase(x, y, s.rule.interval);
  }

  /** Two dates of a yearly schedule are a whole number of intervals apart. */
  lemma YearlySpacing(s: RepeatSchedule, d: Date, e: Date)
    requires s.rule.frequency == Yearly && s.rule.interval >= 1 && Occurs(s, d) && Occurs(s, e)
    ensures (Year(d) - Year(e)) % s.rule.interval == 0
  {
    hide Occurs, Year, Month, OnMonthDay;
    YearlyDates(s, d);
    YearlyDates(s, e);
    SamePhase(Year(d) - Year(s.startsOn), Year(e) - Year(s.startsOn), s.rule.interval);
  }

  /** Each week a whole number of intervals from the start's holds every weekday the rule names. */
  lemma WeekHoldsItsDays(s: RepeatSchedule, monday: Date, w: int)
    requires s.rule.frequency == Weekly && s.rule.interval >= 1 && w in s.rule.weekdays && IsWeekday(w)
    requires Weekday(monday) == 1 && (monday - MondayOf(s.startsOn)) % (7 * s.rule.interval) == 0
    requires s.startsOn <= monday + (w + 6) % 7
    ensures Occurs(s, monday + (w + 6) % 7) && Weekday(monday + (w + 6) % 7) == w
  {
    var d := monday + (w + 6) % 7;
    MondayUnique(d, monday);
    assert Weekday(d) == w;
    WeeklyDates(s, d);
    hide Occurs, MondayOf, Weekday;
  }

  lemma InMonthOf(d: Date, year: int, month: int)
    requires 1 <= month <= 12
    ensures Year(d) == year && Month(d) == month <==> MonthOf(d) == 12 * year + month - 1
  {
    YearMonth(d, year, month);
  }

  /** Each later month a whole number of intervals from the start's holds one date of the schedule. */
  lemma MonthHoldsOne(s: RepeatSchedule, year: int, month: int) returns (d: Date)
    requires s.rule.frequency == Monthly && s.rule.interval >= 1 && Placed(s.rule) && 1 <= month <= 12
    requires var gap := 12 * (year - Year(s.startsOn)) + month - Month(s.startsOn);
             gap > 0 && gap % s.rule.interval == 0
    ensures Year(d) == year && Month(d) == month && Occurs(s, d)
    ensures forall e | Occurs(s, e) && Year(e) == year && Month(e) == month :: e == d
  {
    hide MonthOf, Year, Month, OnMonthlyDay, Occurs, Candidate, Placed, MonthStart, MonthLength;
    var k := 12 * year + month - 1;
    MonthStartMonotone(k, k + 1);
    MonthOfUnique(MonthStart(k), k);
    OneCandidateAMonth(s.rule, k, MonthStart(k));
    d := Candidate(s.rule, k);
    InMonthOf(d, year, month);
    MonthSplit(s.startsOn);
    if d < s.startsOn {
      MonthOfMonotone(d, s.startsOn);
    }
    OneCandidateAMonth(s.rule, k, d);
    MonthlyDates(s, d);
    forall e | Occurs(s, e) && Year(e) == year && Month(e) == month ensures e == d {
      InMonthOf(e, year, month);
      OneCandidateAMonth(s.rule, k, e);
      MonthlyDates(s, e);
    }
  }

  /** Each later year a whole number of intervals from the start's holds one date of the schedule. */
  lemma YearHoldsOne(s: RepeatSchedule, year: int) returns (d: Date)
    requires s.rule.frequency == Yearly && s.rule.interval >= 1 && Placed(s.rule)
    requires year > Year(s.startsOn) && (year - Year(s.startsOn)) % s.rule.interval == 0
    ensures Year(d) == year && Occurs(s, d)
    ensures forall e | Occurs(s, e) && Year(e) == year :: e == d
  {
    hide Year, Month, OnMonthDay, Occurs, YearlyDate, Placed;
    d := YearlyDate(s.rule, year);
    OneCandidateAYear(s.rule, year, d);
    if d < s.startsOn {
      YearMonotone(d, s.startsOn);
    }
    YearlyDates(s, d);
    forall e | Occurs(s, e) && Year(e) == year ensures e == d {
      OneCandidateAYear(s.rule, year, e);
      YearlyDates(s, e);
    }
  }

  // ----- The day a monthly rule names -----

  lemma BackInMonth(d: Date, k: nat)
    ensures MonthOf(d - k) == MonthOf(d) <==> k < Day(d)
  {
    hide MonthOf, MonthStart, MonthLength;
    InMonth(d - k, MonthOf(d));
  }

  lemma WeekOn(d: Date)
    ensures MonthOf(d + 7) != MonthOf(d) <==> Day(d + 7) <= 7
    ensures Day(d) >= 1
  {
    hide MonthOf, MonthStart, MonthLength;
    var next := MonthOf(d) + 1;
    if MonthOf(d + 7) != MonthOf(d) {
      MonthStartStep(MonthOf(d));
      MonthStartMonotone(next, next + 1);
      InMonth(d + 7, MonthOf(d));
      MonthOfUnique(d + 7, next);
    }
  }

  lemma OrdinalDayMeans(r: RepeatRule, d: Date)
    requires 1 <= r.ordinal <= 4
    ensures OnMonthlyDay(r, d) <==> Weekday(d) == r.weekday && 7 * (r.ordinal - 1) < Day(d) <= 7 * r.ordinal
  {
    hide MonthOf, Day, Weekday, LastOfMonth, OnMonthDay;
    BackInMonth(d, 7 * (r.ordinal - 1));
    BackInMonth(d, 7 * r.ordinal);
  }

  lemma LastWeekdayMeans(r: RepeatRule, d: Date)
    requires r.ordinal == -1
    ensures OnMonthlyDay(r, d) <==> Weekday(d) == r.weekday && Day(d + 7) <= 7
  {
    hide MonthOf, Day, Weekday, LastOfMonth, OnMonthDay;
    WeekOn(d);
  }

  /** Ordinals count a month's weekdays from its first or last day, and a late day gives way to a short month's last. */
  lemma MonthlyDayMeans(r: RepeatRule, d: Date)
    ensures 1 <= r.ordinal <= 4 ==>
              (OnMonthlyDay(r, d) <==> Weekday(d) == r.weekday && 7 * (r.ordinal - 1) < Day(d) <= 7 * r.ordinal)
    ensures r.ordinal == -1 ==> (OnMonthlyDay(r, d) <==> Weekday(d) == r.weekday && Day(d + 7) <= 7)
    ensures r.ordinal == 0 && r.monthDay == -1 ==> (OnMonthlyDay(r, d) <==> Day(d + 1) == 1)
    ensures r.ordinal == 0 && r.monthDay >= 1 ==>
              (OnMonthlyDay(r, d) <==> Day(d) == r.monthDay || (Day(d) < r.monthDay && Day(d + 1) == 1))
  {
    hide MonthOf, Day, Weekday, LastOfMonth;
    if 1 <= r.ordinal <= 4 {
      OrdinalDayMeans(r, d);
    } else if r.ordinal == -1 {
      LastWeekdayMeans(r, d);
    } else {
      LastDayMeans(d);
    }
  }

  // ----- Rules that leave their day to the start date -----

  lemma WeeksApart(a: Date, d: Date, n: int)
    requires n >= 1
    ensures 7 * n >= 1
    ensures (MondayOf(d) - MondayOf(a)) % (7 * n) == 0 && Weekday(d) == Weekday(a) <==> (d - a) % (7 * n) == 0
  {
    if Weekday(d) == Weekday(a) {
      assert MondayOf(d) - MondayOf(a) == d - a;
    } else if (d - a) % (7 * n) == 0 {
      assert d == a + 7 * (n * ((d - a) / (7 * n)));
      SevenApart(a, n * ((d - a) / (7 * n)));
    }
  }

  lemma SevenApart(a: Date, weeks: int)
    ensures Weekday(a + 7 * weeks) == Weekday(a)
  {
  }

  /** A weekly rule without a day falls on the start and every interval of weeks from it. */
  lemma AnchoredWeekly(r: RepeatRule, a: Date, d: Date)
    requires r.frequency == Weekly && r.weekdays == [] && r.interval >= 1
    ensures 7 * r.interval >= 1
    ensures Occurs(NewRepeatSchedule(r, a), d) <==> a <= d && (d - a) % (7 * r.interval) == 0
  {
    var s := NewRepeatSchedule(r, a);
    assert forall w :: w in s.rule.weekdays <==> w == Weekday(a);
    hide Occurs, MondayOf, Weekday;
    WeeklyDates(s, d);
    WeeksApart(a, d, r.interval);
  }

  /** A monthly rule without a day falls on the start's day of the month, or the last day of a month too short for it. */
  lemma AnchoredMonthly(r: RepeatRule, a: Date, d: Date)
    requires r.frequency == Monthly && r.monthDay == 0 && r.ordinal == 0 && r.interval >= 1
    ensures Occurs(NewRepeatSchedule(r, a), d) <==>
            a <= d && (12 * (Year(d) - Year(a)) + Month(d) - Month(a)) % r.interval == 0
            && (Day(d) == Day(a) || (Day(d) < Day(a) && Day(d + 1) == 1))
  {
    hide Occurs, Year, Month, Day, MonthOf, MonthStart, MonthLength, OnMonthlyDay;
    DayIsPositive(a);
    var s := NewRepeatSchedule(r, a);
    LastDayMeans(d);
    MonthlyDates(s, d);
    assert OnMonthlyDay(s.rule, d) <==> OnMonthDay(Day(a), d) by {
      DayRule(s.rule, d);
    }
  }

  lemma DayIsPositive(a: Date)
    ensures Day(a) >= 1
  {
  }

  lemma DayRule(r: RepeatRule, d: Date)
    requires r.ordinal == 0 && r.monthDay >= 1
    ensures OnMonthlyDay(r, d) <==> OnMonthDay(r.monthDay, d)
  {
    hide Day, MonthOf;
  }

  /** A yearly rule without a date falls on the start's month and day, or the last of February for a leap day. */
  lemma AnchoredYearly(r: RepeatRule, a: Date, d: Date)
    requires r.frequency == Yearly && r.month == 0 && r.interval >= 1
    ensures Occurs(NewRepeatSchedule(r, a), d) <==>
            a <= d && (Year(d) - Year(a)) % r.interval == 0 && Month(d) == Month(a)
            && (Day(d) == Day(a) || (Day(d) < Day(a) && Day(d + 1) == 1))
  {
    hide Occurs, Year, Month, Day, MonthOf, MonthStart, MonthLength;
    LastDayMeans(d);
    YearlyDates(NewRepeatSchedule(r, a), d);
  }

  /** A date is the last of its month exactly when the next day is a first. */
  lemma LastDayMeans(d: Date)
    ensures LastOfMonth(d) <==> Day(d + 1) == 1
  {
    hide MonthStart, MonthLength, MonthOf;
    MonthStartStep(MonthOf(d));
    if MonthOf(d + 1) != MonthOf(d) {
      if d + 1 < MonthStart(MonthOf(d) + 1) {
        MonthOfUnique(d + 1, MonthOf(d));
        assert false;
      }
      MonthStartMonotone(MonthOf(d) + 1, MonthOf(d) + 2);
      MonthOfUnique(d + 1, MonthOf(d) + 1);
    }
  }

  /** A rule that names its own day is left as it is, whatever the start date. */
  lemma CompleteStays(r: RepeatRule, a: Date)
    requires r.frequency == Daily || (r.frequency == Weekly && r.weekdays != [])
             || (r.frequency == Monthly && (r.monthDay != 0 || r.ordinal != 0)) || (r.frequency == Yearly && r.month != 0)
    ensures NewRepeatSchedule(r, a) == RepeatSchedule(r, a)
  {
  }
}
