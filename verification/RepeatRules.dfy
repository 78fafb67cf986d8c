/** The rule a repeating issue follows, and the dates that belong to it. */
module RepeatRules {
  import opened Calendar
  import GoInt

  const MAX_INTERVAL := 99
  const LAST := -1
  const LEAP_YEAR := 2000

  datatype Frequency = Unset | Daily | Weekly | Monthly | Yearly | Other(name: string)

  /** Zero fields are unused ones, as in the stored record. Weekdays number from Sunday as 0. */
  datatype RepeatRule = RepeatRule(
    frequency: Frequency,
    interval: int,
    weekdays: seq<int>,
    monthDay: int,
    ordinal: int,
    weekday: int,
    month: int)

  function PlainRule(frequency: Frequency, interval: int): RepeatRule {
    RepeatRule(frequency, interval, [], 0, 0, 0, 0)
  }

  predicate IsWeekday(w: int) { 0 <= w < 7 }

  /** Weeks start on Monday. */
  function MondayIndex(w: int): int { (w + 6) % 7 }

  predicate MondayFirst(days: seq<int>) {
    && (forall i | 0 <= i < |days| :: IsWeekday(days[i]))
    && (forall i, j | 0 <= i < j < |days| :: MondayIndex(days[i]) < MondayIndex(days[j]))
  }

  /** The rules that rule text can denote. */
  predicate WellFormed(r: RepeatRule) {
    && 1 <= r.interval <= 99
    && match r.frequency
       case Daily => r == PlainRule(Daily, r.interval)
       case Weekly =>
         r == PlainRule(Weekly, r.interval).(weekdays := r.weekdays) && MondayFirst(r.weekdays)
       case Monthly =>
         || (r == PlainRule(Monthly, r.interval).(monthDay := r.monthDay)
             && (r.monthDay == -1 || 0 <= r.monthDay <= 31))
         || (r == PlainRule(Monthly, r.interval).(ordinal := r.ordinal, weekday := r.weekday)
             && (r.ordinal == -1 || 1 <= r.ordinal <= 4) && IsWeekday(r.weekday))
       case Yearly =>
         || r == PlainRule(Yearly, r.interval)
         || (r == PlainRule(Yearly, r.interval).(month := r.month, monthDay := r.monthDay)
             && 1 <= r.month <= 12 && 1 <= r.monthDay <= DaysInMonth(2000, r.month))
       case _ => false
  }

  /** The rule names its own day, so it needs nothing from a start date. */
  predicate Complete(r: RepeatRule) {
    match r.frequency
    case Weekly => r.weekdays != []
    case Monthly => r.monthDay != 0 || r.ordinal != 0
    case Yearly => r.month != 0
    case _ => true
  }

  function Anchored(r: RepeatRule, startsOn: Date): RepeatRule {
    match r.frequency
    case Weekly => if |r.weekdays| == 0 then r.(weekdays := [Weekday(startsOn)]) else r
    case Monthly => if r.monthDay == 0 && r.ordinal == 0 then r.(monthDay := Day(startsOn)) else r
    case Yearly =>
      if r.month == 0 then r.(month := Month(startsOn), monthDay := Day(startsOn)) else r
    case _ => r
  }

  /** Every day of any year's month is a day of the same month in a leap year. */
  lemma LeapYearHoldsEveryDay(d: Date)
    ensures 1 <= Month(d) <= 12 && 1 <= Day(d) <= DaysInMonth(LEAP_YEAR, Month(d))
  {
    CivilOfDate(d);
    MonthSplit(d);
    hide MonthOf, MonthStart;
    var m := 12 * LEAP_YEAR + Month(d) - 1;
    GoInt.EuclidUnique(m, 12, LEAP_YEAR, Month(d) - 1);
    GoInt.EuclidUnique(MonthOf(d), 12, Year(d), Month(d) - 1);
  }

  /** Anchoring keeps a rule expressible as text, completes it, and is settled after one application. */
  lemma AnchoredCloses(r: RepeatRule, startsOn: Date, later: Date)
    requires WellFormed(r)
    ensures WellFormed(Anchored(r, startsOn)) && Complete(Anchored(r, startsOn))
    ensures Anchored(Anchored(r, startsOn), later) == Anchored(r, startsOn)
    ensures Complete(r) ==> Anchored(r, startsOn) == r
  {
    LeapYearHoldsEveryDay(startsOn);
    hide MonthOf, MonthStart, MonthLength;
  }

  datatype RepeatSchedule = RepeatSchedule(rule: RepeatRule, startsOn: Date)

  function NewRepeatSchedule(rule: RepeatRule, startsOn: Date): RepeatSchedule {
    RepeatSchedule(Anchored(rule, startsOn), startsOn)
  }

  function Every(r: RepeatRule): (n: int)
    ensures n >= 1
  {
    GoInt.Max(r.interval, 1)
  }

  /** The rule's fields fix the day: what anchoring guarantees, for any interval. */
  predicate Placed(r: RepeatRule) {
    match r.frequency
    case Daily => true
    case Weekly => exists w :: w in r.weekdays && IsWeekday(w)
    case Monthly =>
      if r.ordinal == 0 then r.monthDay == -1 || r.monthDay >= 1
      else (r.ordinal == -1 || 1 <= r.ordinal <= 4) && IsWeekday(r.weekday)
    case Yearly => 1 <= r.month <= 12 && r.monthDay >= 1
    case _ => false
  }

  lemma CompleteIsPlaced(r: RepeatRule)
    requires WellFormed(r) && Complete(r)
    ensures Placed(r)
  {
    if r.frequency == Weekly {
      assert r.weekdays[0] in r.weekdays;
    }
  }

  /** Every well-formed rule can be searched once it is anchored, so its schedule never lacks a next date. */
  lemma AnchoredIsPlaced(r: RepeatRule, startsOn: Date)
    requires WellFormed(r)
    ensures Placed(NewRepeatSchedule(r, startsOn).rule)
  {
    hide WellFormed, Complete, Anchored, Placed;
    AnchoredCloses(r, startsOn, startsOn);
    CompleteIsPlaced(Anchored(r, startsOn));
  }

  predicate LastOfMonth(d: Date) { MonthOf(d + 1) != MonthOf(d) }

  /** The given day of the month, or the last day of a month too short to have it. */
  predicate OnMonthDay(day: int, d: Date) {
    Day(d) == day || (Day(d) < day && LastOfMonth(d))
  }

  /** Which days of its month a monthly rule names, read off the calendar around the day. */
  predicate OnMonthlyDay(r: RepeatRule, d: Date) {
    if r.ordinal == -1 then
      Weekday(d) == r.weekday && MonthOf(d + 7) != MonthOf(d)
    else if r.ordinal > 0 then
      && Weekday(d) == r.weekday
      && MonthOf(d - 7 * (r.ordinal - 1)) == MonthOf(d)
      && MonthOf(d - 7 * r.ordinal) != MonthOf(d)
    else if r.monthDay == -1 then LastOfMonth(d)
    else OnMonthDay(r.monthDay, d)
  }

  function MondayOf(d: Date): Date { d - MondayIndex(Weekday(d)) }

  /** The dates that belong to a schedule, said without any search. */
  predicate Occurs(s: RepeatSchedule, d: Date) {
    && s.startsOn <= d
    && match s.rule.frequency
       case Daily => (d - s.startsOn) % Every(s.rule) == 0
       case Weekly =>
         && (MondayOf(d) - MondayOf(s.startsOn)) / 7 % Every(s.rule) == 0
         && Weekday(d) in s.rule.weekdays
       case Monthly =>
         && (12 * (Year(d) - Year(s.startsOn)) + Month(d) - Month(s.startsOn)) % Every(s.rule) == 0
         && OnMonthlyDay(s.rule, d)
       case Yearly =>
         && (Year(d) - Year(s.startsOn)) % Every(s.rule) == 0
         && Month(d) == s.rule.month
         && OnMonthDay(s.rule.monthDay, d)
       case _ => false
  }

  /** d is the earliest date of the schedule that is not before from. */
  ghost predicate IsFirst(s: RepeatSchedule, from: Date, d: Date) {
    && from <= d
    && Occurs(s, d)
    && forall e | from <= e < d :: !Occurs(s, e)
  }

  lemma FirstIsUnique(s: RepeatSchedule, from: Date, d: Date, e: Date)
    requires IsFirst(s, from, d) && IsFirst(s, from, e)
    ensures d == e
  {
  }

  /** A rule that leaves its day to the start date, the shorthands among them, falls on the start date. */
  lemma AnchoredStartsOnStart(r: RepeatRule, startsOn: Date)
    requires WellFormed(r) && (!Complete(r) || r.frequency == Daily)
    ensures IsFirst(NewRepeatSchedule(r, startsOn), startsOn, startsOn)
  {
    hide MonthOf, MonthStart, MonthLength;
  }
}
