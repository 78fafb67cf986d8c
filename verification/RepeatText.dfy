/** Rule text: reading it, writing it, and the two undoing each other. */
module RepeatText {
  import opened Calendar
  import opened RepeatRules
  import opened GoText
  import opened Wrappers

  const MAX_RULE_LENGTH := 200

  datatype RepeatError =
    | RuleRequired
    | RuleTooLong
    | ExpectedKeyValue(part: string)
    | GivenTwice(key: string)
    | UnsupportedKey(key: string)
    | BadInterval
    | DailyTakesOnlyInterval
    | WeeklyTakesOnlyByDay
    | BadWeeklyByDay
    | MonthlyTakesNoByMonth
    | MonthlyTakesOneOf
    | BadMonthlyByMonthDay
    | BadMonthlyByDay
    | YearlyTakesNoByDay
    | YearlyTakesBoth
    | BadByMonth
    | BadYearlyByMonthDay
    | FreqRequired
    | BadFreq

  /** Text after "CRON:" goes to a parser that is not part of this model. */
  datatype Parsed = Rule(rule: RepeatRule) | CronText(expression: string) | Invalid(error: RepeatError)

  // ----- Reading -----

  function WeekdayOfCode(code: string): (day: Option<int>)
    ensures day.Some? ==> IsWeekday(day.value)
  {
    if code == "MO" then Some(1) else if code == "TU" then Some(2) else if code == "WE" then Some(3)
    else if code == "TH" then Some(4) else if code == "FR" then Some(5) else if code == "SA" then Some(6)
    else if code == "SU" then Some(0) else None
  }

  function FrequencyOf(value: string): Frequency {
    if value == "DAILY" then Daily else if value == "WEEKLY" then Weekly
    else if value == "MONTHLY" then Monthly else if value == "YEARLY" then Yearly
    else Other(value)
  }

  /** What the loop over parts has gathered so far. */
  datatype Fields = Fields(
    frequency: Frequency,
    interval: int,
    byDay: string,
    byMonthDay: string,
    byMonth: string,
    seen: set<string>)

  const NO_FIELDS := Fields(Unset, 1, "", "", "", {})

  function Assign(f: Fields, key: string, value: string): Result<Fields, RepeatError> {
    if key == "FREQ" then Ok(f.(frequency := FrequencyOf(value)))
    else if key == "INTERVAL" then
      (match Atoi(value)
       case Some(n) => if n < 1 || n > MAX_INTERVAL then Err(BadInterval) else Ok(f.(interval := n))
       case None => Err(BadInterval))
    else if key == "BYDAY" then Ok(f.(byDay := value))
    else if key == "BYMONTHDAY" then Ok(f.(byMonthDay := value))
    else if key == "BYMONTH" then Ok(f.(byMonth := value))
    else Err(UnsupportedKey(key))
  }

  function ReadPart(f: Fields, raw: string): Result<Fields, RepeatError> {
    var part := TrimSpace(raw);
    if part == "" then Ok(f)
    else
      var (rawKey, rawValue, found) := Cut(part, '=');
      var key, value := ToUpper(TrimSpace(rawKey)), ToUpper(TrimSpace(rawValue));
      if !found || value == "" then Err(ExpectedKeyValue(part))
      else if key in f.seen then Err(GivenTwice(key))
      else Assign(f.(seen := f.seen + {key}), key, value)
  }

  function ReadParts(f: Fields, parts: seq<string>): Result<Fields, RepeatError>
    decreases |parts|
  {
    if parts == [] then Ok(f)
    else match ReadPart(f, parts[0])
      case Err(e) => Err(e)
      case Ok(g) => ReadParts(g, parts[1..])
  }

  /** The days named by the codes, in order of first mention, added to those already found. */
  function CollectDays(codes: seq<string>, days: seq<int>): Result<seq<int>, RepeatError> {
    if codes == [] then Ok(days)
    else match WeekdayOfCode(TrimSpace(codes[0]))
      case None => Err(BadWeeklyByDay)
      case Some(day) => CollectDays(codes[1..], if day in days then days else days + [day])
  }

  function InsertDay(day: int, sorted: seq<int>): seq<int> {
    if sorted == [] || MondayIndex(day) < MondayIndex(sorted[0]) then [day] + sorted
    else [sorted[0]] + InsertDay(day, sorted[1..])
  }

  function SortWeekdays(days: seq<int>): seq<int> {
    if days == [] then [] else InsertDay(days[0], SortWeekdays(days[1..]))
  }

  function OrdinalWeekday(raw: string): Result<(int, int), RepeatError> {
    if |raw| < 3 || ',' in raw then Err(BadMonthlyByDay)
    else match (WeekdayOfCode(raw[|raw| - 2..]), Atoi(raw[..|raw| - 2]))
      case (Some(day), Some(ordinal)) =>
        if ordinal != LAST && (ordinal < 1 || ordinal > 4) then Err(BadMonthlyByDay) else Ok((ordinal, day))
      case (_, _) => Err(BadMonthlyByDay)
  }

  function FinishWeekly(f: Fields): Result<RepeatRule, RepeatError> {
    if f.byMonthDay != "" || f.byMonth != "" then Err(WeeklyTakesOnlyByDay)
    else if f.byDay == "" then Ok(PlainRule(Weekly, f.interval))
    else match CollectDays(Split(f.byDay, ','), [])
      case Err(e) => Err(e)
      case Ok(days) => Ok(PlainRule(Weekly, f.interval).(weekdays := SortWeekdays(days)))
  }

  function FinishMonthly(f: Fields): Result<RepeatRule, RepeatError> {
    var rule := PlainRule(Monthly, f.interval);
    if f.byMonth != "" then Err(MonthlyTakesNoByMonth)
    else if f.byDay != "" && f.byMonthDay != "" then Err(MonthlyTakesOneOf)
    else if f.byMonthDay != "" then
      match Atoi(f.byMonthDay)
      case None => Err(BadMonthlyByMonthDay)
      case Some(day) =>
        if day != LAST && (day < 1 || day > 31) then Err(BadMonthlyByMonthDay) else Ok(rule.(monthDay := day))
    else if f.byDay != "" then
      match OrdinalWeekday(f.byDay)
      case Err(e) => Err(e)
      case Ok((ordinal, weekday)) => Ok(rule.(ordinal := ordinal, weekday := weekday))
    else Ok(rule)
  }

  function FinishYearly(f: Fields): Result<RepeatRule, RepeatError> {
    var rule := PlainRule(Yearly, f.interval);
    if f.byDay != "" then Err(YearlyTakesNoByDay)
    else if (f.byMonth == "") != (f.byMonthDay == "") then Err(YearlyTakesBoth)
    else if f.byMonth == "" then Ok(rule)
    else
      var month := Atoi(f.byMonth);
      if month.None? || month.value < 1 || month.value > 12 then Err(BadByMonth)
      else
        var day := Atoi(f.byMonthDay);
        if day.None? || day.value < 1 || day.value > DaysInMonth(LEAP_YEAR, month.value) then Err(BadYearlyByMonthDay)
        else Ok(rule.(month := month.value, monthDay := day.value))
  }

  function Finish(f: Fields): Result<RepeatRule, RepeatError> {
    match f.frequency
    case Daily =>
      if f.byDay != "" || f.byMonthDay != "" || f.byMonth != "" then Err(DailyTakesOnlyInterval)
      else Ok(PlainRule(Daily, f.interval))
    case Weekly => FinishWeekly(f)
    case Monthly => FinishMonthly(f)
    case Yearly => FinishYearly(f)
    case Unset => Err(FreqRequired)
    case Other(_) => Err(BadFreq)
  }

  function ParseRRule(text: string): Result<RepeatRule, RepeatError> {
    match ReadParts(NO_FIELDS, Split(text, ';'))
    case Err(e) => Err(e)
    case Ok(f) => Finish(f)
  }

  function Parse(raw: string): Parsed {
    var text := TrimSpace(raw);
    var lower := ToLower(text);
    if text == "" then Invalid(RuleRequired)
    else if ByteLen(text) > MAX_RULE_LENGTH then Invalid(RuleTooLong)
    else if lower == "daily" then Rule(PlainRule(Daily, 1))
    else if lower == "weekdays" then Rule(PlainRule(Weekly, 1).(weekdays := [1, 2, 3, 4, 5]))
    else if lower == "weekly" then Rule(PlainRule(Weekly, 1))
    else if lower == "monthly" then Rule(PlainRule(Monthly, 1))
    else if lower == "yearly" then Rule(PlainRule(Yearly, 1))
    else if HasPrefixFold(text, "CRON:") then CronText(text[5..])
    else match ParseRRule(if HasPrefixFold(text, "RRULE:") then text[6..] else text)
      case Ok(rule) => Rule(rule)
      case Err(e) => Invalid(e)
  }

  // ----- Every accepted rule is well formed -----

  predicate Distinct(days: seq<int>) {
    && (forall i | 0 <= i < |days| :: IsWeekday(days[i]))
    && (forall i, j | 0 <= i < j < |days| :: days[i] != days[j])
  }

  lemma {:induction false} CollectedDistinct(codes: seq<string>, days: seq<int>)
    requires Distinct(days)
    ensures CollectDays(codes, days).Ok? ==> Distinct(CollectDays(codes, days).value)
  {
    if codes != [] {
      var day := WeekdayOfCode(TrimSpace(codes[0]));
      if day.Some? {
        CollectedDistinct(codes[1..], if day.value in days then days else days + [day.value]);
      }
    }
  }

  lemma {:induction false} InsertedMembers(day: int, sorted: seq<int>)
    ensures multiset(InsertDay(day, sorted)) == multiset(sorted) + multiset{day}
    ensures forall i | 0 <= i < |InsertDay(day, sorted)| ::
              InsertDay(day, sorted)[i] == day || InsertDay(day, sorted)[i] in sorted
  {
    if sorted != [] && MondayIndex(day) >= MondayIndex(sorted[0]) {
      assert sorted == [sorted[0]] + sorted[1..];
      InsertedMembers(day, sorted[1..]);
    }
  }

  lemma Prepend(first: int, rest: seq<int>)
    requires IsWeekday(first) && MondayFirst(rest)
    requires forall i | 0 <= i < |rest| :: MondayIndex(first) < MondayIndex(rest[i])
    ensures MondayFirst([first] + rest)
  {
    hide MondayIndex, IsWeekday;
    var all := [first] + rest;
    assert all[0] == first && forall i | 0 < i < |all| :: all[i] == rest[i - 1];
  }

  lemma TailOrdered(sorted: seq<int>)
    requires MondayFirst(sorted) && sorted != []
    ensures MondayFirst(sorted[1..])
    ensures forall i | 0 <= i < |sorted[1..]| :: MondayIndex(sorted[0]) < MondayIndex(sorted[1..][i])
  {
    hide MondayIndex, IsWeekday;
    var rest := sorted[1..];
    assert forall i | 0 <= i < |rest| :: rest[i] == sorted[i + 1];
  }

  lemma OtherDay(a: int, b: int)
    requires IsWeekday(a) && IsWeekday(b) && a != b
    ensures MondayIndex(a) != MondayIndex(b)
  {
  }

  lemma {:induction false} InsertKeepsOrder(day: int, sorted: seq<int>)
    requires IsWeekday(day) && MondayFirst(sorted) && day !in sorted
    ensures MondayFirst(InsertDay(day, sorted))
  {
    hide MondayIndex, IsWeekday;
    if sorted != [] {
      var first, rest := sorted[0], sorted[1..];
      TailOrdered(sorted);
      if MondayIndex(day) < MondayIndex(first) {
        assert forall i | 0 <= i < |sorted| :: i == 0 || sorted[i] == rest[i - 1];
        Prepend(day, sorted);
      } else {
        InsertKeepsOrder(day, rest);
        InsertedMembers(day, rest);
        OtherDay(day, first);
        Prepend(first, InsertDay(day, rest));
      }
    }
  }

  /** Distinct weekdays come out the same days, Monday first. */
  lemma {:induction false} SortedMondayFirst(days: seq<int>)
    requires Distinct(days)
    ensures MondayFirst(SortWeekdays(days)) && multiset(SortWeekdays(days)) == multiset(days)
  {
    if days != [] {
      var rest := SortWeekdays(days[1..]);
      assert days == [days[0]] + days[1..];
      SortedMondayFirst(days[1..]);
      assert days[0] !in multiset(days[1..]);
      assert days[0] !in multiset(rest);
      InsertKeepsOrder(days[0], rest);
      InsertedMembers(days[0], rest);
    }
  }

  lemma {:induction false} IntervalInRange(f: Fields, parts: seq<string>)
    requires 1 <= f.interval <= MAX_INTERVAL
    ensures ReadParts(f, parts).Ok? ==> 1 <= ReadParts(f, parts).value.interval <= MAX_INTERVAL
    decreases |parts|
  {
    hide TrimSpace, Cut, ToUpper, Atoi;
    if parts != [] {
      var next := ReadPart(f, parts[0]);
      if next.Ok? {
        IntervalInRange(next.value, parts[1..]);
      }
    }
  }

  lemma FinishWellFormed(f: Fields)
    requires 1 <= f.interval <= MAX_INTERVAL
    ensures Finish(f).Ok? ==> WellFormed(Finish(f).value)
  {
    hide Atoi, Split, WeekdayOfCode, DaysInMonth, SortWeekdays, CollectDays, MondayFirst;
    if f.frequency == Weekly {
      if f.byDay == "" {
        EmptyWeek();
      } else {
        var days := CollectDays(Split(f.byDay, ','), []);
        CollectedDistinct(Split(f.byDay, ','), []);
        if days.Ok? {
          SortedMondayFirst(days.value);
        }
      }
    }
  }

  lemma EmptyWeek()
    ensures MondayFirst([])
  {
  }

  lemma ParsedRRuleWellFormed(text: string)
    ensures ParseRRule(text).Ok? ==> WellFormed(ParseRRule(text).value)
  {
    hide ReadParts, Finish, Split, WellFormed;
    IntervalInRange(NO_FIELDS, Split(text, ';'));
    var fields := ReadParts(NO_FIELDS, Split(text, ';'));
    if fields.Ok? {
      FinishWellFormed(fields.value);
    }
  }

  lemma ShorthandsWellFormed()
    ensures WellFormed(PlainRule(Daily, 1)) && WellFormed(PlainRule(Monthly, 1)) && WellFormed(PlainRule(Yearly, 1))
    ensures WellFormed(PlainRule(Weekly, 1))
    ensures WellFormed(PlainRule(Weekly, 1).(weekdays := [1, 2, 3, 4, 5]))
  {
    EmptyWeek();
  }

  /** Whatever text is accepted, the rule it denotes is well formed. */
  lemma AcceptedIsWellFormed(raw: string)
    requires Parse(raw).Rule?
    ensures WellFormed(Parse(raw).rule)
  {
    hide TrimSpace, ToLower, ByteLen, ParseRRule, WellFormed;
    var text := TrimSpace(raw);
    ShorthandsWellFormed();
    ParsedRRuleWellFormed(text);
    if HasPrefixFold(text, "RRULE:") {
      ParsedRRuleWellFormed(text[6..]);
    }
  }

  // ----- Writing -----

  /** The first two letters of a day's name; numbers that are no day have none. */
  function WeekdayCode(day: int): (code: string)
    ensures |code| == 2
    ensures IsWeekday(day) ==> WeekdayOfCode(code) == Some(day) && forall i | 0 <= i < |code| :: 'A' <= code[i] <= 'Z'
  {
    match day
    case 0 => "SU"
    case 1 => "MO"
    case 2 => "TU"
    case 3 => "WE"
    case 4 => "TH"
    case 5 => "FR"
    case 6 => "SA"
    case _ => "%!"
  }

  function WeekdayCodes(days: seq<int>): (codes: seq<string>)
    ensures |codes| == |days| && forall i | 0 <= i < |days| :: codes[i] == WeekdayCode(days[i])
  {
    seq(|days|, i requires 0 <= i < |days| => WeekdayCode(days[i]))
  }

  function FrequencyName(frequency: Frequency): string {
    match frequency
    case Unset => ""
    case Daily => "DAILY"
    case Weekly => "WEEKLY"
    case Monthly => "MONTHLY"
    case Yearly => "YEARLY"
    case Other(name) => name
  }

  /** The settings that say which day, in the order the text writes them. */
  function DaySettings(r: RepeatRule): seq<(string, string)> {
    match r.frequency
    case Weekly => if |r.weekdays| > 0 then [("BYDAY", Join(WeekdayCodes(r.weekdays), ','))] else []
    case Monthly =>
      if r.ordinal != 0 then [("BYDAY", Itoa(r.ordinal) + WeekdayCode(r.weekday))]
      else if r.monthDay != 0 then [("BYMONTHDAY", Itoa(r.monthDay))]
      else []
    case Yearly =>
      if r.month != 0 then [("BYMONTH", Itoa(r.month)), ("BYMONTHDAY", Itoa(r.monthDay))] else []
    case _ => []
  }

  function IntervalSettings(r: RepeatRule): seq<(string, string)> {
    if r.interval > 1 then [("INTERVAL", Itoa(r.interval))] else []
  }

  function Settings(r: RepeatRule): seq<(string, string)> {
    [("FREQ", FrequencyName(r.frequency))] + IntervalSettings(r) + DaySettings(r)
  }

  function WriteSetting(key: string, value: string): string {
    key + ['='] + value
  }

  function WriteSettings(settings: seq<(string, string)>): (parts: seq<string>)
    ensures |parts| == |settings|
    ensures forall i | 0 <= i < |parts| :: parts[i] == WriteSetting(settings[i].0, settings[i].1)
  {
    seq(|settings|, i requires 0 <= i < |settings| => WriteSetting(settings[i].0, settings[i].1))
  }

  /** The rule's canonical text. */
  function Text(r: RepeatRule): string {
    Join(WriteSettings(Settings(r)), ';')
  }

  // ----- Reading back what was written -----

  predicate PlainSetting(setting: (string, string)) {
    Plain(setting.0) && setting.0 != "" && Plain(setting.1) && setting.1 != "" && |setting.0| + |setting.1| <= 40
  }

  predicate PlainSettings(settings: seq<(string, string)>) {
    forall i | 0 <= i < |settings| :: PlainSetting(settings[i])
  }

  function AssignAll(f: Fields, settings: seq<(string, string)>): Result<Fields, RepeatError>
    decreases |settings|
  {
    if settings == [] then Ok(f)
    else
      var (key, value) := settings[0];
      if key in f.seen then Err(GivenTwice(key))
      else match Assign(f.(seen := f.seen + {key}), key, value)
        case Err(e) => Err(e)
        case Ok(g) => AssignAll(g, settings[1..])
  }

  lemma ReadSetting(f: Fields, key: string, value: string)
    requires PlainSetting((key, value))
    ensures ReadPart(f, WriteSetting(key, value)) ==
            if key in f.seen then Err(GivenTwice(key)) else Assign(f.(seen := f.seen + {key}), key, value)
  {
    hide TrimSpace, Cut, ToUpper, Assign;
    var part := key + ['='] + value;
    PlainStays(key);
    PlainStays(value);
    CutAtFirst(key, value, '=');
    TrimKeeps(part);
  }

  lemma {:induction false} ReadSettings(f: Fields, settings: seq<(string, string)>)
    requires PlainSettings(settings)
    ensures ReadParts(f, WriteSettings(settings)) == AssignAll(f, settings)
    decreases |settings|
  {
    hide ReadPart, Assign, PlainSetting;
    if settings != [] {
      var (key, value) := settings[0];
      assert WriteSettings(settings)[1..] == WriteSettings(settings[1..]);
      ReadSetting(f, key, value);
      var next := ReadPart(f, WriteSetting(key, value));
      if next.Ok? {
        ReadSettings(next.value, settings[1..]);
      }
    }
  }

  lemma {:induction false} AssignAllSplits(f: Fields, a: seq<(string, string)>, b: seq<(string, string)>)
    ensures AssignAll(f, a + b) ==
            match AssignAll(f, a) case Err(e) => Err(e) case Ok(g) => AssignAll(g, b)
    decreases |a|
  {
    hide Assign;
    if a == [] {
      assert a + b == b;
    } else {
      var (key, value) := a[0];
      assert (a + b)[1..] == a[1..] + b;
      if key !in f.seen {
        var next := Assign(f.(seen := f.seen + {key}), key, value);
        if next.Ok? {
          AssignAllSplits(next.value, a[1..], b);
        }
      }
    }
  }

  lemma OneSetting(f: Fields, key: string, value: string)
    requires key !in f.seen
    ensures AssignAll(f, [(key, value)]) == Assign(f.(seen := f.seen + {key}), key, value)
  {
    hide Assign;
    var next := Assign(f.(seen := f.seen + {key}), key, value);
    if next.Ok? {
      assert AssignAll(next.value, []) == next;
    }
  }

  /** FREQ and INTERVAL as read back, before any day settings. */
  function HeadFields(r: RepeatRule): Fields {
    NO_FIELDS.(frequency := r.frequency, interval := r.interval,
               seen := if r.interval > 1 then {"FREQ", "INTERVAL"} else {"FREQ"})
  }

  lemma ReadHead(r: RepeatRule)
    requires 1 <= r.interval <= MAX_INTERVAL && FrequencyOf(FrequencyName(r.frequency)) == r.frequency
    ensures AssignAll(NO_FIELDS, [("FREQ", FrequencyName(r.frequency))] + IntervalSettings(r)) == Ok(HeadFields(r))
  {
    hide Atoi, Itoa, FrequencyOf, FrequencyName;
    var freq := [("FREQ", FrequencyName(r.frequency))];
    OneSetting(NO_FIELDS, "FREQ", FrequencyName(r.frequency));
    AtoiItoa(r.interval);
    assert {} + {"FREQ"} == {"FREQ"};
    if r.interval > 1 {
      var f := NO_FIELDS.(frequency := r.frequency, seen := {"FREQ"});
      assert {"FREQ"} + {"INTERVAL"} == {"FREQ", "INTERVAL"};
      OneSetting(f, "INTERVAL", Itoa(r.interval));
      AssignAllSplits(NO_FIELDS, freq, IntervalSettings(r));
    } else {
      assert freq + IntervalSettings(r) == freq;
    }
  }

  // ----- Day settings, frequency by frequency -----

  lemma {:induction false} SortStays(days: seq<int>)
    requires MondayFirst(days)
    ensures SortWeekdays(days) == days
  {
    hide MondayIndex;
    if days != [] {
      var rest := days[1..];
      assert MondayFirst(rest) by {
        assert forall i | 0 <= i < |rest| :: rest[i] == days[i + 1];
      }
      SortStays(rest);
      assert days == [days[0]] + rest;
      assert rest != [] ==> MondayIndex(days[0]) < MondayIndex(days[1]);
    }
  }

  lemma {:induction false} CollectCodes(days: seq<int>, found: seq<int>)
    requires Distinct(found + days)
    ensures CollectDays(WeekdayCodes(days), found) == Ok(found + days)
    decreases |days|
  {
    hide TrimSpace, WeekdayOfCode;
    if days == [] {
      assert found + days == found;
    } else {
      var codes := WeekdayCodes(days);
      assert codes[1..] == WeekdayCodes(days[1..]);
      assert (found + days)[|found|] == days[0];
      PlainStays(codes[0]);
      forall i | 0 <= i < |found| ensures found[i] != days[0] {
        assert (found + days)[i] == found[i];
      }
      assert found + days == found + [days[0]] + days[1..];
      CollectCodes(days[1..], found + [days[0]]);
    }
  }

  lemma {:induction false} AtMostSeven(days: seq<int>, i: nat)
    requires MondayFirst(days) && i < |days|
    ensures i <= MondayIndex(days[i])
    ensures |days| <= 7 - MondayIndex(days[i]) + i
    decreases |days| - i
  {
    if i + 1 < |days| {
      AtMostSeven(days, i + 1);
    }
    AtLeastItsPlace(days, i);
  }

  lemma {:induction false} AtLeastItsPlace(days: seq<int>, i: nat)
    requires MondayFirst(days) && i < |days|
    ensures i <= MondayIndex(days[i])
  {
    if i > 0 {
      AtLeastItsPlace(days, i - 1);
    }
  }

  lemma {:induction false} JoinLength(parts: seq<string>, sep: char, width: nat)
    requires forall i | 0 <= i < |parts| :: |parts[i]| <= width
    ensures |Join(parts, sep)| <= (width + 1) * |parts|
    ensures |parts| > 0 ==> |Join(parts, sep)| >= |parts[0]|
  {
    if |parts| > 1 {
      JoinLength(parts[1..], sep, width);
      assert (width + 1) * |parts| == (width + 1) * |parts[1..]| + width + 1;
    }
  }

  lemma CodesArePlain(days: seq<int>)
    requires forall i | 0 <= i < |days| :: IsWeekday(days[i])
    ensures forall i | 0 <= i < |days| ::
              Plain(WeekdayCodes(days)[i]) && ',' !in WeekdayCodes(days)[i] && |WeekdayCodes(days)[i]| == 2
  {
    hide WeekdayCode, WeekdayOfCode;
  }

  lemma WeekCodes(days: seq<int>)
    requires MondayFirst(days) && days != []
    ensures var text := Join(WeekdayCodes(days), ',');
            && 0 < |text| <= 21 && Plain(text)
            && CollectDays(Split(text, ','), []) == Ok(days)
            && SortWeekdays(days) == days
  {
    hide Split, SortWeekdays, CollectDays, Join, WeekdayCode, WeekdayCodes;
    var codes := WeekdayCodes(days);
    CodesArePlain(days);
    SplitJoin(codes, ',');
    AtMostSeven(days, 0);
    JoinLength(codes, ',', 2);
    JoinPlain(codes, ',', c => PlainChar(c));
    SortStays(days);
    assert [] + days == days;
    CollectCodes(days, []);
  }

  lemma SmallNumber(n: int)
    requires -1 <= n <= 99
    ensures 1 <= |Itoa(n)| <= 2 && Plain(Itoa(n)) && ',' !in Itoa(n) && Atoi(Itoa(n)) == Some(n)
  {
    AtoiItoa(n);
    var digits := Digits(if n < 0 then -n else n);
    assert n >= 10 ==> Digits(n / 10) == [DigitChar(n / 10)];
    assert forall i | 0 <= i < |digits| :: digits[i] in digits;
  }

  lemma OrdinalReadsBack(ordinal: int, weekday: int)
    requires (ordinal == LAST || 1 <= ordinal <= 4) && IsWeekday(weekday)
    ensures var text := Itoa(ordinal) + WeekdayCode(weekday);
            0 < |text| <= 4 && Plain(text) && OrdinalWeekday(text) == Ok((ordinal, weekday))
  {
    hide Itoa, Atoi, WeekdayOfCode, WeekdayCode;
    SmallNumber(ordinal);
    var number, code := Itoa(ordinal), WeekdayCode(weekday);
    var text := number + code;
    assert text[|text| - 2..] == code && text[..|text| - 2] == number;
    assert forall c | c in code :: 'A' <= c <= 'Z';
  }

  ghost predicate ReadsBack(r: RepeatRule) {
    var f := AssignAll(HeadFields(r), DaySettings(r));
    PlainSettings(DaySettings(r)) && |DaySettings(r)| <= 2 && f.Ok? && Finish(f.value) == Ok(r)
  }

  lemma WeeklyReadsBack(r: RepeatRule)
    requires WellFormed(r) && r.frequency == Weekly
    ensures ReadsBack(r)
  {
    hide Split, SortWeekdays, CollectDays, Join, WeekdayCodes, MondayFirst, AssignAll, Atoi;
    if |r.weekdays| > 0 {
      WeekCodes(r.weekdays);
      OneSetting(HeadFields(r), "BYDAY", Join(WeekdayCodes(r.weekdays), ','));
    } else {
      NoSettings(HeadFields(r));
    }
  }

  lemma MonthlyReadsBack(r: RepeatRule)
    requires WellFormed(r) && r.frequency == Monthly
    ensures ReadsBack(r)
  {
    hide Itoa, Atoi, OrdinalWeekday, WeekdayCode, AssignAll, MondayFirst;
    if r.ordinal != 0 {
      OrdinalReadsBack(r.ordinal, r.weekday);
      OneSetting(HeadFields(r), "BYDAY", Itoa(r.ordinal) + WeekdayCode(r.weekday));
    } else if r.monthDay != 0 {
      SmallNumber(r.monthDay);
      OneSetting(HeadFields(r), "BYMONTHDAY", Itoa(r.monthDay));
    } else {
      NoSettings(HeadFields(r));
    }
  }

  lemma YearlyReadsBack(r: RepeatRule)
    requires WellFormed(r) && r.frequency == Yearly
    ensures ReadsBack(r)
  {
    hide Itoa, Atoi, AssignAll, DaysInMonth;
    var head := HeadFields(r);
    if r.month != 0 {
      var month, day := ("BYMONTH", Itoa(r.month)), ("BYMONTHDAY", Itoa(r.monthDay));
      SmallNumber(r.month);
      SmallNumber(r.monthDay);
      OneSetting(head, month.0, month.1);
      var mid := head.(byMonth := month.1, seen := head.seen + {"BYMONTH"});
      OneSetting(mid, day.0, day.1);
      AssignAllSplits(head, [month], [day]);
      assert DaySettings(r) == [month] + [day];
    } else {
      NoSettings(head);
    }
  }

  /** A well-formed rule's day settings are plain, and finishing from them gives back the rule. */
  lemma DaySettingsReadBack(r: RepeatRule)
    requires WellFormed(r)
    ensures ReadsBack(r)
  {
    match r.frequency
    case Weekly => WeeklyReadsBack(r);
    case Monthly => MonthlyReadsBack(r);
    case Yearly => YearlyReadsBack(r);
    case Daily => NoSettings(HeadFields(r));
  }

  lemma NoSettings(f: Fields)
    ensures AssignAll(f, []) == Ok(f)
  {
  }

  lemma SettingsReadBack(r: RepeatRule)
    requires WellFormed(r)
    ensures PlainSettings(Settings(r)) && 1 <= |Settings(r)| <= 4
    ensures ReadParts(NO_FIELDS, WriteSettings(Settings(r))).Ok?
    ensures Finish(ReadParts(NO_FIELDS, WriteSettings(Settings(r))).value) == Ok(r)
  {
    hide Itoa, Atoi, ReadParts, AssignAll, Assign, Finish, DaySettings, MondayFirst;
    DaySettingsReadBack(r);
    ReadHead(r);
    SmallNumber(r.interval);
    AssignAllSplits(NO_FIELDS, [("FREQ", FrequencyName(r.frequency))] + IntervalSettings(r), DaySettings(r));
    ReadSettings(NO_FIELDS, Settings(r));
  }

  // ----- The round trip -----

  lemma TextShape(r: RepeatRule)
    requires WellFormed(r)
    ensures var text := Text(r);
            && 5 <= |text| <= MAX_RULE_LENGTH && text[..5] == "FREQ="
            && (forall i | 0 <= i < |text| :: PlainChar(text[i]) || text[i] == ';' || text[i] == '=')
            && Split(text, ';') == WriteSettings(Settings(r))
  {
    hide Itoa, Atoi, ReadParts, AssignAll, Assign, Finish, DaySettings, MondayFirst, Split, IntervalSettings;
    SettingsReadBack(r);
    var settings := Settings(r);
    var parts := WriteSettings(settings);
    assert forall i | 0 <= i < |settings| :: PlainSetting(settings[i]);
    forall i | 0 <= i < |parts| ensures ';' !in parts[i] && |parts[i]| <= 41 {
      PlainStays(settings[i].0);
      PlainStays(settings[i].1);
    }
    SplitJoin(parts, ';');
    JoinLength(parts, ';', 41);
    JoinPlain(parts, ';', c => PlainChar(c) || c == ';' || c == '=');
    assert parts[0][..5] == "FREQ=";
    assert |parts| > 1 ==> Text(r) == parts[0] + [';'] + Join(parts[1..], ';');
  }

  lemma TextIsRRule(r: RepeatRule)
    requires WellFormed(r)
    ensures ParseRRule(Text(r)) == Ok(r)
  {
    hide Text, Split, ReadParts, Finish, WriteSettings, Settings, WellFormed;
    TextShape(r);
    SettingsReadBack(r);
  }

  /** Any well-formed rule is read back from its own text, which is within the length limit. */
  lemma TextReadsBack(r: RepeatRule)
    requires WellFormed(r)
    ensures Parse(Text(r)) == Rule(r) && ByteLen(Text(r)) <= 200
  {
    hide Text, Split, TrimSpace, ByteLen, ReadParts, Finish, WriteSettings, Settings;
    TextShape(r);
    SettingsReadBack(r);
    var text := Text(r);
    assert text[4] == text[..5][4] == '=';
    assert text[0] == text[..5][0] == 'F';
    TrimKeeps(text);
    AsciiBytes(text);
    assert ToLower(text)[4] == '=';
    assert !HasPrefixFold(text, "CRON:") && !HasPrefixFold(text, "RRULE:");
  }

  /** Reading, writing and reading again changes nothing: for every accepted text. */
  lemma ParseTextRoundTrip(raw: string)
    requires Parse(raw).Rule?
    ensures Parse(Text(Parse(raw).rule)) == Parse(raw)
    ensures ByteLen(Text(Parse(raw).rule)) <= 200
  {
    hide Parse, Text, WellFormed;
    AcceptedIsWellFormed(raw);
    TextReadsBack(Parse(raw).rule);
  }

  /** The well-formed rules are exactly those some text denotes. */
  lemma WellFormedIffDenoted(r: RepeatRule)
    ensures WellFormed(r) <==> exists raw :: Parse(raw) == Rule(r)
  {
    hide Parse, Text, WellFormed;
    if WellFormed(r) {
      TextReadsBack(r);
    }
    if raw :| Parse(raw) == Rule(r) {
      AcceptedIsWellFormed(raw);
    }
  }

  /** Canonical text tells rules apart. */
  lemma TextInjective(a: RepeatRule, b: RepeatRule)
    requires WellFormed(a) && WellFormed(b) && Text(a) == Text(b)
    ensures a == b
  {
    hide Parse, Text, WellFormed;
    TextReadsBack(a);
    TextReadsBack(b);
  }

  /** Anchoring a parsed rule gives a complete rule that its own text still denotes. */
  lemma AnchoredReadsBack(raw: string, startsOn: Date)
    requires Parse(raw).Rule?
    ensures var anchored := Anchored(Parse(raw).rule, startsOn);
            Complete(anchored) && Parse(Text(anchored)) == Rule(anchored)
  {
    hide Parse, Text, WellFormed, Anchored, Complete;
    AcceptedIsWellFormed(raw);
    AnchoredCloses(Parse(raw).rule, startsOn, startsOn);
    TextReadsBack(Anchored(Parse(raw).rule, startsOn));
  }
}
