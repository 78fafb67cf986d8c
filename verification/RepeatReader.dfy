/** The loops that read and write rule text, proved to compute the text functions. */
module RepeatReader {
  import opened Calendar
  import opened RepeatRules
  import opened RepeatText
  import opened GoText
  import opened Wrappers

  /** The weekday codes of a weekly BYDAY, collected once each and sorted Monday first. */
  method ReadWeekdays(byDay: string) returns (r: Result<seq<int>, RepeatError>)
    ensures r == match CollectDays(Split(byDay, ','), [])
                 case Err(e) => Err(e)
                 case Ok(days) => Ok(SortWeekdays(days))
  {
    hide TrimSpace, WeekdayOfCode, SortWeekdays, Split;
    var codes := Split(byDay, ',');
    var days := [];
    for i := 0 to |codes|
      invariant CollectDays(codes, []) == CollectDays(codes[i..], days)
    {
      assert codes[i..][1..] == codes[i + 1..];
      var day := WeekdayOfCode(TrimSpace(codes[i]));
      if day == None {
        return Err(BadWeeklyByDay);
      }
      if day.value !in days {
        days := days + [day.value];
      }
    }
    return Ok(SortWeekdays(days));
  }

  method ReadRRule(text: string) returns (r: Result<RepeatRule, RepeatError>)
    ensures r == ParseRRule(text)
  {
    hide TrimSpace, Cut, ToUpper, Atoi, Split, Finish;
    var rule := PlainRule(Unset, 1);
    var seen: set<string> := {};
    var byDay, byMonthDay, byMonth := "", "", "";
    var parts := Split(text, ';');
    for i := 0 to |parts|
      invariant rule == PlainRule(rule.frequency, rule.interval)
      invariant ReadParts(NO_FIELDS, parts) ==
                ReadParts(Fields(rule.frequency, rule.interval, byDay, byMonthDay, byMonth, seen), parts[i..])
    {
      assert parts[i..][1..] == parts[i + 1..];
      var part := TrimSpace(parts[i]);
      if part != "" {
        var (rawKey, rawValue, ok) := Cut(part, '=');
        var key, value := ToUpper(TrimSpace(rawKey)), ToUpper(TrimSpace(rawValue));
        if !ok || value == "" {
          return Err(ExpectedKeyValue(part));
        }
        if key in seen {
          return Err(GivenTwice(key));
        }
        seen := seen + {key};
        if key == "FREQ" {
          rule := rule.(frequency := FrequencyOf(value));
        } else if key == "INTERVAL" {
          var n := Atoi(value);
          if n == None || n.value < 1 || n.value > MAX_INTERVAL {
            return Err(BadInterval);
          }
          rule := rule.(interval := n.value);
        } else if key == "BYDAY" {
          byDay := value;
        } else if key == "BYMONTHDAY" {
          byMonthDay := value;
        } else if key == "BYMONTH" {
          byMonth := value;
        } else {
          return Err(UnsupportedKey(key));
        }
      }
    }
    r := FinishRule(rule, byDay, byMonthDay, byMonth, seen);
  }

  /** The checks of each frequency's settings once every part has been read. */
  method FinishRule(plain: RepeatRule, byDay: string, byMonthDay: string, byMonth: string, ghost seen: set<string>)
    returns (r: Result<RepeatRule, RepeatError>)
    requires plain == PlainRule(plain.frequency, plain.interval)
    ensures r == Finish(Fields(plain.frequency, plain.interval, byDay, byMonthDay, byMonth, seen))
  {
    hide Atoi, OrdinalWeekday, DaysInMonth, SortWeekdays, CollectDays, Split;
    var rule := plain;
    match rule.frequency
    case Daily =>
      if byDay != "" || byMonthDay != "" || byMonth != "" {
        return Err(DailyTakesOnlyInterval);
      }
      return Ok(rule);
    case Weekly =>
      if byMonthDay != "" || byMonth != "" {
        return Err(WeeklyTakesOnlyByDay);
      }
      if byDay != "" {
        var days := ReadWeekdays(byDay);
        if days.Err? {
          return Err(days.error);
        }
        rule := rule.(weekdays := days.value);
      }
      return Ok(rule);
    case Monthly =>
      if byMonth != "" {
        return Err(MonthlyTakesNoByMonth);
      }
      if byDay != "" && byMonthDay != "" {
        return Err(MonthlyTakesOneOf);
      }
      if byMonthDay != "" {
        var day := Atoi(byMonthDay);
        if day == None || (day.value != LAST && (day.value < 1 || day.value > 31)) {
          return Err(BadMonthlyByMonthDay);
        }
        rule := rule.(monthDay := day.value);
      }
      if byDay != "" {
        var parsed := OrdinalWeekday(byDay);
        if parsed.Err? {
          return Err(parsed.error);
        }
        rule := rule.(ordinal := parsed.value.0, weekday := parsed.value.1);
      }
      return Ok(rule);
    case Yearly =>
      if byDay != "" {
        return Err(YearlyTakesNoByDay);
      }
      if (byMonth == "") != (byMonthDay == "") {
        return Err(YearlyTakesBoth);
      }
      if byMonth != "" {
        var month := Atoi(byMonth);
        if month == None || month.value < 1 || month.value > 12 {
          return Err(BadByMonth);
        }
        var day := Atoi(byMonthDay);
        if day == None || day.value < 1 || day.value > DaysInMonth(LEAP_YEAR, month.value) {
          return Err(BadYearlyByMonthDay);
        }
        rule := rule.(month := month.value, monthDay := day.value);
      }
      return Ok(rule);
    case Unset =>
      return Err(FreqRequired);
    case Other(_) =>
      return Err(BadFreq);
  }

  /** Reading rule text: whatever is accepted is well formed and read back unchanged from its canonical text. */
  method ParseRepeatRule(raw: string) returns (r: Parsed)
    ensures r == Parse(raw)
    ensures r.Rule? ==> WellFormed(r.rule) && Parse(Text(r.rule)) == r
  {
    hide TrimSpace, ToLower, ByteLen, HasPrefixFold, ParseRRule, Text, WellFormed;
    if Parse(raw).Rule? {
      AcceptedIsWellFormed(raw);
      ParseTextRoundTrip(raw);
    }
    var text := TrimSpace(raw);
    if text == "" {
      return Invalid(RuleRequired);
    }
    if ByteLen(text) > MAX_RULE_LENGTH {
      return Invalid(RuleTooLong);
    }
    var lower := ToLower(text);
    if lower == "daily" {
      return Rule(PlainRule(Daily, 1));
    } else if lower == "weekdays" {
      return Rule(PlainRule(Weekly, 1).(weekdays := [1, 2, 3, 4, 5]));
    } else if lower == "weekly" {
      return Rule(PlainRule(Weekly, 1));
    } else if lower == "monthly" {
      return Rule(PlainRule(Monthly, 1));
    } else if lower == "yearly" {
      return Rule(PlainRule(Yearly, 1));
    }
    assert HasPrefixFold(text, "CRON:") ==> |text| >= 5 by {
      PrefixFits(text, "CRON:");
    }
    if HasPrefixFold(text, "CRON:") {
      return CronText(text[5..]);
    }
    assert HasPrefixFold(text, "RRULE:") ==> |text| >= 6 by {
      PrefixFits(text, "RRULE:");
    }
    if HasPrefixFold(text, "RRULE:") {
      text := text[6..];
    }
    var rule := ReadRRule(text);
    match rule
    case Ok(value) => return Rule(value);
    case Err(e) => return Invalid(e);
  }

  lemma PrefixFits(text: string, prefix: string)
    ensures HasPrefixFold(text, prefix) ==> |text| >= |prefix|
  {
  }

  /** Writing a rule: parts appended in order, then joined. */
  method RuleString(r: RepeatRule) returns (text: string)
    ensures text == Text(r)
  {
    hide Itoa, Join, WeekdayCode, WriteSetting;
    ghost var settings := Settings(r);
    var parts := [WriteSetting("FREQ", FrequencyName(r.frequency))];
    if r.interval > 1 {
      parts := parts + [WriteSetting("INTERVAL", Itoa(r.interval))];
    }
    assert parts == WriteSettings([("FREQ", FrequencyName(r.frequency))] + IntervalSettings(r));
    ghost var head := parts;
    match r.frequency {
      case Weekly =>
        if |r.weekdays| > 0 {
          var codes: seq<string> := [];
          for i := 0 to |r.weekdays|
            invariant codes == WeekdayCodes(r.weekdays[..i])
          {
            codes := codes + [WeekdayCode(r.weekdays[i])];
          }
          assert r.weekdays[..|r.weekdays|] == r.weekdays;
          parts := parts + [WriteSetting("BYDAY", Join(codes, ','))];
        }
      case Monthly =>
        if r.ordinal != 0 {
          parts := parts + [WriteSetting("BYDAY", Itoa(r.ordinal) + WeekdayCode(r.weekday))];
        } else if r.monthDay != 0 {
          parts := parts + [WriteSetting("BYMONTHDAY", Itoa(r.monthDay))];
        }
      case Yearly =>
        if r.month != 0 {
          parts := parts + [WriteSetting("BYMONTH", Itoa(r.month)), WriteSetting("BYMONTHDAY", Itoa(r.monthDay))];
        }
      case _ =>
    }
    assert parts == head + WriteSettings(DaySettings(r));
    assert WriteSettings(settings) == parts;
    text := Join(parts, ';');
  }
}
