/** Canonical rule text, letter by letter. */
module RepeatCanon {
  import opened RepeatRules
  import opened RepeatText
  import opened GoText
  import opened Wrappers

  // ----- Words -----

  lemma FrequencyWords(value: string)
    ensures FrequencyOf(value) == Daily <==> value == "DAILY"
    ensures FrequencyOf(value) == Weekly <==> value == "WEEKLY"
    ensures FrequencyOf(value) == Monthly <==> value == "MONTHLY"
    ensures FrequencyOf(value) == Yearly <==> value == "YEARLY"
  {
  }

  lemma DayCodes(value: string)
    ensures WeekdayOfCode(value) == Some(1) <==> value == "MO"
    ensures WeekdayOfCode(value) == Some(2) <==> value == "TU"
    ensures WeekdayOfCode(value) == Some(3) <==> value == "WE"
    ensures WeekdayOfCode(value) == Some(4) <==> value == "TH"
    ensures WeekdayOfCode(value) == Some(5) <==> value == "FR"
    ensures WeekdayOfCode(value) == Some(6) <==> value == "SA"
    ensures WeekdayOfCode(value) == Some(0) <==> value == "SU"
  {
  }

  lemma Codes()
    ensures WeekdayCode(1) == "MO" && WeekdayCode(2) == "TU" && WeekdayCode(3) == "WE" && WeekdayCode(4) == "TH"
    ensures WeekdayCode(5) == "FR" && WeekdayCode(6) == "SA" && WeekdayCode(0) == "SU"
  {
  }

  // ----- Settings written one after another -----

  lemma OneSettingText(key: string, value: string)
    ensures Join(WriteSettings([(key, value)]), ';') == key + ['='] + value
  {
  }

  lemma AnotherSettingText(settings: seq<(string, string)>, key: string, value: string)
    requires settings != []
    ensures Join(WriteSettings(settings + [(key, value)]), ';')
            == Join(WriteSettings(settings), ';') + [';'] + (key + ['='] + value)
  {
    assert WriteSettings(settings + [(key, value)]) == WriteSettings(settings) + WriteSettings([(key, value)]);
    OneSettingText(key, value);
    hide WriteSetting, Join;
    JoinAcross(WriteSettings(settings), WriteSettings([(key, value)]), ';');
  }

  lemma Keys(value: string)
    ensures "FREQ" + ['='] + value == "FREQ=" + value
    ensures [';'] + ("INTERVAL" + ['='] + value) == ";INTERVAL=" + value
    ensures [';'] + ("BYDAY" + ['='] + value) == ";BYDAY=" + value
    ensures [';'] + ("BYMONTHDAY" + ['='] + value) == ";BYMONTHDAY=" + value
    ensures [';'] + ("BYMONTH" + ['='] + value) == ";BYMONTH=" + value
  {
    assert [';'] + ("INTERVAL" + ['=']) == ";INTERVAL=";
    assert [';'] + ("BYDAY" + ['=']) == ";BYDAY=";
    assert [';'] + ("BYMONTHDAY" + ['=']) == ";BYMONTHDAY=";
    assert [';'] + ("BYMONTH" + ['=']) == ";BYMONTH=";
  }

  function Head(frequency: string, interval: int): string {
    "FREQ=" + frequency + if interval > 1 then ";INTERVAL=" + Itoa(interval) else ""
  }

  lemma HeadText(r: RepeatRule)
    ensures Join(WriteSettings([("FREQ", FrequencyName(r.frequency))] + IntervalSettings(r)), ';')
            == Head(FrequencyName(r.frequency), r.interval)
  {
    hide WriteSettings, Join, Itoa, FrequencyName;
    var name := FrequencyName(r.frequency);
    OneSettingText("FREQ", name);
    Keys(name);
    if r.interval > 1 {
      AnotherSettingText([("FREQ", name)], "INTERVAL", Itoa(r.interval));
      Keys(Itoa(r.interval));
      assert Head(name, r.interval) == "FREQ=" + name + [';'] + ("INTERVAL" + ['='] + Itoa(r.interval));
    } else {
      assert [("FREQ", name)] + [] == [("FREQ", name)];
    }
  }

  lemma HeadAlone(r: RepeatRule)
    requires DaySettings(r) == []
    ensures Text(r) == Head(FrequencyName(r.frequency), r.interval)
  {
    hide WriteSettings, Join, Itoa, FrequencyName, DaySettings, IntervalSettings, Head;
    HeadText(r);
    assert Settings(r) == [("FREQ", FrequencyName(r.frequency))] + IntervalSettings(r);
  }

  lemma HeadAndOne(r: RepeatRule, key: string, value: string)
    requires DaySettings(r) == [(key, value)]
    ensures Text(r) == Head(FrequencyName(r.frequency), r.interval) + [';'] + (key + ['='] + value)
  {
    hide WriteSettings, Join, Itoa, FrequencyName, DaySettings, IntervalSettings, Head;
    HeadText(r);
    AnotherSettingText([("FREQ", FrequencyName(r.frequency))] + IntervalSettings(r), key, value);
  }

  lemma HeadAndTwo(r: RepeatRule, key: string, value: string, next: string, last: string)
    requires DaySettings(r) == [(key, value), (next, last)]
    ensures Text(r) == Head(FrequencyName(r.frequency), r.interval) + [';'] + (key + ['='] + value)
                       + [';'] + (next + ['='] + last)
  {
    hide WriteSettings, Join, Itoa, FrequencyName, DaySettings, IntervalSettings, Head;
    HeadText(r);
    var head := [("FREQ", FrequencyName(r.frequency))] + IntervalSettings(r);
    AnotherSettingText(head, key, value);
    AnotherSettingText(head + [(key, value)], next, last);
    assert Settings(r) == head + [(key, value)] + [(next, last)];
  }

  // ----- The text of every rule -----

  lemma Appended(front: string, setting: string)
    ensures front + [';'] + setting == front + ([';'] + setting)
  {
  }

  lemma HeadWords(interval: int)
    ensures var rest := if interval > 1 then ";INTERVAL=" + Itoa(interval) else "";
            && Head("DAILY", interval) == "FREQ=DAILY" + rest
            && Head("WEEKLY", interval) == "FREQ=WEEKLY" + rest
            && Head("MONTHLY", interval) == "FREQ=MONTHLY" + rest
            && Head("YEARLY", interval) == "FREQ=YEARLY" + rest
  {
    hide Itoa;
    assert "FREQ=" + "DAILY" == "FREQ=DAILY" && "FREQ=" + "WEEKLY" == "FREQ=WEEKLY";
    assert "FREQ=" + "MONTHLY" == "FREQ=MONTHLY" && "FREQ=" + "YEARLY" == "FREQ=YEARLY";
  }

  /** A daily rule: its frequency, and its interval unless that is one. */
  lemma DailyText(r: RepeatRule)
    requires r.frequency == Daily
    ensures Text(r) == "FREQ=DAILY" + if r.interval > 1 then ";INTERVAL=" + Itoa(r.interval) else ""
  {
    hide Itoa, Text, Head;
    HeadAlone(r);
    HeadWords(r.interval);
  }

  /** A weekly rule: the days follow as codes, in the order the rule holds them. */
  lemma WeeklyText(r: RepeatRule)
    requires r.frequency == Weekly
    ensures Text(r) == "FREQ=WEEKLY" + (if r.interval > 1 then ";INTERVAL=" + Itoa(r.interval) else "")
                       + if r.weekdays == [] then "" else ";BYDAY=" + Join(WeekdayCodes(r.weekdays), ',')
  {
    hide Itoa, Text, Head, Join, WeekdayCodes;
    HeadWords(r.interval);
    if r.weekdays == [] {
      HeadAlone(r);
      assert Head("WEEKLY", r.interval) + "" == Head("WEEKLY", r.interval);
    } else {
      var days := Join(WeekdayCodes(r.weekdays), ',');
      HeadAndOne(r, "BYDAY", days);
      Keys(days);
      Appended(Head("WEEKLY", r.interval), "BYDAY" + ['='] + days);
    }
  }

  /** A monthly rule: an ordinal weekday, or a day of the month, or neither. */
  lemma MonthlyText(r: RepeatRule)
    requires r.frequency == Monthly
    ensures Text(r) == "FREQ=MONTHLY" + (if r.interval > 1 then ";INTERVAL=" + Itoa(r.interval) else "")
                       + if r.ordinal != 0 then ";BYDAY=" + (Itoa(r.ordinal) + WeekdayCode(r.weekday))
                         else if r.monthDay != 0 then ";BYMONTHDAY=" + Itoa(r.monthDay) else ""
  {
    hide Itoa, Text, Head, WeekdayCode;
    HeadWords(r.interval);
    if r.ordinal != 0 {
      var day := Itoa(r.ordinal) + WeekdayCode(r.weekday);
      HeadAndOne(r, "BYDAY", day);
      Keys(day);
      Appended(Head("MONTHLY", r.interval), "BYDAY" + ['='] + day);
    } else if r.monthDay != 0 {
      var day := Itoa(r.monthDay);
      HeadAndOne(r, "BYMONTHDAY", day);
      Keys(day);
      Appended(Head("MONTHLY", r.interval), "BYMONTHDAY" + ['='] + day);
    } else {
      HeadAlone(r);
      assert Head("MONTHLY", r.interval) + "" == Head("MONTHLY", r.interval);
    }
  }

  /** A yearly rule: its month and then its day, or neither. */
  lemma YearlyText(r: RepeatRule)
    requires r.frequency == Yearly
    ensures Text(r) == "FREQ=YEARLY" + (if r.interval > 1 then ";INTERVAL=" + Itoa(r.interval) else "")
                       + if r.month != 0 then ";BYMONTH=" + Itoa(r.month) + (";BYMONTHDAY=" + Itoa(r.monthDay)) else ""
  {
    hide Itoa, Text, Head;
    HeadWords(r.interval);
    if r.month != 0 {
      var month, day, head := Itoa(r.month), Itoa(r.monthDay), Head("YEARLY", r.interval);
      HeadAndTwo(r, "BYMONTH", month, "BYMONTHDAY", day);
      Keys(month);
      Keys(day);
      Appended(head, "BYMONTH" + ['='] + month);
      Appended(head + ";BYMONTH=" + month, "BYMONTHDAY" + ['='] + day);
      assert head + (";BYMONTH=" + month) == head + ";BYMONTH=" + month;
      assert head + ";BYMONTH=" + month + (";BYMONTHDAY=" + day) == head + (";BYMONTH=" + month + (";BYMONTHDAY=" + day));
    } else {
      HeadAlone(r);
      assert Head("YEARLY", r.interval) + "" == Head("YEARLY", r.interval);
    }
  }

  // ----- The texts the shorthands stand for -----

  lemma WorkingWeek()
    ensures Join(WeekdayCodes([1, 2, 3, 4, 5]), ',') == "MO,TU,WE,TH,FR"
  {
    hide Join, WeekdayCode;
    Codes();
    var codes := WeekdayCodes([1, 2, 3, 4, 5]);
    assert codes == ["MO", "TU", "WE", "TH", "FR"];
    FiveCodes();
  }

  lemma FiveCodes()
    ensures Join(["MO", "TU", "WE", "TH", "FR"], ',') == "MO,TU,WE,TH,FR"
  {
    assert Join(["MO", "TU", "WE", "TH", "FR"], ',')
           == "MO" + [','] + ("TU" + [','] + ("WE" + [','] + ("TH" + [','] + "FR")));
  }

  lemma ShorthandTexts()
    ensures Text(PlainRule(Daily, 1)) == "FREQ=DAILY" && Text(PlainRule(Weekly, 1)) == "FREQ=WEEKLY"
    ensures Text(PlainRule(Monthly, 1)) == "FREQ=MONTHLY" && Text(PlainRule(Yearly, 1)) == "FREQ=YEARLY"
  {
    hide Text, Itoa;
    DailyText(PlainRule(Daily, 1));
    WeeklyText(PlainRule(Weekly, 1));
    MonthlyText(PlainRule(Monthly, 1));
    YearlyText(PlainRule(Yearly, 1));
  }

  lemma WeekdaysText()
    ensures Text(PlainRule(Weekly, 1).(weekdays := [1, 2, 3, 4, 5])) == "FREQ=WEEKLY;BYDAY=MO,TU,WE,TH,FR"
  {
    hide Text, Itoa, Join, WeekdayCodes;
    WeeklyText(PlainRule(Weekly, 1).(weekdays := [1, 2, 3, 4, 5]));
    WorkingWeek();
    Spelled();
  }

  lemma Spelled()
    ensures "FREQ=WEEKLY" + "" + (";BYDAY=" + "MO,TU,WE,TH,FR") == "FREQ=WEEKLY;BYDAY=MO,TU,WE,TH,FR"
  {
  }
}
