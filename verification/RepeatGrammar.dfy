/** What RRULE text means, said without reading it in order: a set of settings, each given once, in any order and case. */
module RepeatGrammar {
  import opened Calendar
  import opened RepeatRules
  import opened RepeatText
  import opened GoText
  import opened Wrappers

  // ----- The settings of a text -----

  /** The key and value a part gives, if it gives any. */
  function SettingOf(part: string): Option<(string, string)> {
    var (key, value, found) := Cut(TrimSpace(part), '=');
    if found && TrimSpace(value) != "" then Some((ToUpper(TrimSpace(key)), ToUpper(TrimSpace(value)))) else None
  }

  predicate Blank(part: string) { TrimSpace(part) == "" }

  /** The settings of the parts that give one, in order. */
  function SettingsIn(parts: seq<string>): seq<(string, string)> {
    if parts == [] then []
    else (if !Blank(parts[0]) && SettingOf(parts[0]).Some? then [SettingOf(parts[0]).value] else [])
         + SettingsIn(parts[1..])
  }

  function Keys(settings: seq<(string, string)>): set<string> {
    set i | 0 <= i < |settings| :: settings[i].0
  }

  predicate DistinctKeys(settings: seq<(string, string)>) {
    forall i, j | 0 <= i < j < |settings| :: settings[i].0 != settings[j].0
  }

  /** The value given for a key, or nothing: order plays no part where keys are distinct. */
  ghost function Given(settings: seq<(string, string)>, key: string): string {
    if i :| 0 <= i < |settings| && settings[i].0 == key then settings[i].1 else ""
  }

  predicate Allowed(setting: (string, string)) {
    match Assign(NO_FIELDS, setting.0, setting.1) case Ok(_) => true case Err(_) => false
  }

  predicate KnownKey(key: string) {
    key == "FREQ" || key == "INTERVAL" || key == "BYDAY" || key == "BYMONTHDAY" || key == "BYMONTH"
  }

  /** A setting is allowed when its key is known and an interval is a number from 1 to 99. */
  lemma AllowedMeans(setting: (string, string))
    ensures Allowed(setting) <==>
            KnownKey(setting.0)
            && (setting.0 == "INTERVAL" ==> Atoi(setting.1).Some? && 1 <= Atoi(setting.1).value <= 99)
  {
    hide Atoi;
  }

  /** The fields a list of settings stands for, each read off by its key. */
  ghost predicate StandsFor(settings: seq<(string, string)>, f: Fields) {
    && f.frequency == (if "FREQ" in Keys(settings) then FrequencyOf(Given(settings, "FREQ")) else Unset)
    && (if "INTERVAL" in Keys(settings) then Atoi(Given(settings, "INTERVAL")) == Some(f.interval) else f.interval == 1)
    && f.byDay == Given(settings, "BYDAY")
    && f.byMonthDay == Given(settings, "BYMONTHDAY")
    && f.byMonth == Given(settings, "BYMONTH")
  }

  predicate NamesDay(code: string, day: int) {
    WeekdayOfCode(TrimSpace(code)) == Some(day)
  }

  /** Every code names a day, and together they name exactly these days. */
  ghost predicate NameDays(codes: seq<string>, days: seq<int>) {
    && (forall i | 0 <= i < |codes| :: exists day :: day in days && NamesDay(codes[i], day))
    && (forall day | day in days :: exists i :: 0 <= i < |codes| && NamesDay(codes[i], day))
  }

  /** An ordinal written straight before a weekday code. */
  ghost predicate NamesOrdinalDay(text: string, ordinal: int, weekday: int) {
    exists number: string, code: string ::
      text == number + code && Atoi(number) == Some(ordinal) && WeekdayOfCode(code) == Some(weekday)
  }

  /** The rule the fields stand for: what each frequency takes, and the day its settings name. */
  ghost predicate Means(f: Fields, r: RepeatRule) {
    var plain := PlainRule(f.frequency, f.interval);
    match f.frequency
    case Daily => f.byDay == f.byMonthDay == f.byMonth == "" && r == plain
    case Weekly =>
      && f.byMonthDay == f.byMonth == ""
      && r == plain.(weekdays := r.weekdays)
      && MondayFirst(r.weekdays)
      && if f.byDay == "" then r.weekdays == [] else NameDays(Split(f.byDay, ','), r.weekdays)
    case Monthly =>
      && f.byMonth == ""
      && if f.byDay != "" then
           && f.byMonthDay == ""
           && r == plain.(ordinal := r.ordinal, weekday := r.weekday)
           && (r.ordinal == -1 || 1 <= r.ordinal <= 4)
           && NamesOrdinalDay(f.byDay, r.ordinal, r.weekday)
         else if f.byMonthDay != "" then
           && r == plain.(monthDay := r.monthDay)
           && (r.monthDay == -1 || 1 <= r.monthDay <= 31)
           && Atoi(f.byMonthDay) == Some(r.monthDay)
         else r == plain
    case Yearly =>
      && f.byDay == ""
      && if f.byMonth == "" then f.byMonthDay == "" && r == plain
         else
           && r == plain.(month := r.month, monthDay := r.monthDay)
           && 1 <= r.month <= 12
           && 1 <= r.monthDay <= DaysInMonth(2000, r.month)
           && Atoi(f.byMonth) == Some(r.month)
           && Atoi(f.byMonthDay) == Some(r.monthDay)
    case _ => false
  }

  /** The meaning of RRULE text: every part blank or a setting, every key known and given once, and the rule they make. */
  ghost predicate Denotes(text: string, r: RepeatRule) {
    var parts := Split(text, ';');
    var settings := SettingsIn(parts);
    && (forall i | 0 <= i < |parts| :: Blank(parts[i]) || SettingOf(parts[i]).Some?)
    && DistinctKeys(settings)
    && (forall i | 0 <= i < |settings| :: Allowed(settings[i]))
    && exists f :: StandsFor(settings, f) && Means(f, r)
  }

  // ----- Finishing from the fields gives the rule they stand for -----

  lemma {:induction false} CollectedNamed(codes: seq<string>, days: seq<int>)
    ensures CollectDays(codes, days).Ok? <==> forall i | 0 <= i < |codes| :: WeekdayOfCode(TrimSpace(codes[i])).Some?
    ensures CollectDays(codes, days).Ok? ==>
              forall day :: day in CollectDays(codes, days).value <==>
                day in days || exists i :: 0 <= i < |codes| && NamesDay(codes[i], day)
  {
    hide WeekdayOfCode, TrimSpace;
    if codes != [] {
      var first := WeekdayOfCode(TrimSpace(codes[0]));
      var rest := codes[1..];
      assert forall i | 0 <= i < |rest| :: rest[i] == codes[i + 1];
      assert forall i | 0 < i < |codes| :: codes[i] == rest[i - 1];
      if first.Some? {
        assert forall day :: NamesDay(codes[0], day) <==> day == first.value;
        CollectedNamed(rest, if first.value in days then days else days + [first.value]);
      }
    }
  }

  /** A set of weekdays has one Monday-first listing. */
  lemma {:induction false} MondayFirstUnique(a: seq<int>, b: seq<int>)
    requires MondayFirst(a) && MondayFirst(b)
    requires forall day :: day in a <==> day in b
    ensures a == b
  {
    hide MondayIndex;
    EmptyWithin(a, b);
    EmptyWithin(b, a);
    if a != [] {
      LeastFirst(a, b);
      LeastFirst(b, a);
      assert a[0] == b[0] by {
        SameMondayIndex(a[0], b[0]);
      }
      TailListing(a);
      TailListing(b);
      MondayFirstUnique(a[1..], b[1..]);
      assert a == [a[0]] + a[1..] && b == [b[0]] + b[1..];
    }
  }

  lemma EmptyWithin(a: seq<int>, b: seq<int>)
    requires forall day :: day in b ==> day in a
    ensures |b| > 0 ==> |a| > 0
  {
    if b != [] {
      var day := b[0];
      assert day in b;
    }
  }

  lemma LeastFirst(a: seq<int>, b: seq<int>)
    requires MondayFirst(a) && a != [] && b != [] && b[0] in a
    ensures MondayIndex(a[0]) <= MondayIndex(b[0])
  {
    hide MondayIndex;
  }

  lemma SameMondayIndex(a: int, b: int)
    requires IsWeekday(a) && IsWeekday(b) && MondayIndex(a) == MondayIndex(b)
    ensures a == b
  {
  }

  lemma TailListing(a: seq<int>)
    requires MondayFirst(a) && a != []
    ensures MondayFirst(a[1..])
    ensures forall day :: day in a[1..] <==> day in a && day != a[0]
  {
    hide MondayIndex;
    var rest := a[1..];
    assert forall i | 0 <= i < |rest| :: rest[i] == a[i + 1];
    assert forall i | 0 < i < |a| :: a[i] == rest[i - 1];
  }

  lemma SortedNames(codes: seq<string>, days: seq<int>)
    ensures (match CollectDays(codes, []) case Err(_) => false case Ok(found) => SortWeekdays(found) == days)
            <==> MondayFirst(days) && NameDays(codes, days)
  {
    hide WeekdayOfCode, TrimSpace, CollectDays, SortWeekdays, MondayFirst;
    CollectedNamed(codes, []);
    CollectedDistinct(codes, []);
    var found := CollectDays(codes, []);
    if found.Ok? {
      var sorted := SortWeekdays(found.value);
      SortedMondayFirst(found.value);
      assert forall day :: day in sorted <==> day in multiset(sorted);
      assert forall day :: day in found.value <==> day in multiset(found.value);
      assert forall i | 0 <= i < |codes| :: NamesDay(codes[i], WeekdayOfCode(TrimSpace(codes[i])).value);
      assert NameDays(codes, sorted);
      if MondayFirst(days) && NameDays(codes, days) {
        NamedSame(codes, sorted, days);
        MondayFirstUnique(sorted, days);
      }
    } else {
      NamedAll(codes, days);
    }
  }

  lemma NamedAll(codes: seq<string>, days: seq<int>)
    ensures NameDays(codes, days) ==> forall i | 0 <= i < |codes| :: WeekdayOfCode(TrimSpace(codes[i])).Some?
  {
    hide WeekdayOfCode, TrimSpace;
  }

  lemma NamedSame(codes: seq<string>, a: seq<int>, b: seq<int>)
    requires NameDays(codes, a) && NameDays(codes, b)
    ensures forall day :: day in a <==> day in b
  {
    hide WeekdayOfCode, TrimSpace;
  }

  lemma {:induction false} NumbersHaveNoComma(s: string)
    requires DigitsValue(s).Some?
    ensures ',' !in s
  {
    if s != "" {
      NumbersHaveNoComma(s[..|s| - 1]);
      assert s == s[..|s| - 1] + [s[|s| - 1]];
    }
  }

  lemma SignedHaveNoComma(s: string)
    requires Atoi(s).Some?
    ensures ',' !in s && s != ""
  {
    hide DigitsValue;
    if s[0] == '-' || s[0] == '+' {
      NumbersHaveNoComma(s[1..]);
      assert s == [s[0]] + s[1..];
    } else {
      NumbersHaveNoComma(s);
    }
  }

  lemma CodesHaveNoComma(code: string)
    requires WeekdayOfCode(code).Some?
    ensures |code| == 2 && ',' !in code
  {
  }

  lemma OrdinalNamed(text: string, ordinal: int, weekday: int)
    ensures OrdinalWeekday(text) == Ok((ordinal, weekday)) <==>
            (ordinal == -1 || 1 <= ordinal <= 4) && NamesOrdinalDay(text, ordinal, weekday)
  {
    hide Atoi, WeekdayOfCode;
    if OrdinalWeekday(text).Ok? {
      var number, code := text[..|text| - 2], text[|text| - 2..];
      assert text == number + code;
    }
    if number, code :| text == number + code && Atoi(number) == Some(ordinal) && WeekdayOfCode(code) == Some(weekday) {
      SignedHaveNoComma(number);
      CodesHaveNoComma(code);
      assert text[..|text| - 2] == number && text[|text| - 2..] == code;
    }
  }

  lemma EmptyIsNoNumber()
    ensures Atoi("") == None
  {
  }

  lemma FinishYearlyMeans(f: Fields, r: RepeatRule)
    requires f.frequency == Yearly
    ensures Finish(f) == Ok(r) <==> Means(f, r)
  {
    hide Atoi, DaysInMonth;
    EmptyIsNoNumber();
  }

  /** The checks of each frequency accept a rule exactly when the fields stand for it. */
  lemma FinishMeans(f: Fields, r: RepeatRule)
    ensures Finish(f) == Ok(r) <==> Means(f, r)
  {
    hide Atoi, Split, CollectDays, SortWeekdays, OrdinalWeekday, DaysInMonth, MondayFirst, NameDays, NamesOrdinalDay;
    match f.frequency
    case Weekly =>
      EmptyWeek();
      SortedNames(Split(f.byDay, ','), r.weekdays);
    case Monthly =>
      OrdinalNamed(f.byDay, r.ordinal, r.weekday);
      if OrdinalWeekday(f.byDay).Ok? {
        var (ordinal, weekday) := OrdinalWeekday(f.byDay).value;
        OrdinalNamed(f.byDay, ordinal, weekday);
      }
    case Daily =>
    case Yearly =>
      FinishYearlyMeans(f, r);
    case Unset =>
    case Other(_) =>
  }

  // ----- The parser computes that meaning -----

  lemma ReadPartMeans(f: Fields, part: string)
    ensures Blank(part) ==> ReadPart(f, part) == Ok(f)
    ensures !Blank(part) && SettingOf(part) == None ==> ReadPart(f, part).Err?
    ensures !Blank(part) && SettingOf(part).Some? ==>
              ReadPart(f, part) ==
              var (key, value) := SettingOf(part).value;
              if key in f.seen then Err(GivenTwice(key)) else Assign(f.(seen := f.seen + {key}), key, value)
  {
    hide TrimSpace, Cut, Assign;
    var (key, value, found) := Cut(TrimSpace(part), '=');
    assert |ToUpper(TrimSpace(value))| == |TrimSpace(value)|;
  }

  lemma {:induction false} ReadPartsMeans(f: Fields, parts: seq<string>)
    ensures ReadParts(f, parts).Ok? <==>
            (forall i | 0 <= i < |parts| :: Blank(parts[i]) || SettingOf(parts[i]).Some?)
            && AssignAll(f, SettingsIn(parts)).Ok?
    ensures ReadParts(f, parts).Ok? ==> ReadParts(f, parts) == AssignAll(f, SettingsIn(parts))
    decreases |parts|
  {
    hide ReadPart, Assign, Blank, SettingOf;
    if parts != [] {
      ReadPartMeans(f, parts[0]);
      var rest := SettingsIn(parts[1..]);
      assert [] + rest == rest;
      if !Blank(parts[0]) && SettingOf(parts[0]).Some? {
        assert ([SettingOf(parts[0]).value] + rest)[1..] == rest;
      }
      var next := ReadPart(f, parts[0]);
      if next.Ok? {
        ReadPartsMeans(next.value, parts[1..]);
      }
    }
  }

  /** The value a field takes: what the settings give, or what it had. */
  ghost predicate Carries(f: Fields, settings: seq<(string, string)>, g: Fields) {
    && g.frequency == (if "FREQ" in Keys(settings) then FrequencyOf(Given(settings, "FREQ")) else f.frequency)
    && (if "INTERVAL" in Keys(settings) then Atoi(Given(settings, "INTERVAL")) == Some(g.interval)
        else g.interval == f.interval)
    && g.byDay == (if "BYDAY" in Keys(settings) then Given(settings, "BYDAY") else f.byDay)
    && g.byMonthDay == (if "BYMONTHDAY" in Keys(settings) then Given(settings, "BYMONTHDAY") else f.byMonthDay)
    && g.byMonth == (if "BYMONTH" in Keys(settings) then Given(settings, "BYMONTH") else f.byMonth)
  }

  lemma GivenAt(settings: seq<(string, string)>, i: nat)
    requires DistinctKeys(settings) && i < |settings|
    ensures settings[i].0 in Keys(settings) && Given(settings, settings[i].0) == settings[i].1
  {
  }

  lemma GivenTail(settings: seq<(string, string)>, key: string)
    requires DistinctKeys(settings) && settings != [] && settings[0].0 != key
    ensures key in Keys(settings) <==> key in Keys(settings[1..])
    ensures Given(settings, key) == Given(settings[1..], key)
  {
    var rest := settings[1..];
    if i :| 0 <= i < |settings| && settings[i].0 == key {
      GivenAt(settings, i);
      assert rest[i - 1] == settings[i];
      GivenAt(rest, i - 1);
    }
    if j :| 0 <= j < |rest| && rest[j].0 == key {
      GivenAt(rest, j);
      assert settings[j + 1] == rest[j];
    }
  }

  lemma CarriesMore(f: Fields, g: Fields, h: Fields, settings: seq<(string, string)>)
    requires DistinctKeys(settings) && settings != []
    requires Assign(f, settings[0].0, settings[0].1) == Ok(g) && Carries(g, settings[1..], h)
    ensures Carries(f, settings, h)
  {
    hide FrequencyOf, Atoi, Given, Keys, DistinctKeys;
    var key := settings[0].0;
    GivenAt(settings, 0);
    assert key !in Keys(settings[1..]) by {
      FirstKeyOnce(settings);
    }
    if key != "FREQ" { GivenTail(settings, "FREQ"); }
    if key != "INTERVAL" { GivenTail(settings, "INTERVAL"); }
    if key != "BYDAY" { GivenTail(settings, "BYDAY"); }
    if key != "BYMONTHDAY" { GivenTail(settings, "BYMONTHDAY"); }
    if key != "BYMONTH" { GivenTail(settings, "BYMONTH"); }
  }

  lemma FirstKeyOnce(settings: seq<(string, string)>)
    requires settings != []
    ensures DistinctKeys(settings) <==> DistinctKeys(settings[1..]) && settings[0].0 !in Keys(settings[1..])
    ensures Keys(settings) == {settings[0].0} + Keys(settings[1..])
  {
    var rest := settings[1..];
    assert forall i | 0 <= i < |rest| :: rest[i] == settings[i + 1];
    if DistinctKeys(rest) && settings[0].0 !in Keys(rest) {
      forall i, j | 0 <= i < j < |settings| ensures settings[i].0 != settings[j].0 {
        assert settings[j] == rest[j - 1];
        if i > 0 {
          assert settings[i] == rest[i - 1];
        } else {
          assert rest[j - 1].0 in Keys(rest);
        }
      }
    }
    forall k | k in Keys(settings) ensures k in {settings[0].0} + Keys(rest) {
      var i :| 0 <= i < |settings| && settings[i].0 == k;
      if i > 0 {
        assert rest[i - 1].0 == k;
      }
    }
    forall k | k in Keys(rest) ensures k in Keys(settings) {
      var i :| 0 <= i < |rest| && rest[i].0 == k;
      assert settings[i + 1].0 == k;
    }
  }

  lemma AssignKeepsSeen(f: Fields, key: string, value: string)
    ensures Assign(f, key, value).Ok? <==> Allowed((key, value))
    ensures Assign(f, key, value).Ok? ==> Assign(f, key, value).value.seen == f.seen
  {
    hide Atoi, FrequencyOf;
  }

  lemma {:induction false} AssignAllMeans(f: Fields, settings: seq<(string, string)>)
    ensures AssignAll(f, settings).Ok? <==>
            DistinctKeys(settings) && Keys(settings) !! f.seen
            && forall i | 0 <= i < |settings| :: Allowed(settings[i])
    ensures AssignAll(f, settings).Ok? ==> Carries(f, settings, AssignAll(f, settings).value)
    decreases |settings|
  {
    hide Assign, Allowed, Carries, DistinctKeys, Keys, Given;
    if settings == [] {
      NothingCarried(f);
    } else {
      var (key, value) := settings[0];
      var rest := settings[1..];
      FirstKeyOnce(settings);
      AssignKeepsSeen(f.(seen := f.seen + {key}), key, value);
      assert (forall i | 0 <= i < |settings| :: Allowed(settings[i])) <==>
             Allowed(settings[0]) && forall i | 0 <= i < |rest| :: Allowed(rest[i]) by {
        assert forall i | 0 <= i < |rest| :: rest[i] == settings[i + 1];
        assert forall i | 0 < i < |settings| :: settings[i] == rest[i - 1];
      }
      if key !in f.seen {
        var next := Assign(f.(seen := f.seen + {key}), key, value);
        if next.Ok? {
          AssignAllMeans(next.value, rest);
          if AssignAll(next.value, rest).Ok? {
            CarriesMore(f.(seen := f.seen + {key}), next.value, AssignAll(next.value, rest).value, settings);
            CarriesIgnoresSeen(f, f.seen + {key}, settings, AssignAll(next.value, rest).value);
          }
        }
      }
    }
  }

  lemma NothingCarried(f: Fields)
    ensures Carries(f, [], f) && DistinctKeys([]) && Keys([]) == {}
  {
  }

  lemma CarriesIgnoresSeen(f: Fields, seen: set<string>, settings: seq<(string, string)>, g: Fields)
    requires Carries(f.(seen := seen), settings, g)
    ensures Carries(f, settings, g)
  {
    hide Keys, Given, Atoi, FrequencyOf;
  }

  lemma CarriedStandsFor(settings: seq<(string, string)>, g: Fields)
    ensures Carries(NO_FIELDS, settings, g) <==> StandsFor(settings, g)
  {
    hide Atoi, FrequencyOf;
  }

  lemma StandsForOne(settings: seq<(string, string)>, f: Fields, g: Fields)
    requires StandsFor(settings, f) && StandsFor(settings, g)
    ensures Finish(f) == Finish(g)
  {
    hide Keys, Given, Atoi, FrequencyOf, Split, CollectDays, SortWeekdays, OrdinalWeekday;
    assert f == g.(seen := f.seen);
  }

  /** The loop over parts accepts exactly the texts that have a meaning, and gives that meaning. */
  lemma ParserComputesMeaning(text: string, r: RepeatRule)
    ensures ParseRRule(text) == Ok(r) <==> Denotes(text, r)
  {
    hide Split, SettingsIn, DistinctKeys, Keys, Allowed, StandsFor, Finish, Blank, SettingOf, Carries, ReadParts, AssignAll, Means;
    var parts := Split(text, ';');
    var settings := SettingsIn(parts);
    ReadPartsMeans(NO_FIELDS, parts);
    AssignAllMeans(NO_FIELDS, settings);
    if AssignAll(NO_FIELDS, settings).Ok? {
      var f := AssignAll(NO_FIELDS, settings).value;
      CarriedStandsFor(settings, f);
      FinishMeans(f, r);
      forall g | StandsFor(settings, g) ensures Means(g, r) <==> Finish(f) == Ok(r) {
        StandsForOne(settings, f, g);
        FinishMeans(g, r);
      }
    }
  }

  // ----- Order and case do not matter -----

  /** What a part contributes. */
  function Contribution(part: string): multiset<(string, string)> {
    if !Blank(part) && SettingOf(part).Some? then multiset{SettingOf(part).value} else multiset{}
  }

  lemma {:induction false} ContributionsAdd(a: seq<string>, x: string, b: seq<string>)
    ensures multiset(SettingsIn(a + [x] + b)) == multiset(SettingsIn(a + b)) + Contribution(x)
  {
    hide Blank, SettingOf;
    var all := a + [x] + b;
    if a == [] {
      assert all[1..] == b && a + b == b;
    } else {
      assert all[1..] == a[1..] + [x] + b && (a + b)[1..] == a[1..] + b;
      ContributionsAdd(a[1..], x, b);
    }
  }

  lemma TakeOut(all: seq<string>, x: string) returns (before: seq<string>, after: seq<string>)
    requires x in all
    ensures all == before + [x] + after && multiset(before + after) == multiset(all) - multiset{x}
  {
    var i :| 0 <= i < |all| && all[i] == x;
    before, after := all[..i], all[i + 1..];
    assert all == before + [x] + after;
    assert multiset(before + [x] + after) == multiset(before + after) + multiset{x};
  }

  lemma FirstOut(all: seq<string>)
    requires all != []
    ensures multiset(all[1..]) == multiset(all) - multiset{all[0]}
    ensures multiset(SettingsIn(all)) == multiset(SettingsIn(all[1..])) + Contribution(all[0])
  {
    hide Blank, SettingOf;
    assert all == [all[0]] + all[1..];
  }

  /** The settings of a text, with how often each is given, do not depend on the order of its parts. */
  lemma {:induction false} SettingsIgnoreOrder(a: seq<string>, b: seq<string>)
    requires multiset(a) == multiset(b)
    ensures multiset(SettingsIn(a)) == multiset(SettingsIn(b))
    decreases |a|
  {
    hide SettingsIn, Contribution;
    assert |a| == |multiset(a)| == |b|;
    if a == [] {
      assert b == [];
    } else {
      var x := a[0];
      assert x in multiset(b);
      var before, after := TakeOut(b, x);
      FirstOut(a);
      SettingsIgnoreOrder(a[1..], before + after);
      ContributionsAdd(before, x, after);
    }
  }

  lemma {:induction false} TwiceGiven(settings: seq<(string, string)>, x: (string, string)) returns (i: nat, j: nat)
    requires multiset(settings)[x] >= 2
    ensures i < j < |settings| && settings[i] == x && settings[j] == x
  {
    var last := |settings| - 1;
    assert settings == settings[..last] + [settings[last]];
    if settings[last] == x {
      assert x in multiset(settings[..last]);
      i :| 0 <= i < last && settings[..last][i] == x;
      j := last;
    } else {
      i, j := TwiceGiven(settings[..last], x);
    }
  }

  lemma DistinctIgnoresOrder(a: seq<(string, string)>, b: seq<(string, string)>)
    requires multiset(a) == multiset(b) && DistinctKeys(a)
    ensures DistinctKeys(b)
  {
    forall i, j | 0 <= i < j < |b| ensures b[i].0 != b[j].0 {
      if b[i].0 == b[j].0 {
        assert b[i] in multiset(b) && b[j] in multiset(b);
        assert b[i] in multiset(a) && b[j] in multiset(a);
        var k :| 0 <= k < |a| && a[k] == b[i];
        var l :| 0 <= l < |a| && a[l] == b[j];
        if b[i] == b[j] {
          assert b == b[..j] + [b[j]] + b[j + 1..];
          assert b[..j][i] in multiset(b[..j]);
          assert multiset(b)[b[i]] >= 2;
          var m, n := TwiceGiven(a, b[i]);
        }
      }
    }
  }

  lemma KeysIgnoreOrder(a: seq<(string, string)>, b: seq<(string, string)>)
    requires multiset(a) == multiset(b)
    ensures Keys(a) <= Keys(b)
  {
    forall k | k in Keys(a) ensures k in Keys(b) {
      var i :| 0 <= i < |a| && a[i].0 == k;
      assert a[i] in multiset(b);
      var j :| 0 <= j < |b| && b[j] == a[i];
    }
  }

  lemma GivenIgnoresOrder(a: seq<(string, string)>, b: seq<(string, string)>, key: string)
    requires multiset(a) == multiset(b) && DistinctKeys(a) && DistinctKeys(b)
    ensures Given(a, key) == Given(b, key)
  {
    hide Given;
    KeysIgnoreOrder(a, b);
    KeysIgnoreOrder(b, a);
    if i :| 0 <= i < |a| && a[i].0 == key {
      assert a[i] in multiset(b);
      var j :| 0 <= j < |b| && b[j] == a[i];
      GivenAt(a, i);
      GivenAt(b, j);
    } else {
      NotGiven(a, key);
      NotGiven(b, key);
    }
  }

  lemma NotGiven(settings: seq<(string, string)>, key: string)
    requires key !in Keys(settings)
    ensures Given(settings, key) == ""
  {
  }

  lemma DenotesIgnoresOrder(a: string, b: string, r: RepeatRule)
    requires multiset(Split(a, ';')) == multiset(Split(b, ';')) && Denotes(a, r)
    ensures Denotes(b, r)
  {
    hide Split, SettingsIn, DistinctKeys, Keys, Allowed, Blank, SettingOf, Means, Given;
    var parts, more := Split(a, ';'), Split(b, ';');
    var settings, others := SettingsIn(parts), SettingsIn(more);
    SettingsIgnoreOrder(parts, more);
    DistinctIgnoresOrder(settings, others);
    KeysIgnoreOrder(settings, others);
    KeysIgnoreOrder(others, settings);
    forall i | 0 <= i < |more| ensures Blank(more[i]) || SettingOf(more[i]).Some? {
      assert more[i] in multiset(parts);
      var j :| 0 <= j < |parts| && parts[j] == more[i];
    }
    forall i | 0 <= i < |others| ensures Allowed(others[i]) {
      assert others[i] in multiset(settings);
      var j :| 0 <= j < |settings| && settings[j] == others[i];
    }
    var f :| StandsFor(settings, f) && Means(f, r);
    assert StandsFor(others, f) by {
      hide FrequencyOf, Atoi;
      GivenIgnoresOrder(settings, others, "FREQ");
      GivenIgnoresOrder(settings, others, "INTERVAL");
      GivenIgnoresOrder(settings, others, "BYDAY");
      GivenIgnoresOrder(settings, others, "BYMONTHDAY");
      GivenIgnoresOrder(settings, others, "BYMONTH");
    }
  }

  /** Rule text with its parts in another order is accepted or refused alike, and gives the same rule. */
  lemma OrderDoesNotMatter(a: string, b: string, r: RepeatRule)
    requires multiset(Split(a, ';')) == multiset(Split(b, ';'))
    ensures ParseRRule(a) == Ok(r) <==> ParseRRule(b) == Ok(r)
  {
    hide Split, Denotes, ParseRRule;
    ParserComputesMeaning(a, r);
    ParserComputesMeaning(b, r);
    if Denotes(a, r) {
      DenotesIgnoresOrder(a, b, r);
    }
    if Denotes(b, r) {
      DenotesIgnoresOrder(b, a, r);
    }
  }

  lemma UpperKeeps(c: char)
    ensures UpperChar(UpperChar(c)) == UpperChar(c)
    ensures IsSpace(UpperChar(c)) <==> IsSpace(c)
    ensures UpperChar(c) == ';' <==> c == ';'
    ensures UpperChar(c) == '=' <==> c == '='
  {
  }

  lemma UpperTwice(s: string)
    ensures ToUpper(ToUpper(s)) == ToUpper(s)
  {
    hide UpperChar;
    forall i | 0 <= i < |s| ensures UpperChar(UpperChar(s[i])) == UpperChar(s[i]) {
      UpperKeeps(s[i]);
    }
  }

  lemma UpperJoins(c: char, s: string)
    ensures ToUpper([c] + s) == [UpperChar(c)] + ToUpper(s)
  {
  }

  lemma {:induction false} UpperSplits(s: string)
    ensures |Split(ToUpper(s), ';')| == |Split(s, ';')|
    ensures forall i | 0 <= i < |Split(s, ';')| :: Split(ToUpper(s), ';')[i] == ToUpper(Split(s, ';')[i])
  {
    hide UpperChar;
    if s == "" {
    } else {
      assert ToUpper(s)[1..] == ToUpper(s[1..]);
      UpperKeeps(s[0]);
      UpperSplits(s[1..]);
      UpperJoins(s[0], Split(s[1..], ';')[0]);
    }
  }

  lemma {:induction false} UpperCuts(s: string)
    ensures var (before, after, found) := Cut(s, '=');
            Cut(ToUpper(s), '=') == (ToUpper(before), ToUpper(after), found)
  {
    hide UpperChar;
    if s != "" {
      assert ToUpper(s)[1..] == ToUpper(s[1..]);
      UpperKeeps(s[0]);
      UpperCuts(s[1..]);
      UpperJoins(s[0], Cut(s[1..], '=').0);
    }
  }

  lemma {:induction false} UpperTrimsLeft(s: string)
    ensures TrimLeft(ToUpper(s)) == ToUpper(TrimLeft(s))
  {
    hide UpperChar, IsSpace;
    if s != "" {
      assert ToUpper(s)[1..] == ToUpper(s[1..]);
      UpperKeeps(s[0]);
      UpperTrimsLeft(s[1..]);
    }
  }

  lemma {:induction false} UpperTrimsRight(s: string)
    ensures TrimRight(ToUpper(s)) == ToUpper(TrimRight(s))
  {
    hide UpperChar, IsSpace;
    if s != "" {
      assert ToUpper(s)[..|s| - 1] == ToUpper(s[..|s| - 1]);
      UpperKeeps(s[|s| - 1]);
      UpperTrimsRight(s[..|s| - 1]);
    }
  }

  lemma UpperTrims(s: string)
    ensures TrimSpace(ToUpper(s)) == ToUpper(TrimSpace(s))
  {
    hide TrimLeft, TrimRight, ToUpper;
    UpperTrimsLeft(s);
    UpperTrimsRight(TrimLeft(s));
  }

  lemma UpperPart(part: string)
    ensures Blank(ToUpper(part)) <==> Blank(part)
    ensures SettingOf(ToUpper(part)) == SettingOf(part)
  {
    hide TrimSpace, Cut;
    UpperTrims(part);
    UpperCuts(TrimSpace(part));
    var (key, value, found) := Cut(TrimSpace(part), '=');
    UpperTrims(key);
    UpperTrims(value);
    UpperTwice(TrimSpace(key));
    UpperTwice(TrimSpace(value));
  }

  lemma {:induction false} SameSettings(a: seq<string>, b: seq<string>)
    requires |a| == |b|
    requires forall i | 0 <= i < |a| :: (Blank(a[i]) <==> Blank(b[i])) && SettingOf(a[i]) == SettingOf(b[i])
    ensures SettingsIn(a) == SettingsIn(b)
  {
    hide Blank, SettingOf;
    if a != [] {
      SameSettings(a[1..], b[1..]);
    }
  }

  /** Rule text in capitals is accepted or refused alike, and gives the same rule. */
  lemma CaseDoesNotMatter(text: string, r: RepeatRule)
    ensures ParseRRule(ToUpper(text)) == Ok(r) <==> ParseRRule(text) == Ok(r)
  {
    hide Split, SettingsIn, DistinctKeys, Allowed, Blank, SettingOf, Means, StandsFor, ParseRRule, ToUpper;
    ParserComputesMeaning(text, r);
    ParserComputesMeaning(ToUpper(text), r);
    UpperSplits(text);
    var parts, upper := Split(text, ';'), Split(ToUpper(text), ';');
    forall i | 0 <= i < |parts| ensures (Blank(parts[i]) <==> Blank(upper[i])) && SettingOf(parts[i]) == SettingOf(upper[i]) {
      UpperPart(parts[i]);
    }
    SameSettings(parts, upper);
  }
}
