/** What any text handed to the parser means, shorthands and prefixes included. */
module RepeatMeaning {
  import opened RepeatRules
  import opened RepeatText
  import opened RepeatGrammar
  import opened RepeatCanon
  import opened GoText
  import opened Wrappers

  /** What the canonical text of a rule denotes: that rule and no other. */
  lemma OwnTextDenotes(own: RepeatRule, r: RepeatRule)
    requires WellFormed(own)
    ensures Denotes(Text(own), r) <==> r == own
  {
    hide Denotes, ParseRRule, Text, WellFormed;
    TextIsRRule(own);
    ParserComputesMeaning(Text(own), r);
  }

  lemma ShorthandsDenote(r: RepeatRule)
    ensures Denotes("FREQ=DAILY", r) <==> r == PlainRule(Daily, 1)
    ensures Denotes("FREQ=WEEKLY", r) <==> r == PlainRule(Weekly, 1)
    ensures Denotes("FREQ=MONTHLY", r) <==> r == PlainRule(Monthly, 1)
    ensures Denotes("FREQ=YEARLY", r) <==> r == PlainRule(Yearly, 1)
    ensures Denotes("FREQ=WEEKLY;BYDAY=MO,TU,WE,TH,FR", r) <==> r == PlainRule(Weekly, 1).(weekdays := [1, 2, 3, 4, 5])
  {
    hide Denotes, Text, WellFormed;
    ShorthandsWellFormed();
    ShorthandTexts();
    WeekdaysText();
    OwnTextDenotes(PlainRule(Daily, 1), r);
    OwnTextDenotes(PlainRule(Weekly, 1), r);
    OwnTextDenotes(PlainRule(Monthly, 1), r);
    OwnTextDenotes(PlainRule(Yearly, 1), r);
    OwnTextDenotes(PlainRule(Weekly, 1).(weekdays := [1, 2, 3, 4, 5]), r);
  }

  lemma PrefixMeans(s: string, prefix: string)
    requires prefix == "CRON:" || prefix == "RRULE:"
    ensures HasPrefixFold(s, prefix) <==> |s| >= |prefix| && ToUpper(s[..|prefix|]) == prefix
  {
    if |s| >= |prefix| && ToUpper(s[..|prefix|]) == prefix {
      forall i | 0 <= i < |prefix| ensures UpperChar(s[i]) == prefix[i] && s[i] < '\U{0080}' {
        assert ToUpper(s[..|prefix|])[i] == UpperChar(s[i]);
        PlainUpper(s[i], prefix[i]);
      }
    }
  }

  lemma PlainUpper(c: char, upper: char)
    requires UpperChar(c) == upper && upper < '\U{0080}' && upper != 'I' && upper != 'S'
    ensures c < '\U{0080}'
  {
  }

  /**
   * Which rule any text is parsed to: the shorthands, in any case, mean their rule texts; a prefix is passed over; all
   * else of 1 to 200 bytes means what its settings denote; and nothing but that is accepted.
   */
  lemma ParseMeans(raw: string, r: RepeatRule)
    ensures var text := TrimSpace(raw);
            var lower := ToLower(text);
            Parse(raw) == Rule(r) <==>
            && 1 <= ByteLen(text) <= 200
            && if lower == "daily" then Denotes("FREQ=DAILY", r)
               else if lower == "weekdays" then Denotes("FREQ=WEEKLY;BYDAY=MO,TU,WE,TH,FR", r)
               else if lower == "weekly" then Denotes("FREQ=WEEKLY", r)
               else if lower == "monthly" then Denotes("FREQ=MONTHLY", r)
               else if lower == "yearly" then Denotes("FREQ=YEARLY", r)
               else if |text| >= 5 && ToUpper(text[..5]) == "CRON:" then false
               else if |text| >= 6 && ToUpper(text[..6]) == "RRULE:" then Denotes(text[6..], r)
               else Denotes(text, r)
  {
    hide TrimSpace, ToLower, ToUpper, ByteLen, ParseRRule, Denotes, HasPrefixFold;
    var text := TrimSpace(raw);
    ShorthandsDenote(r);
    PrefixMeans(text, "CRON:");
    PrefixMeans(text, "RRULE:");
    EmptyIsNoBytes(text);
    ParserComputesMeaning(text, r);
    if |text| >= 6 {
      ParserComputesMeaning(text[6..], r);
    }
  }

  lemma EmptyIsNoBytes(s: string)
    ensures ByteLen(s) >= 1 <==> s != ""
  {
  }

  /** Cron text of 1 to 200 bytes is handed on without its prefix. */
  lemma CronIsHandedOn(raw: string)
    requires var text := TrimSpace(raw); ByteLen(text) <= 200 && |text| >= 5 && ToUpper(text[..5]) == "CRON:"
    ensures Parse(raw) == CronText(TrimSpace(raw)[5..])
  {
    hide TrimSpace, ByteLen, ParseRRule, ToUpper, ToLower, HasPrefixFold;
    PrefixMeans(TrimSpace(raw), "CRON:");
    NoColon(TrimSpace(raw));
  }

  lemma NoColon(text: string)
    requires |text| >= 5 && ToUpper(text[..5]) == "CRON:"
    ensures ToLower(text) !in {"daily", "weekdays", "weekly", "monthly", "yearly"}
  {
    assert ToUpper(text[..5])[4] == UpperChar(text[4]) == ':';
    assert text[4] == ':' && ToLower(text)[4] == ':';
  }
}
