# Verified model of the tracker's scheduling, fan-out and limiting core

This project models five parts of a Go issue tracker and proves what they promise.

**Repeating issues** (`internal/model/repeat.go`). Rule text in a subset of the recurrence rules of section 3.3.10 of
RFC 5545 is read, anchored to a start date, searched and written back. `RepeatRules.Occurs` says which dates belong to a
schedule by looking at a date alone, with no search, and every search is proved to return the least such date.
`RepeatGrammar.Denotes` says what rule text means as a set of settings, whatever their order and case, and the parser is
proved to compute it; `RepeatMeaning` takes that to any text handed to the parser. `RepeatCanon` spells out canonical
text, and `RepeatPhases` counts a schedule's dates from the interval its rule gives. `Calendar` builds the civil
calendar on day numbers and proves it against an odometer. As in the code, and unlike RFC 5545, a day too late for a
short month becomes the month's last day, and the start date is an occurrence only when the rule falls on it.

**Realtime fan-out** (`internal/realtime`). `RealtimeHub` holds the hub and its clients as objects, method by method.
`RealtimeProtocol` is the same system as a state machine whose steps any goroutine may interleave: a publish takes its
snapshot under the lock and sends afterwards, a `select` with several ready cases may take any of them, and a lost
event, its counting and its signal are three separate steps. `RealtimeGuarantees` proves what every run keeps and
`RealtimeProgress` what can always be done. `RealtimeProtocol.UninterruptedOffer` ties the two views together.

**Sign-in rate limits** (`internal/server/auth_rate_limit.go`). `RateLimiter` is the bounded table, with its purge and its
eviction of an entry that expires soonest. `RateLimiterGuarantees` compares it with an ideal limiter that never forgets a
key, `RateLimiterCrowding` shows what happens beyond capacity, and `RateLimiterBounds` says how long a refusal lasts and
how many calls any interval can see allowed. `ClientIp` is the right-to-left scan that picks whom a request counts
against.

**Timeline layout** (`internal/model/timeline.go`, `internal/server/project_timeline.go`) and the **push worker**
(`internal/notifications/worker.go`): tight frames, in-place selection, stable order, conserved counters, and exact
backoff that stays within 64 bits.

Dates are whole days since 1 January 1970. Go's truncating `/` and `%` are written out in `GoInt`. Clocks, store
answers, provider statuses, address parsing and identifier parsing are parameters.

Where the code does not do what a plain reading of its comments suggests:

- A lost event and its resync signal are separate steps, so the one-slot control can be empty for a moment after a loss
  (`RealtimeGuarantees.SlotMayBeEmptyUntilSignalled` gives a run). The slot is full exactly when the client has been
  signalled since it last took a control, so a loss finds it empty exactly when nobody has done so yet
  (`RealtimeProtocol.SlotFullIffSignalled`, `RealtimeProtocol.LossUnsignalledIff`), and then a publisher is about to
  (`RealtimeProtocol.NoSilentDivergence`). The hub's counter likewise trails the losses by those still being counted
  (`RealtimeGuarantees.DroppedIsTheSum`).
- The limiter agrees with an unbounded one exactly while calls stay below capacity: a run evicts nobody if and only if
  its calls do (`RateLimiterGuarantees.NoEvictionIffBelowCapacity`), below capacity every answer agrees
  (`RateLimiterGuarantees.BelowCapacityIsIdeal`), and otherwise some beginning of the calls can be continued so that an
  answer differs (`RateLimiterCrowding.CrowdingShows`; `RateLimiterCrowding.EvictionForgives` is a small case).
- A sliding interval one window long sees at most twice the limit less one allowed calls, and that many can happen for
  every limit and window but a one-tick window with a limit above one (`RateLimiterBounds.SlidingBoundIsTight`).
- `TimelineFrame` shows today exactly when it is not asked to begin after it (`Timeline.FrameShowsToday`, with
  `Timeline.FrameMayMissToday` at such an input). Every range a reader may ask for shows it (`Timeline.RangesShowToday`).

## Model

| member | source | states |
|---|---|---|
| GoInt.FloorDivIsFloor | internal/model/repeat.go:645-651 | `floorDiv` on truncating operators is the floor of the exact quotient, for every sign of both operands |
| GoInt.DivProduct | internal/model/repeat.go:645-651 | the modelled `/` and `%` give the dividend back, with a remainder of the dividend's sign and less than the divisor's size |
| Calendar.CivilOfDate | internal/model/repeat.go:621-623 | reading a date's year, month and day and rebuilding the date gives it back, and the fields are a real calendar day |
| Calendar.DateOfCivil | internal/model/repeat.go:621-623 | every real year, month and day, leap days included, is the fields of the date built from it |
| Calendar.DaysFollowOdometer | internal/model/repeat.go:457-459 | one day on turns the civil odometer by one and the weekday by one, from Thursday 1 January 1970 |
| Calendar.DaysInMonth | internal/model/repeat.go:625-627 | day zero of the next month is the month's last day, so its day field is the month's length |
| Calendar.GregorianMonths | internal/model/repeat.go:625-627 | the months have their Gregorian lengths in every year |
| RepeatRules.LeapYearHoldsEveryDay | internal/model/repeat.go:242-248 | checking against the year 2000 refuses no day that any year's month has, 29 February included |
| RepeatRules.AnchoredCloses | internal/model/repeat.go:286-304 | anchoring gives a complete rule that text can express, and anchoring again, to any date, changes nothing |
| RepeatRules.AnchoredIsPlaced | internal/model/repeat.go:475-480 | every well-formed rule, once in a schedule, names a day the searches can find |
| RepeatRules.AnchoredStartsOnStart | internal/model/repeat.go:283-304 | a rule that leaves its day to the start date, the shorthands among them, has the start date as first occurrence |
| RepeatPhases.AnchoredWeekly | internal/model/repeat.go:289-292 | a weekly rule without a day falls on the start and every interval of weeks from it, and on nothing else |
| RepeatPhases.AnchoredMonthly | internal/model/repeat.go:293-296 | a monthly rule without a day falls, every interval of months, on the start's day or the last day of a month too short for it, and on nothing else |
| RepeatPhases.AnchoredYearly | internal/model/repeat.go:297-301 | a yearly rule without a date falls, every interval of years, on the start's month and day or the last day of February for a leap day, and on nothing else |
| RepeatPhases.CompleteStays | internal/model/repeat.go:286-304 | a rule that names its own day is left as it is |
| RepeatPhases.DailyDates | internal/model/repeat.go:493-496 | the dates of a daily schedule are those a multiple of its interval of days from the start |
| RepeatPhases.DailySpacing | internal/model/repeat.go:491-496 | after a daily date comes the one exactly an interval later, and none between |
| RepeatPhases.WeeklyDates | internal/model/repeat.go:497-507 | the dates of a weekly schedule are its weekdays in weeks a multiple of its interval from the start's |
| RepeatPhases.WeeklySpacing | internal/model/repeat.go:497-507 | two dates of a weekly schedule have Mondays a multiple of seven times the interval apart |
| RepeatPhases.WeekHoldsItsDays | internal/model/repeat.go:497-507 | each such week from the start on holds every weekday the rule names |
| RepeatPhases.MonthlyDates | internal/model/repeat.go:508-517 | the dates of a monthly schedule are its days in months a multiple of its interval from the start's |
| RepeatPhases.MonthlySpacing | internal/model/repeat.go:508-517 | two dates of a monthly schedule are in months a multiple of the interval apart |
| RepeatPhases.MonthHoldsOne | internal/model/repeat.go:508-517 | each such month after the start's holds exactly one date |
| RepeatPhases.MonthlyDayMeans | internal/model/repeat.go:555-571 | ordinals count a month's weekdays from its first or last day, and a late day gives way to a short month's last day |
| RepeatPhases.YearlyDates | internal/model/repeat.go:518-528 | the dates of a yearly schedule are its day in years a multiple of its interval from the start's |
| RepeatPhases.YearlySpacing | internal/model/repeat.go:518-528 | two dates of a yearly schedule are a multiple of the interval of years apart |
| RepeatPhases.YearHoldsOne | internal/model/repeat.go:518-528 | each such year after the start's holds exactly one date |
| RepeatPhases.LowIntervalIsOne | internal/model/repeat.go:491 | an interval below one counts as one |
| RepeatPhases.MondayBefore | internal/model/repeat.go:279-281 | weeks begin on Monday |
| RepeatSearch.WeekIndexCountsMondays | internal/model/repeat.go:635-638 | the week index counts Mondays, before 2001 as well as after |
| RepeatSearch.WeeklyTest | internal/model/repeat.go:501-504 | the weekly scan's test, with its signed remainder, accepts exactly the days that belong to the schedule |
| RepeatSearch.WeekScanReaches | internal/model/repeat.go:497-507 | some day within 7(n+1) of any start belongs to the schedule, so the weekly scan never runs out |
| RepeatSearch.FirstWeekly | internal/model/repeat.go:497-507 | the weekly scan returns the least occurrence from its start |
| RepeatSearch.FirstDaily | internal/model/repeat.go:493-496 | the daily jump, computed by rounding up, is the least occurrence from its start |
| RepeatSearch.OneCandidateAMonth | internal/model/repeat.go:555-571 | each month holds exactly one day a monthly rule names, inside that month, and the computed date is that day |
| RepeatSearch.ClampRecovers | internal/model/repeat.go:568-570 | a rule on a late day takes a short month's last day and goes back to its own day in the next long one |
| RepeatSearch.MonthScanReaches | internal/model/repeat.go:508-517 | an occurrence lies within n months of any start, so the month scan never runs out |
| RepeatSearch.FirstMonthly | internal/model/repeat.go:508-517 | the month scan returns the least occurrence from its start |
| RepeatSearch.OneCandidateAYear | internal/model/repeat.go:518-528 | each year holds exactly one day a yearly rule names, 28 February standing in for the 29th in common years |
| RepeatSearch.YearScanReaches | internal/model/repeat.go:518-528 | an occurrence lies within n years of any start, so the year scan never runs out |
| RepeatSearch.FirstYearly | internal/model/repeat.go:518-528 | the year scan returns the least occurrence from its start |
| RepeatSearch.FirstOnOrAfter | internal/model/repeat.go:485-548 | for every placed rule an answer exists and is the least occurrence on or after both the query and the start date; `RepeatPhases` counts the occurrences from the rule's own interval |
| RepeatSearch.NextAfter | internal/model/repeat.go:551-553 | the least occurrence strictly after the given date |
| RepeatRules.FirstIsUnique | internal/model/repeat.go:482-484 | the first date on or after a query is one date, so the searches' contracts fix their answers |
| RepeatPlans.OccurrencesExact | internal/model/repeat.go:592-619 | the reference list of a range holds exactly its occurrences, each once, in increasing order |
| RepeatPlans.WalkCapped | internal/model/repeat.go:585-601 | a walk cut short at 100,000 steps still yields the plan of a direct jump, with the same kept dates |
| RepeatPlans.PlanAfterCompletion | internal/model/repeat.go:592-608 | next is the first date on or after both tomorrow and completion, the count is of all dates passed over up to the cap, and the kept dates are the first ten of them |
| RepeatPlans.PlanIsUnique | internal/model/repeat.go:587-608 | a schedule, the current date and the completion date leave one possible plan |
| RepeatPlans.PreviewIsUnique | internal/model/repeat.go:610-619 | a start and a length leave one possible preview |
| RepeatPlans.Upcoming | internal/model/repeat.go:611-619 | exactly the first n occurrences on or after a date, for every n, none skipped |
| RepeatText.AcceptedIsWellFormed | internal/model/repeat.go:96-256 | whatever text is accepted, the rule is within every limit and its fields fit its frequency |
| RepeatText.SortedMondayFirst | internal/model/repeat.go:274-281 | distinct weekdays come out as the same days, Monday first |
| RepeatGrammar.MondayFirstUnique | internal/model/repeat.go:274-281 | a set of weekdays has one Monday-first listing, so any correct sort gives the same rule |
| RepeatGrammar.AllowedMeans | internal/model/repeat.go:168-185 | a setting is refused only for an unknown key or an interval that is not a number from 1 to 99 |
| RepeatGrammar.SortedNames | internal/model/repeat.go:196-207 | a weekly day list is accepted exactly when every code names a day, and gives exactly the days named |
| RepeatGrammar.OrdinalNamed | internal/model/repeat.go:258-272 | an ordinal weekday is accepted exactly when it is an allowed number written straight before a day code; the comma check adds nothing |
| RepeatGrammar.FinishMeans | internal/model/repeat.go:187-255 | each frequency's checks accept a rule exactly when the gathered settings stand for it |
| RepeatGrammar.ParserComputesMeaning | internal/model/repeat.go:149-256 | rule text parses to a rule if and only if the text's settings, read as a set, denote that rule |
| RepeatGrammar.OrderDoesNotMatter | internal/model/repeat.go:149-186 | text with its parts in another order is accepted or refused alike and gives the same rule |
| RepeatGrammar.CaseDoesNotMatter | internal/model/repeat.go:158-160 | text in capitals is accepted or refused alike and gives the same rule |
| RepeatMeaning.ParseMeans | internal/model/repeat.go:96-123 | text is parsed to a rule if and only if it is 1 to 200 bytes and, as a shorthand in any case, after an RRULE: prefix in any case, or as it stands, it denotes that rule; each shorthand means its rule text |
| RepeatMeaning.ShorthandsDenote | internal/model/repeat.go:104-115 | the five rule texts the shorthands stand for denote exactly the five shorthand rules |
| RepeatMeaning.CronIsHandedOn | internal/model/repeat.go:117-119 | text after CRON: in any case goes to the cron parser unchanged |
| RepeatCanon.FrequencyWords | internal/model/repeat.go:18-26 | which word names which frequency |
| RepeatCanon.DayCodes | internal/model/repeat.go:75-78 | which code names which weekday |
| GoText.AsciiCharacters | internal/model/repeat.go:158-159 | which ASCII characters are white space, and the capital and small letter of each |
| GoText.ItoaSamples | internal/model/repeat.go:313 | numbers are written most significant digit first, with no zeros or plus sign before them |
| GoText.TrimMeans | internal/model/repeat.go:97 | trimming takes away exactly the white space at both ends |
| GoText.CutMeans | internal/model/repeat.go:157 | cutting takes the text before the first separator and all after it |
| GoText.SplitMeans | internal/model/repeat.go:153 | splitting loses nothing and leaves no separator behind |
| GoText.AtoiMeans | internal/model/repeat.go:171 | a number is read from exactly an optional sign, any zeros and its own digits, within 64 bits |
| RepeatCanon.DailyText | internal/model/repeat.go:307-336 | a daily rule is written FREQ=DAILY with its interval only when above one |
| RepeatCanon.WeeklyText | internal/model/repeat.go:307-336 | a weekly rule is written with its days as codes in order, if any |
| RepeatCanon.MonthlyText | internal/model/repeat.go:307-336 | a monthly rule is written with its ordinal weekday or its day, if any |
| RepeatCanon.YearlyText | internal/model/repeat.go:307-336 | a yearly rule is written with its month and then its day, if any |
| RepeatText.TextReadsBack | internal/model/repeat.go:307-336 | every well-formed rule is read back from its canonical text, which is within 200 bytes |
| RepeatText.ParseTextRoundTrip | internal/model/repeat.go:96-336 | for every accepted text, parsing the printed rule gives the same rule again |
| RepeatText.WellFormedIffDenoted | internal/model/repeat.go:96-256 | the well-formed rules are exactly those some text is parsed to |
| RepeatText.TextInjective | internal/model/repeat.go:306-336 | different rules have different canonical texts |
| RepeatText.AnchoredReadsBack | internal/model/repeat.go:286-336 | anchoring any parsed rule to any date gives a complete rule that its own text still denotes |
| RepeatReader.ReadWeekdays | internal/model/repeat.go:196-207 | the collecting loop computes the deduplicated, sorted days or the error |
| RepeatReader.ReadRRule | internal/model/repeat.go:149-256 | the loop over parts, with its mutated locals, computes the parse function, errors included |
| RepeatReader.FinishRule | internal/model/repeat.go:187-255 | the assignments of each frequency compute the finishing function, errors included |
| RepeatReader.ParseRepeatRule | internal/model/repeat.go:96-123 | reading computes the parse that `RepeatMeaning.ParseMeans` gives the meaning of, and what is accepted is well formed and read back unchanged from its text |
| RepeatReader.RuleString | internal/model/repeat.go:307-336 | appending the parts in order gives the canonical text, which `RepeatCanon` spells out for each frequency |
| RealtimeEvents.ParseTopic | internal/realtime/event.go:205-216 | accepts exactly a known kind, a colon and a parsable identifier; the order in which kinds are tried does not matter |
| RealtimeEvents.KnownKinds | internal/realtime/event.go:206 | the eleven kinds a client may name |
| RealtimeEvents.TopicNames | internal/realtime/event.go:191-216 | a built topic matches its own kind, gives back its identifier's text, and matches no other kind |
| RealtimeEvents.TopicsDistinct | internal/realtime/event.go:191-201 | two built topics are the same text only for the same kind and identifier |
| RealtimeEvents.FollowersHearExactly | internal/realtime/event.go:62-189 | an event goes out to the followers of an object if and only if it concerns that object, kind by kind from the follower's side |
| RealtimeRegistry.RegistryMeansHistory | internal/realtime/hub.go:32-67 | after any run of subscribe, unsubscribe and remove, no topic is left empty and each client's access is its latest one |
| RealtimeRegistry.RecipientsMean | internal/realtime/hub.go:77-90 | a client is a recipient if and only if some topic of the event holds it, with members-only access when the event is members-only |
| RealtimeRegistry.SubscribersMean | internal/realtime/hub.go:106-113 | the subscribers are the clients some topic holds |
| RealtimeHub.OfferedMeans | internal/realtime/hub.go:92-99 | an offer queues below 64 waiting events, and otherwise leaves the overflow signal unless one waits already |
| RealtimeHub.Client.constructor | internal/realtime/client.go:36-46 | a new client has an empty queue, an empty control slot and no disconnect |
| RealtimeHub.Client.TrySend | internal/realtime/hub.go:92-95 | a send appends to a queue with fewer than 64 events and otherwise changes nothing |
| RealtimeHub.Client.RequestResync | internal/realtime/hub.go:137-142 | a signal fills an empty slot and leaves an earlier one in place |
| RealtimeHub.Client.RequestDisconnect | internal/realtime/client.go:161-166 | sets the disconnect signal and nothing else, however often it is called |
| RealtimeHub.Hub.SubscribeWithAccess | internal/realtime/hub.go:32-41 | adds or replaces one client's access on one topic and leaves every other as it was |
| RealtimeHub.Hub.Unsubscribe | internal/realtime/hub.go:43-52 | takes one client off one topic, and the topic away if that empties it |
| RealtimeHub.Hub.Remove | internal/realtime/hub.go:56-67 | walking the map while deleting from it, in any order, takes the client off every topic and leaves none empty |
| RealtimeHub.Hub.Snapshot | internal/realtime/hub.go:77-90 | the nested loops gather exactly the clients on some topic of the event, those with members-only access alone when the event is members-only |
| RealtimeHub.Hub.Offer | internal/realtime/hub.go:92-99 | the event is queued, or it is counted once and a signal is left |
| RealtimeHub.Hub.OfferAll | internal/realtime/hub.go:92-99 | each client is offered the event once, and the counter grows by the number that were full |
| RealtimeHub.Hub.Publish | internal/realtime/hub.go:71-100 | every client on some topic of the event, with members-only access if the event needs it, and nobody else, is offered the event exactly once; each loss is counted and signalled |
| RealtimeHub.Hub.Everyone | internal/realtime/hub.go:106-113 | the nested loops gather exactly the clients on any topic |
| RealtimeHub.Hub.ResyncAll | internal/realtime/hub.go:105-118 | everyone subscribed to anything has a signal waiting, an earlier one kept |
| RealtimeHub.Hub.DisconnectAll | internal/realtime/hub.go:123-135 | everyone subscribed to anything is disconnected, their queues and slots as they were |
| RealtimeProtocol.NoSilentDivergence | internal/realtime/hub.go:92-142 | in every interleaving, a client that lost an event and took no control since has one waiting or about to be left by its publisher |
| RealtimeProtocol.SlotFullIffSignalled | internal/realtime/hub.go:105-142 | in every interleaving the slot is full if and only if the client was signalled since it last took a control |
| RealtimeProtocol.SlotHoldsFirstReason | internal/realtime/hub.go:105-142 | in every interleaving the slot holds the first reason given since a control was last taken |
| RealtimeProtocol.LossUnsignalledIff | internal/realtime/hub.go:92-142 | after an unheard loss the slot is empty exactly when nobody has signalled the client since its last control, and a publisher is then about to |
| RealtimeProtocol.UninterruptedOffer | internal/realtime/hub.go:92-99 | the protocol's steps, run without interruption, do to client and counter what the hub's method does |
| RealtimeGuarantees.QueueConserved | internal/realtime/client.go:36-46 | in every run, what was queued is what was taken, in order, followed by what waits, and never more than 64 wait |
| RealtimeGuarantees.OffersConserved | internal/realtime/hub.go:92-99 | in every run the events publishes offered a client, read off their states, are those it took, those waiting and those lost, the first two in the order offered |
| RealtimeGuarantees.DroppedIsTheSum | internal/realtime/hub.go:92-146 | in every run the hub's counter plus the losses about to be counted is the sum of every client's losses |
| RealtimeGuarantees.OneEventAfterDisconnect | internal/realtime/client.go:114-166 | after a disconnect is requested at most one more event leaves the queue, in every continuation |
| RealtimeGuarantees.OneEventBeforeControl | internal/realtime/client.go:120-159 | after a signal is placed at most one event leaves the queue before that control is taken |
| RealtimeGuarantees.OfferedExactlyOnce | internal/realtime/hub.go:71-100 | under any interleaving a publish offers its event once to each client of its snapshot and never to another |
| RealtimeGuarantees.TopicsFollowChanges | internal/realtime/hub.go:32-67 | only subscription calls change the topic map, in the order they take the lock |
| RealtimeGuarantees.OffersNeedLatestAccess | internal/realtime/hub.go:30-100 | under any interleaving a publish offers its event, once, to exactly the clients whose latest access on some topic of it, when the publish began, will do: members-only access for a members-only event, any access otherwise |
| RealtimeGuarantees.RecipientsByLatestAccess | internal/realtime/hub.go:30-90 | whom a publish begun now would be for, in terms of the run's subscription calls |
| RealtimeGuarantees.BroadcastReaches | internal/realtime/hub.go:105-135 | each client subscribed when a broadcast begins is still to be visited, or is disconnected, or has had a signal waiting since; a resync keeps its reason |
| RealtimeGuarantees.RevokedClientsStop | internal/realtime/hub.go:120-135 | once disconnecting everyone has finished, a client subscribed when it began takes at most one more event |
| RealtimeProgress.PublishFinishes | internal/realtime/hub.go:8-14 | from any reachable state a publish can finish by its own steps alone, at most three for each client still to visit and two more, whatever its clients do |
| RealtimeProgress.PumpTakesWhatIsReady | internal/realtime/client.go:120-158 | the pump passes its priority select only when nothing urgent is ready, and at either select may take any case that is ready there |
| RealtimeProgress.PumpEnds | internal/realtime/client.go:114-158 | after a failed write, a disconnect seen or the end of the connection the pump takes nothing more |
| RealtimeGuarantees.SlotMayBeEmptyUntilSignalled | internal/realtime/hub.go:92-99 | a concrete run in which an event is lost and the slot is empty until its publisher signals |
| RateLimiter.FixedWindowLimiter.constructor | internal/server/auth_rate_limit.go:71-79 | a new limiter has its configuration and an empty table |
| RateLimiter.FixedWindowLimiter.MakeRoom | internal/server/auth_rate_limit.go:109-123 | purging while walking and tracking the oldest leaves the live entries, less one that expires soonest if still full |
| RateLimiter.FixedWindowLimiter.Allow | internal/server/auth_rate_limit.go:89-126 | answer and new table are those of one step of the limiter: spend, refuse with the time left, or admit with a new window |
| RateLimiter.FixedWindowLimiter.Blocked | internal/server/auth_rate_limit.go:135-149 | answers from the table without changing it |
| RateLimiterGuarantees.TableStaysBounded | internal/server/auth_rate_limit.go:89-126 | in every run, whatever the clock does, the table stays within capacity and every count within 1 to the limit |
| RateLimiterGuarantees.EvictionIsMinimal | internal/server/auth_rate_limit.go:109-123 | a live entry goes only for a new key in a full table, expires no later than any other, and is the only one to go |
| RateLimiterGuarantees.EvictionIff | internal/server/auth_rate_limit.go:109-123 | a live key is evicted exactly when a key without a window meets a table of live entries at capacity |
| RateLimiterGuarantees.KeySeesIdeal | internal/server/auth_rate_limit.go:89-149 | on a rising clock, a key not evicted so far gets the ideal limiter's answer and retry time at every call |
| RateLimiterGuarantees.NoEvictionBelowCapacity | internal/server/auth_rate_limit.go:109-123 | while fewer keys than the capacity have a window open, no live key is ever evicted |
| RateLimiterGuarantees.NoEvictionIffBelowCapacity | internal/server/auth_rate_limit.go:109-123 | a run evicts no live key if and only if, by its calls alone, each new window opens with fewer than the capacity open |
| RateLimiterGuarantees.BelowCapacityIsIdeal | internal/server/auth_rate_limit.go:89-149 | below capacity, every answer of a whole run is the unbounded limiter's |
| RateLimiterCrowding.EvictionShows | internal/server/auth_rate_limit.go:89-126 | for every configuration, once a key is first evicted, calling for it as often as the ideal limiter still allows and once more gets a yes where the ideal refuses |
| RateLimiterCrowding.CrowdingShows | internal/server/auth_rate_limit.go:89-126 | whenever calls do not stay below capacity, some beginning of them has a continuation answered otherwise than the ideal limiter would |
| RateLimiterCrowding.EvictionForgives | internal/server/auth_rate_limit.go:109-125 | exhibits a run beyond capacity in which an evicted key is allowed where the ideal limiter refuses |
| RateLimiterBounds.BlockedForetellsAllow | internal/server/auth_rate_limit.go:128-149 | blocked says exactly what allow would answer at that moment, with the same wait |
| RateLimiterBounds.RefusalHoldsUntilRetry | internal/server/auth_rate_limit.go:95-107 | the ideal limiter's refusal lasts, whatever calls are made meanwhile, until exactly the time it reported |
| RateLimiterBounds.RefusalHoldsInRuns | internal/server/auth_rate_limit.go:89-149 | in a run, a key refused and not evicted since is refused by allow and blocked alike until exactly the reported time, and the first call from then on is let through |
| RateLimiterBounds.SlidingBound | internal/server/auth_rate_limit.go:89-126 | any interval one window long sees at most twice the limit less one of a key's calls allowed |
| RateLimiterBounds.SlidingBoundInRuns | internal/server/auth_rate_limit.go:89-126 | the same bound for the bounded limiter, for any key never evicted |
| RateLimiterBounds.SlidingBoundIsTight | internal/server/auth_rate_limit.go:89-126 | the bound is met for a limit and a window exactly when the window is longer than one tick or the limit is one |
| ClientIp.ClientIP | internal/server/auth_rate_limit.go:227-261 | an untrusted peer is its own answer; for a trusted one the rightmost hop that is untrusted or no address settles it, and all hops trusted gives the peer |
| ClientIp.JudgedUnique | internal/server/auth_rate_limit.go:245-261 | that rule gives one answer |
| ClientIp.RightmostDecides | internal/server/auth_rate_limit.go:245-261 | a hop with only trusted proxies to its right decides: by its own address if untrusted, for the peer if it is no address |
| ClientIp.HopsInOrder | internal/server/auth_rate_limit.go:245-247 | header lines are read in order, each as its comma-separated hops |
| ClientIp.EarlierLinesIgnored | internal/server/auth_rate_limit.go:245-261 | header lines put before those that settle the answer cannot change it |
| Timeline.TimelineSpan | internal/model/timeline.go:74-101 | which issues have a bar, and where it starts and ends: never backwards, at completion, or at the planned day, reaching today while in progress |
| Timeline.Widen | internal/model/timeline.go:113-120 | widening by one span keeps the frame the tightest around all spans so far |
| Timeline.ExtentsMean | internal/model/timeline.go:121-130 | what is framed: each group's sprint if dated at both ends, and every bar |
| Timeline.GroupExtentsMean | internal/model/timeline.go:122-129 | which days one group adds to the frame |
| Timeline.TimelineFrame | internal/model/timeline.go:108-132 | the frame holds everything drawn and the week after today, and each edge is one of those days or `since` |
| Timeline.FrameShowsToday | internal/model/timeline.go:103-107 | a frame shows today if and only if it is not asked to begin after it |
| Timeline.FrameMayMissToday | internal/model/timeline.go:103-111 | a frame asked to begin tomorrow leaves today out |
| Timeline.RangesShowToday | internal/server/project_timeline.go:50-56 | each range a reader may ask for, 14, 30 or 90 days back or all time, frames today |
| Timeline.RangesReachBack | internal/server/project_timeline.go:50-56 | the ranges reach 14, 30 or 90 days back, and any other is for all time |
| Timeline.ProjectTimeline | internal/server/project_timeline.go:41-97 | one laid-out group per sprint in turn, one for work outside sprints when there is any or sprints are off, tightly framed with today and a week ahead |
| Timeline.TimelineItems | internal/server/project_timeline.go:150-167 | each issue is drawn with its own bar, and the result is a stable sort of them by where bars begin, nothing dated after an undated item |
| Timeline.StableSortPermutes | internal/server/project_timeline.go:159-165 | a stable sort neither loses nor doubles an item |
| Timeline.TiesStay | internal/server/project_timeline.go:159-165 | bars that begin on one day keep the order given, and so do items without a bar |
| Timeline.LayoutUnique | internal/server/project_timeline.go:150-167 | issues, sprint and day leave one possible layout, so the code's is the only one that meets its description |
| Timeline.SliceStableSorts | internal/server/project_timeline.go:159-165 | stable insertion by that comparison gives an ordered list with every group of ties in its given order |
| Timeline.StableSortUnique | internal/server/project_timeline.go:159-165 | any two stable sorts of the same items are the same list |
| Timeline.PickCompleted | internal/server/project_timeline.go:116-127 | in place, the leading in-range sprints, at most twelve, oldest first, whether there were more, and what stopped the list |
| Timeline.ReverseInPlace | internal/server/project_timeline.go:127 | the prefix is reversed in place |
| Timeline.TimelineSprints | internal/server/project_timeline.go:103-146 | completed sprints oldest first, then the active one, then the planned, with both flags for more; none if any page cannot be read |
| Timeline.NewestFirstLeads | internal/server/project_timeline.go:104-121 | in a newest-first list, stopping at the first sprint out of range misses none in range |
| Timeline.PageSpeaksForAll | internal/server/project_timeline.go:104-127 | one page past the limit decides for the whole history: the listed sprints and the flag are those of all of it |
| PushWorker.PushNotificationBackoff | internal/notifications/worker.go:247-262 | the delay is min(minimum times 2^(attempt-1), maximum) for every attempt, and no doubling leaves 64 bits |
| PushWorker.DelayGrows | internal/notifications/worker.go:247-262 | delays never shrink, stay within their bounds, and double exactly until the cap |
| PushWorker.NewWorker | internal/notifications/worker.go:54-91 | whatever the settings, at least one attempt and backoff bounds in order; settings in order are kept |
| PushWorker.RetriesSpaceOut | internal/notifications/worker.go:207-237 | a retry is put off by at least the minimum and at most the maximum, and a later attempt never waits less |
| PushWorker.FailOrRetry | internal/notifications/worker.go:207-237 | gives up on the last attempt and otherwise retries at now plus the closed-form delay, as the backoff loop works it out |
| PushWorker.Deliver | internal/notifications/worker.go:141-203 | completed exactly on a status from 200 to 299, disabled exactly on 400, 404 or 410, suppressed exactly when not authorised, retried exactly when attempts remain and preparation failed, nothing was answered or the status is 408, 425, 429 or at least 500, failed otherwise; the matching counters move only if stored |
| PushWorker.RunOnce | internal/notifications/worker.go:110-205 | a failed claim, or the first unit whose outcome the store refuses, stops the pass, and the counters say exactly which calls were stored; without error, failed events plus claimed deliveries equal delivered, retried, suppressed and failed, and delivered, disabled and suppressed are the numbers of deliveries so answered |
| PushWorker.AnswersCounted | internal/notifications/worker.go:145-181 | delivered, disabled and suppressed are read off the providers' answers |
| PushWorker.PassConserves | internal/notifications/worker.go:110-205 | counters that tally every call of a pass add up to its failed events and deliveries |
| PushWorker.EveryCallCounted | internal/notifications/worker.go:110-205 | every store call has exactly one of the six outcomes |

## Left out

- RepeatSearch.FirstOnOrAfter: promises a date only for rules that name a day, and none for rules that name no day of the week or have no frequency; field values that neither parsing nor anchoring can produce are not described.
- RealtimeProtocol.NoSilentDivergence: admits the moment between a loss and its signal, because the code has that moment; the README says so above.
- RateLimiter.FixedWindowLimiter.Allow: which of several entries expiring together is evicted is left open, as map order leaves it open.
- RealtimeEvents.FollowersHearExactly: is about identifiers with a non-empty text, as every printed identifier has.
- The cron branch of rules (`parseRepeatCron` and the CRON frequency): it rests on a library that is not part of this model. Text after "CRON:" is recognised and handed on.
- Time zones, today's date in a zone, and the wording of rule summaries.
- Unicode case mapping that stays outside ASCII, and text that is not valid UTF-8. Mappings into ASCII letters are modelled.
- Overflow of day numbers and years at the ends of Go's time range, and wrap-around of the 64-bit drop counter.
- `slices.SortFunc` and `sort.SliceStable` are modelled by insertion; the uniqueness lemmas show that another correct sort gives the same list.
- Parsing of identifiers, addresses and networks, and the digest taken of a limiter key: parameters or plain non-empty strings.
- The write pump is modelled as steps of the protocol rather than as a loop. Its writes succeed or end it; a ping and an end of the connection are steps; contexts, timeouts and JSON are not modelled.
- The read pump's messages and the authorizer: any client may change its subscriptions at any time.
- `Subscribe` without access, `TopicCount` and other one-line members.
- Rounding of the retry time to whole seconds, and the HTTP answers around the limiter.
- Logging, send timeouts, batch sizes and the shortening of error text in the worker. A call cancelled by its context is an answer like any other.
- Parsing of the timeline range, the flags for more issues in a group and the count of unscheduled ones; timeline dates are taken in UTC.
