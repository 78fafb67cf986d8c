/** The push worker's accounting and its retry delays. */
module PushWorker {
  import opened Wrappers
  import GoInt

  const MAX_DURATION := 0x7FFF_FFFF_FFFF_FFFF

  // ----- Backoff -----

  function Pow2(n: nat): (p: nat)
    ensures p >= 1
  {
    if n == 0 then 1 else 2 * Pow2(n - 1)
  }

  /** The delay in closed form: the minimum doubled for each earlier attempt, capped. */
  function Delay(attempt: int, minimum: int, maximum: int): int {
    GoInt.Min(minimum * Pow2(GoInt.Max(attempt, 1) - 1), maximum)
  }

  lemma {:induction false} Pow2Monotone(a: nat, b: nat)
    requires a <= b
    ensures Pow2(a) <= Pow2(b)
  {
    if a < b {
      Pow2Monotone(a, b - 1);
    }
  }

  lemma ScaleMonotone(minimum: int, a: nat, b: nat)
    requires minimum >= 0 && a <= b
    ensures minimum * a <= minimum * b
  {
  }

  /** Doubling in a loop that stops short of the maximum gives the closed form, and no doubling leaves 64 bits. */
  method PushNotificationBackoff(attempt: int, minimum: int, maximum: int) returns (delay: int)
    requires 0 <= minimum <= MAX_DURATION && maximum <= MAX_DURATION
    ensures delay == Delay(attempt, minimum, maximum)
  {
    var n := if attempt < 1 then 1 else attempt;
    delay := minimum;
    for i := 1 to n
      invariant 0 <= delay == minimum * Pow2(i - 1) <= MAX_DURATION
    {
      assert minimum * Pow2(i) == 2 * delay;
      if delay >= maximum || delay > GoInt.Div(maximum, 2) {
        Pow2Monotone(i, n - 1);
        Pow2Monotone(i - 1, n - 1);
        ScaleMonotone(minimum, Pow2(i), Pow2(n - 1));
        ScaleMonotone(minimum, Pow2(i - 1), Pow2(n - 1));
        return maximum;
      }
      delay := delay * 2;
    }
    if delay > maximum {
      return maximum;
    }
  }

  /** Later attempts never wait less, every wait is within bounds, and the doubling is exact until the cap. */
  lemma DelayGrows(attempt: int, minimum: int, maximum: int)
    requires 0 <= minimum <= maximum
    ensures minimum <= Delay(attempt, minimum, maximum) <= Delay(attempt + 1, minimum, maximum) <= maximum
    ensures attempt >= 1 ==>
              Delay(attempt + 1, minimum, maximum) == GoInt.Min(2 * Delay(attempt, minimum, maximum), maximum)
  {
    var n := GoInt.Max(attempt, 1) - 1;
    var next := GoInt.Max(attempt + 1, 1) - 1;
    Pow2Monotone(n, next);
    ScaleMonotone(minimum, 1, Pow2(n));
    ScaleMonotone(minimum, Pow2(n), Pow2(next));
    assert minimum * 1 == minimum;
    if attempt >= 1 {
      assert minimum * Pow2(next) == 2 * (minimum * Pow2(n));
    }
  }

  lemma {:induction false} DelayMonotone(a: int, b: int, minimum: int, maximum: int)
    requires 0 <= minimum <= maximum && a <= b
    ensures minimum <= Delay(a, minimum, maximum) <= Delay(b, minimum, maximum) <= maximum
    decreases b - a
  {
    hide Delay;
    DelayGrows(a, minimum, maximum);
    if a < b {
      DelayMonotone(a + 1, b, minimum, maximum);
    }
  }

  // ----- How a worker is set up -----

  const SECOND := 1_000_000_000

  /** Durations in nanoseconds; zero and negative settings ask for the defaults. */
  datatype Options = Options(maxAttempts: int, minBackoff: int, maxBackoff: int)

  predicate Ready(w: Options) {
    w.maxAttempts >= 1 && 0 < w.minBackoff <= w.maxBackoff <= MAX_DURATION
  }

  /** Whatever the settings, the worker has an attempt to make and backoff bounds in order; settings in order are kept. */
  method NewWorker(opts: Options) returns (w: Options)
    requires opts.minBackoff <= MAX_DURATION && opts.maxBackoff <= MAX_DURATION
    ensures Ready(w) && (Ready(opts) ==> w == opts)
    ensures w.maxAttempts == if opts.maxAttempts <= 0 then 8 else opts.maxAttempts
    ensures w.minBackoff == if opts.minBackoff <= 0 then 5 * SECOND else opts.minBackoff
    ensures w.maxBackoff == GoInt.Max(w.minBackoff, if opts.maxBackoff <= 0 then 900 * SECOND else opts.maxBackoff)
  {
    w := opts;
    if w.maxAttempts <= 0 {
      w := w.(maxAttempts := 8);
    }
    if w.minBackoff <= 0 {
      w := w.(minBackoff := 5 * SECOND);
    }
    if w.maxBackoff <= 0 {
      w := w.(maxBackoff := 900 * SECOND);
    }
    if w.maxBackoff < w.minBackoff {
      w := w.(maxBackoff := w.minBackoff);
    }
  }

  // ----- One pass of the worker -----

  predicate Rejected(status: int) {
    status == 400 || status == 404 || status == 410
  }

  predicate Retryable(status: int) {
    status == 408 || status == 425 || status == 429 || status >= 500
  }

  /**
   * What the store, the sender and the clock answer for one event or delivery; recorded says the store then took the
   * outcome, and now is the clock when a retry is worked out.
   */
  datatype EventWork = EventWork(created: Option<nat>, attempts: int, now: int, recorded: bool)

  datatype Prepared = PrepareFailed | NotAuthorized | Sent(status: Option<int>)

  datatype DeliveryWork = DeliveryWork(prepared: Prepared, attempts: int, now: int, recorded: bool)

  datatype RunResult = RunResult(
    eventsClaimed: nat,
    deliveriesCreated: nat,
    deliveriesClaimed: nat,
    delivered: nat,
    retried: nat,
    suppressed: nat,
    disabled: nat,
    failed: nat)

  const NOTHING := RunResult(0, 0, 0, 0, 0, 0, 0, 0)

  datatype Outcome = Materialized | Completed | Suppressed | Disabled | Failed | Retried

  /** The one store call that settles a unit of work, with the time a retry is put off to. */
  datatype StoreCall = StoreCall(outcome: Outcome, retryAt: Option<int>)

  /** A failure is final on the last attempt; before that it is retried after the attempt's delay. */
  function AfterFailure(w: Options, attempts: int, now: int): StoreCall {
    if attempts >= w.maxAttempts then StoreCall(Failed, None)
    else StoreCall(Retried, Some(now + Delay(attempts, w.minBackoff, w.maxBackoff)))
  }

  /** A retry waits at least the minimum and at most the maximum, and a later attempt never waits less. */
  lemma RetriesSpaceOut(w: Options, a: int, b: int, now: int, later: int)
    requires Ready(w) && a <= b < w.maxAttempts
    ensures var first, second := AfterFailure(w, a, now), AfterFailure(w, b, later);
            && first.retryAt.Some? && second.retryAt.Some?
            && w.minBackoff <= first.retryAt.value - now <= second.retryAt.value - later <= w.maxBackoff
  {
    DelayMonotone(a, b, w.minBackoff, w.maxBackoff);
  }

  function EventCall(w: Options, e: EventWork): StoreCall {
    if e.created.Some? then StoreCall(Materialized, None) else AfterFailure(w, e.attempts, e.now)
  }

  /** By the provider's answer: success completes, rejection disables, anything else retryable or unanswered retries while it may. */
  function DeliveryCall(w: Options, d: DeliveryWork): StoreCall {
    match d.prepared
    case PrepareFailed => AfterFailure(w, d.attempts, d.now)
    case NotAuthorized => StoreCall(Suppressed, None)
    case Sent(None) => AfterFailure(w, d.attempts, d.now)
    case Sent(Some(status)) =>
      if 200 <= status < 300 then StoreCall(Completed, None)
      else if Rejected(status) then StoreCall(Disabled, None)
      else if !Retryable(status) then StoreCall(Failed, None)
      else AfterFailure(w, d.attempts, d.now)
  }

  /** The provider answered with a status. */
  predicate Answered(d: DeliveryWork) {
    d.prepared.Sent? && d.prepared.status.Some?
  }

  function CountOf(calls: seq<StoreCall>, o: Outcome): nat {
    if calls == [] then 0
    else CountOf(calls[..|calls| - 1], o) + if calls[|calls| - 1].outcome == o then 1 else 0
  }

  /** The counters say exactly which store calls were made. */
  predicate Tallies(result: RunResult, calls: seq<StoreCall>) {
    && result.delivered == CountOf(calls, Completed)
    && result.retried == CountOf(calls, Retried)
    && result.suppressed == CountOf(calls, Suppressed) + CountOf(calls, Disabled)
    && result.disabled == CountOf(calls, Disabled)
    && result.failed == CountOf(calls, Failed)
  }

  function Tallied(result: RunResult, o: Outcome): RunResult {
    match o
    case Materialized => result
    case Completed => result.(delivered := result.delivered + 1)
    case Suppressed => result.(suppressed := result.suppressed + 1)
    case Disabled => result.(disabled := result.disabled + 1, suppressed := result.suppressed + 1)
    case Failed => result.(failed := result.failed + 1)
    case Retried => result.(retried := result.retried + 1)
  }

  lemma TallyOne(result: RunResult, calls: seq<StoreCall>, call: StoreCall)
    requires Tallies(result, calls)
    ensures Tallies(Tallied(result, call.outcome), calls + [call])
  {
    assert (calls + [call])[..|calls|] == calls;
  }

  /** The store call each unit of work asks for, in the order the pass takes them. */
  function Calls(w: Options, events: seq<EventWork>, deliveries: seq<DeliveryWork>): (calls: seq<StoreCall>)
    ensures |calls| == |events| + |deliveries|
  {
    seq(|events|, i requires 0 <= i < |events| => EventCall(w, events[i]))
    + seq(|deliveries|, i requires 0 <= i < |deliveries| => DeliveryCall(w, deliveries[i]))
  }

  /** Whether the store takes the unit's outcome; a materialised event has nothing more to record. */
  predicate Taken(events: seq<EventWork>, deliveries: seq<DeliveryWork>, i: nat)
    requires i < |events| + |deliveries|
  {
    if i < |events| then events[i].created.Some? || events[i].recorded else deliveries[i - |events|].recorded
  }

  /** failEvent and failDelivery: give up on the last attempt, otherwise put the work off by the loop's delay. */
  method FailOrRetry(w: Options, attempts: int, now: int) returns (call: StoreCall)
    requires Ready(w)
    ensures call == AfterFailure(w, attempts, now)
  {
    if attempts >= w.maxAttempts {
      return StoreCall(Failed, None);
    }
    var delay := PushNotificationBackoff(attempts, w.minBackoff, w.maxBackoff);
    return StoreCall(Retried, Some(now + delay));
  }

  /** One delivery: the store call it ends in, and the counters if the store took it. */
  method Deliver(w: Options, before: RunResult, d: DeliveryWork) returns (result: RunResult, call: StoreCall)
    requires Ready(w)
    ensures call == DeliveryCall(w, d)
    ensures result == if d.recorded then Tallied(before, call.outcome) else before
    ensures call.outcome == Completed <==> Answered(d) && 200 <= d.prepared.status.value <= 299
    ensures call.outcome == Disabled <==> Answered(d) && d.prepared.status.value in {400, 404, 410}
    ensures call.outcome == Suppressed <==> d.prepared == NotAuthorized
    ensures call.outcome == Retried <==>
            && d.attempts < w.maxAttempts
            && (|| d.prepared == PrepareFailed || d.prepared == Sent(None)
                || (Answered(d) && (d.prepared.status.value in {408, 425, 429} || d.prepared.status.value >= 500)))
    ensures call.outcome in {Completed, Disabled, Suppressed, Retried, Failed}
    ensures call.retryAt == if call.outcome == Retried then Some(d.now + Delay(d.attempts, w.minBackoff, w.maxBackoff))
                            else None
    ensures d.recorded ==>
              && (call.outcome == Completed ==> result == before.(delivered := before.delivered + 1))
              && (call.outcome == Disabled ==>
                    result == before.(disabled := before.disabled + 1, suppressed := before.suppressed + 1))
              && (call.outcome == Suppressed ==> result == before.(suppressed := before.suppressed + 1))
              && (call.outcome == Retried ==> result == before.(retried := before.retried + 1))
              && (call.outcome == Failed ==> result == before.(failed := before.failed + 1))
    ensures !d.recorded ==> result == before
  {
    hide Delay;
    result := before;
    var ok := d.recorded;
    if d.prepared == NotAuthorized {
      call := StoreCall(Suppressed, None);
      if ok {
        result := result.(suppressed := result.suppressed + 1);
      }
      return;
    }
    if d.prepared.Sent? && d.prepared.status.Some? {
      var status := d.prepared.status.value;
      if 200 <= status < 300 {
        call := StoreCall(Completed, None);
        if ok {
          result := result.(delivered := result.delivered + 1);
        }
        return;
      }
      if Rejected(status) {
        call := StoreCall(Disabled, None);
        if ok {
          result := result.(disabled := result.disabled + 1, suppressed := result.suppressed + 1);
        }
        return;
      }
      if !Retryable(status) {
        call := StoreCall(Failed, None);
        if ok {
          result := result.(failed := result.failed + 1);
        }
        return;
      }
    }
    call := FailOrRetry(w, d.attempts, d.now);
    if ok {
      if d.attempts >= w.maxAttempts {
        result := result.(failed := result.failed + 1);
      } else {
        result := result.(retried := result.retried + 1);
      }
    }
  }

  /** Why a pass stopped: a claim failed, or the store refused the outcome of this unit. */
  datatype RunError = NotConfigured | EventsNotClaimed | DeliveriesNotClaimed | OutcomeRefused(unit: nat)

  /**
   * What a pass over claimed work leaves: one store call for each unit up to the first the store refuses, and counters
   * that say exactly which were made.
   */
  ghost predicate Passed(w: Options, events: seq<EventWork>, deliveries: seq<DeliveryWork>,
                         result: RunResult, stored: seq<StoreCall>, refused: Option<nat>) {
    && stored <= Calls(w, events, deliveries) && Tallies(result, stored)
    && (forall i: nat | i < |stored| :: Taken(events, deliveries, i))
    && match refused
       case None => stored == Calls(w, events, deliveries)
       case Some(unit) => unit == |stored| < |events| + |deliveries| && !Taken(events, deliveries, unit)
  }

  function Refusal(error: Option<RunError>): Option<nat> {
    match error
    case Some(OutcomeRefused(unit)) => Some(unit)
    case _ => None
  }

  method HandleEvents(w: Options, events: seq<EventWork>)
    returns (result: RunResult, stored: seq<StoreCall>, refused: Option<nat>)
    requires Ready(w)
    ensures Passed(w, events, [], result, stored, refused)
    ensures result.eventsClaimed == |events| && result.deliveriesClaimed == 0
    ensures result.deliveriesCreated == TotalCreated(events[..|stored|])
  {
    hide CountOf, Tallies, Delay, AfterFailure;
    NoTally();
    result, stored := NOTHING.(eventsClaimed := |events|), [];
    ghost var all := Calls(w, events, []);
    for i := 0 to |events|
      invariant stored == all[..i] && Tallies(result, stored)
      invariant result.eventsClaimed == |events| && result.deliveriesClaimed == 0
      invariant result.deliveriesCreated == TotalCreated(events[..i])
      invariant forall j: nat | j < i :: Taken(events, [], j)
    {
      var event := events[i];
      ghost var before := result;
      CreatedSoFar(events, i);
      var call := StoreCall(Materialized, None);
      if event.created.Some? {
        result := result.(deliveriesCreated := result.deliveriesCreated + event.created.value);
        TallyCreated(before, stored, result);
      } else {
        call := FailOrRetry(w, event.attempts, event.now);
        if !event.recorded {
          return result, stored, Some(i);
        }
        FailureOutcome(w, event.attempts, event.now);
        if event.attempts >= w.maxAttempts {
          result := result.(failed := result.failed + 1);
        } else {
          result := result.(retried := result.retried + 1);
        }
      }
      TallyOne(before.(deliveriesCreated := result.deliveriesCreated), stored, call);
      stored := stored + [call];
    }
    return result, stored, None;
  }

  lemma FailureOutcome(w: Options, attempts: int, now: int)
    ensures AfterFailure(w, attempts, now).outcome == if attempts >= w.maxAttempts then Failed else Retried
  {
  }

  method HandleDeliveries(w: Options, ghost events: seq<EventWork>, deliveries: seq<DeliveryWork>,
                          earlier: RunResult, made: seq<StoreCall>)
    returns (result: RunResult, stored: seq<StoreCall>, refused: Option<nat>)
    requires Ready(w) && Passed(w, events, [], earlier, made, None)
    ensures Passed(w, events, deliveries, result, stored, refused) && |stored| >= |events|
    ensures result.eventsClaimed == earlier.eventsClaimed && result.deliveriesCreated == earlier.deliveriesCreated
    ensures result.deliveriesClaimed == |deliveries|
  {
    hide CountOf, Tallies, Delay, AfterFailure;
    TallyClaimed(earlier, made, |deliveries|);
    result, stored := earlier.(deliveriesClaimed := |deliveries|), made;
    ghost var all := Calls(w, events, deliveries);
    assert made == all[..|events|];
    assert forall j: nat | j < |events| :: Taken(events, deliveries, j) == Taken(events, [], j);
    for i := 0 to |deliveries|
      invariant stored == all[..|events| + i] && Tallies(result, stored)
      invariant result.eventsClaimed == earlier.eventsClaimed && result.deliveriesClaimed == |deliveries|
      invariant result.deliveriesCreated == earlier.deliveriesCreated
      invariant forall j: nat | j < |events| + i :: Taken(events, deliveries, j)
    {
      ghost var before := result;
      var call;
      result, call := Deliver(w, result, deliveries[i]);
      assert all[|events| + i] == call;
      if !deliveries[i].recorded {
        assert !Taken(events, deliveries, |events| + i);
        return result, stored, Some(|stored|);
      }
      TallyOne(before, stored, call);
      stored := stored + [call];
    }
    return result, stored, None;
  }

  /**
   * A whole pass. Without error every event that failed and every delivery claimed is in exactly one counter; with one,
   * the counters still say exactly what was stored before it.
   */
  method RunOnce(w: Options, configured: bool, claimed: Option<seq<EventWork>>, claimedNext: Option<seq<DeliveryWork>>)
    returns (result: RunResult, stored: seq<StoreCall>, error: Option<RunError>)
    requires Ready(w)
    ensures var events, deliveries := claimed.GetOr([]), claimedNext.GetOr([]);
            && (error == Some(NotConfigured) <==> !configured)
            && (error == Some(EventsNotClaimed) <==> configured && claimed == None)
            && (error in {Some(NotConfigured), Some(EventsNotClaimed)} ==> result == NOTHING && stored == [])
            && (error == Some(DeliveriesNotClaimed) ==>
                  && claimedNext == None && Passed(w, events, [], result, stored, None)
                  && result.deliveriesClaimed == 0)
            && (claimedNext == None ==> error.Some? && (error.value.OutcomeRefused? ==> error.value.unit < |events|))
            && (error == None || error.value.OutcomeRefused? ==>
                  && Passed(w, events, deliveries, result, stored, Refusal(error))
                  && result.deliveriesClaimed == (if |stored| < |events| then 0 else |deliveries|))
            && (configured && claimed.Some? ==>
                  && result.eventsClaimed == |events|
                  && result.deliveriesCreated == TotalCreated(events[..GoInt.Min(|stored|, |events|)]))
    ensures error == None ==>
              && FailedEvents(claimed.value) + result.deliveriesClaimed
                 == result.delivered + result.retried + result.suppressed + result.failed
              && result.disabled <= result.suppressed
              && var deliveries := claimedNext.value;
              && result.delivered ==
                 |set i | 0 <= i < |deliveries| && Answered(deliveries[i]) && 200 <= deliveries[i].prepared.status.value <= 299|
              && result.disabled ==
                 |set i | 0 <= i < |deliveries| && Answered(deliveries[i])
                          && deliveries[i].prepared.status.value in {400, 404, 410}|
              && result.suppressed ==
                 result.disabled + |set i | 0 <= i < |deliveries| && deliveries[i].prepared == NotAuthorized|
  {
    hide Tallies, CountOf, TotalCreated, FailedEvents, Passed, Answered;
    if !configured {
      return NOTHING, [], Some(NotConfigured);
    }
    if claimed == None {
      return NOTHING, [], Some(EventsNotClaimed);
    }
    var events, deliveries := claimed.value, claimedNext.GetOr([]);
    var refused;
    result, stored, refused := HandleEvents(w, events);
    StoredSoFar(w, events, [], result, stored, refused);
    if refused.Some? {
      RefusedEarly(w, events, deliveries, result, stored, refused.value);
      return result, stored, Some(OutcomeRefused(refused.value));
    }
    if claimedNext == None {
      return result, stored, Some(DeliveriesNotClaimed);
    }
    result, stored, refused := HandleDeliveries(w, events, deliveries, result, stored);
    StoredSoFar(w, events, deliveries, result, stored, refused);
    if refused.Some? {
      return result, stored, Some(OutcomeRefused(refused.value));
    }
    PassConserves(w, events, deliveries, result);
    AnswersCounted(w, events, deliveries, result);
    return result, stored, None;
  }

  lemma StoredSoFar(w: Options, events: seq<EventWork>, deliveries: seq<DeliveryWork>,
                    result: RunResult, stored: seq<StoreCall>, refused: Option<nat>)
    requires Passed(w, events, deliveries, result, stored, refused)
    ensures refused == None ==> |stored| == |events| + |deliveries|
    ensures refused == None ==> Tallies(result, Calls(w, events, deliveries))
    ensures refused.Some? ==> refused.value == |stored| < |events| + |deliveries|
  {
  }

  lemma RefusedEarly(w: Options, events: seq<EventWork>, deliveries: seq<DeliveryWork>,
                     result: RunResult, stored: seq<StoreCall>, unit: nat)
    requires Passed(w, events, [], result, stored, Some(unit))
    ensures Passed(w, events, deliveries, result, stored, Some(unit))
  {
    hide Tallies;
    assert forall i: nat | i <= |stored| :: Taken(events, deliveries, i) == Taken(events, [], i);
  }

  function TotalCreated(events: seq<EventWork>): nat {
    if events == [] then 0
    else TotalCreated(events[..|events| - 1]) + events[|events| - 1].created.GetOr(0)
  }

  lemma CreatedSoFar(events: seq<EventWork>, i: nat)
    requires i < |events|
    ensures TotalCreated(events[..i + 1]) == TotalCreated(events[..i]) + events[i].created.GetOr(0)
    ensures TotalCreated(events[..i]) <= TotalCreated(events)
  {
    assert events[..i + 1][..i] == events[..i];
    CreatedGrows(events, i);
  }

  lemma {:induction false} CreatedGrows(events: seq<EventWork>, i: nat)
    requires i <= |events|
    ensures TotalCreated(events[..i]) <= TotalCreated(events)
  {
    if i < |events| {
      var before := events[..|events| - 1];
      CreatedGrows(before, i);
      assert before[..i] == events[..i];
    } else {
      assert events[..i] == events;
    }
  }

  lemma NoTally()
    ensures forall n :: Tallies(NOTHING.(eventsClaimed := n), [])
  {
  }

  lemma TallyCreated(before: RunResult, calls: seq<StoreCall>, after: RunResult)
    requires Tallies(before, calls) && after == before.(deliveriesCreated := after.deliveriesCreated)
    ensures Tallies(after, calls)
  {
  }

  lemma TallyClaimed(before: RunResult, calls: seq<StoreCall>, claimed: nat)
    requires Tallies(before, calls)
    ensures Tallies(before.(deliveriesClaimed := claimed), calls)
  {
  }

  lemma {:induction false} CountAdds(a: seq<StoreCall>, b: seq<StoreCall>, o: Outcome)
    ensures CountOf(a + b, o) == CountOf(a, o) + CountOf(b, o)
  {
    if b == [] {
      assert a + b == a;
    } else {
      assert (a + b)[..|a + b| - 1] == a + b[..|b| - 1];
      CountAdds(a, b[..|b| - 1], o);
    }
  }

  lemma {:induction false} CountNone(calls: seq<StoreCall>, o: Outcome)
    requires forall i | 0 <= i < |calls| :: calls[i].outcome != o
    ensures CountOf(calls, o) == 0
  {
    if calls != [] {
      CountNone(calls[..|calls| - 1], o);
    }
  }

  lemma Member<T>(s: set<T>) returns (x: T)
    requires s != {}
    ensures x in s
  {
    x :| x in s;
  }

  lemma {:induction false} CountIsMembers(calls: seq<StoreCall>, o: Outcome, where: set<int>)
    requires forall i :: i in where <==> 0 <= i < |calls| && calls[i].outcome == o
    ensures CountOf(calls, o) == |where|
  {
    var last := |calls| - 1;
    if calls == [] {
      if where != {} {
        var i := Member(where);
        assert false;
      }
    } else {
      var fewer := where - {last};
      CountIsMembers(calls[..last], o, fewer);
      assert where == if calls[last].outcome == o then fewer + {last} else fewer;
    }
  }

  /** The three counts a provider's answers decide, read off the deliveries. */
  lemma AnswersCounted(w: Options, events: seq<EventWork>, deliveries: seq<DeliveryWork>, result: RunResult)
    requires Tallies(result, Calls(w, events, deliveries))
    ensures result.delivered ==
            |set i | 0 <= i < |deliveries| && Answered(deliveries[i]) && 200 <= deliveries[i].prepared.status.value <= 299|
    ensures result.disabled ==
            |set i | 0 <= i < |deliveries| && Answered(deliveries[i]) && deliveries[i].prepared.status.value in {400, 404, 410}|
    ensures result.suppressed ==
            result.disabled + |set i | 0 <= i < |deliveries| && deliveries[i].prepared == NotAuthorized|
  {
    hide CountOf;
    DeliveriesCounted(w, events, deliveries, Completed,
      set i | 0 <= i < |deliveries| && Answered(deliveries[i]) && 200 <= deliveries[i].prepared.status.value <= 299);
    DeliveriesCounted(w, events, deliveries, Disabled,
      set i | 0 <= i < |deliveries| && Answered(deliveries[i]) && deliveries[i].prepared.status.value in {400, 404, 410});
    DeliveriesCounted(w, events, deliveries, Suppressed,
      set i | 0 <= i < |deliveries| && deliveries[i].prepared == NotAuthorized);
  }

  lemma DeliveriesCounted(w: Options, events: seq<EventWork>, deliveries: seq<DeliveryWork>, o: Outcome, where: set<int>)
    requires o in {Completed, Disabled, Suppressed}
    requires forall i :: i in where <==> 0 <= i < |deliveries| && DeliveryCall(w, deliveries[i]).outcome == o
    ensures CountOf(Calls(w, events, deliveries), o) == |where|
  {
    hide CountOf, DeliveryCall, Delay;
    var first := seq(|events|, i requires 0 <= i < |events| => EventCall(w, events[i]));
    var second := seq(|deliveries|, i requires 0 <= i < |deliveries| => DeliveryCall(w, deliveries[i]));
    assert Calls(w, events, deliveries) == first + second;
    CountAdds(first, second, o);
    CountNone(first, o);
    CountIsMembers(second, o, where);
  }

  lemma {:induction false} EveryCallCounted(calls: seq<StoreCall>)
    ensures CountOf(calls, Materialized) + CountOf(calls, Completed) + CountOf(calls, Suppressed)
            + CountOf(calls, Disabled) + CountOf(calls, Failed) + CountOf(calls, Retried) == |calls|
  {
    if calls != [] {
      EveryCallCounted(calls[..|calls| - 1]);
    }
  }

  lemma {:induction false} MaterializedEvents(w: Options, events: seq<EventWork>, deliveries: seq<DeliveryWork>)
    ensures CountOf(Calls(w, events, deliveries), Materialized) == |events| - FailedEvents(events)
    decreases |events| + |deliveries|
  {
    hide Delay;
    var all := Calls(w, events, deliveries);
    if deliveries != [] {
      var fewer := deliveries[..|deliveries| - 1];
      MaterializedEvents(w, events, fewer);
      assert all[..|all| - 1] == Calls(w, events, fewer);
    } else if events != [] {
      var fewer := events[..|events| - 1];
      MaterializedEvents(w, fewer, deliveries);
      assert all[..|all| - 1] == Calls(w, fewer, deliveries);
    }
  }

  /** The events whose materialisation failed. */
  function FailedEvents(events: seq<EventWork>): (n: nat)
    ensures n <= |events|
  {
    if events == [] then 0
    else FailedEvents(events[..|events| - 1]) + if events[|events| - 1].created.None? then 1 else 0
  }

  /** Conservation: once every call is stored, failed events and claimed deliveries are exactly what the counters hold. */
  lemma PassConserves(w: Options, events: seq<EventWork>, deliveries: seq<DeliveryWork>, result: RunResult)
    requires Tallies(result, Calls(w, events, deliveries))
    ensures FailedEvents(events) + |deliveries|
            == result.delivered + result.retried + result.suppressed + result.failed
    ensures result.disabled <= result.suppressed
  {
    hide CountOf;
    EveryCallCounted(Calls(w, events, deliveries));
    MaterializedEvents(w, events, deliveries);
  }
}
