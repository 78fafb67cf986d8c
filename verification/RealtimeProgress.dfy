/** What the realtime protocol can always do: no slow client holds a publish up, and a pump ends for good. */
module RealtimeProgress {
  import opened RealtimeEvents
  import opened RealtimeRegistry
  import opened RealtimeHub
  import opened RealtimeProtocol
  import opened RealtimeGuarantees
  import opened Wrappers

  // ----- Publishing never waits for a client -----

  predicate Visitable(s: State, p: nat, c: ClientId) {
    p < |s.publishes| && (c in s.publishes[p].left || Waiting(s.publishes[p]) == Some(c))
  }

  lemma VisitableBefore(s: State, step: Step, p: nat, c: ClientId)
    requires Enabled(s, step) && Visitable(Next(s, step), p, c)
    ensures Visitable(s, p, c) || (step.BeginPublish? && c in Recipients(s.topics, step.e))
  {
    hide Recipients, Subscribers, Apply;
  }

  lemma RecipientSubscribed<C>(topics: Registry<C>, e: Event, c: C)
    ensures c in Recipients(topics, e) ==> c in Subscribers(topics)
  {
  }

  lemma {:induction false} VisitedAreConnected(run: seq<Step>, p: nat, c: ClientId)
    requires IsRun(run) && Visitable(StateAfter(run), p, c)
    ensures c < |StateAfter(run).conns|
  {
    hide Next, Enabled, Visitable, Recipients, Subscribers;
    if run == [] {
      NobodyPublishes(p, c);
    } else {
      var s, step := StateAfter(Before(run)), run[|run| - 1];
      VisitableBefore(s, step, p, c);
      DropCounterStep(s, step);
      if Visitable(s, p, c) {
        VisitedAreConnected(Before(run), p, c);
      } else {
        RecipientSubscribed(s.topics, step.e, c);
        SubscribersAreConnected(Before(run), c);
      }
    }
  }

  lemma NobodyPublishes(p: nat, c: ClientId)
    ensures !Visitable(INITIAL, p, c)
  {
  }

  /** A step of this publisher's own. */
  predicate OwnStep(step: Step, p: nat) {
    match step
    case Send(q, _, _) => q == p
    case Drop(q, _, _) => q == p
    case Count(q) => q == p
    case SignalLoss(q, _) => q == p
    case _ => false
  }

  /** The publisher's next step, whatever its clients are doing: none of them can hold it up. */
  lemma PublisherCanStep(s: State, p: nat, c: ClientId) returns (step: Step)
    requires p < |s.publishes| && Visitable(s, p, c) && c < |s.conns|
    requires s.publishes[p].Sending? || Waiting(s.publishes[p]) == Some(c)
    ensures Enabled(s, step) && OwnStep(step, p)
    ensures var t := Next(s, step);
            && |t.publishes| == |s.publishes| && t.publishes[p].e == s.publishes[p].e
            && Work(t.publishes[p]) == Work(s.publishes[p]) - 1 - (if step.Send? then 2 else 0)
  {
    var now := s.publishes[p];
    if now.Counting? {
      step := Count(p);
    } else if now.Signalling? {
      step := SignalLoss(p, c);
    } else if |s.conns[c].queue| < SEND_BUFFER {
      step := Send(p, c, now.e);
    } else {
      step := Drop(p, c, now.e);
    }
  }

  /** Steps left at most. */
  function Work(publish: Publishing): nat {
    3 * |publish.left| + if publish.Sending? then 0 else if publish.Counting? then 2 else 1
  }

  lemma OneMore(run: seq<Step>, step: Step)
    requires IsRun(run) && Enabled(StateAfter(run), step)
    ensures IsRun(run + [step]) && StateAfter(run + [step]) == Next(StateAfter(run), step)
  {
    hide Next, Enabled;
    assert Before(run + [step]) == run;
  }

  /**
   * From any reachable state a publish can finish by its own steps alone, three for each client still to visit and at
   * most two more: slow clients cannot hold it up.
   */
  lemma {:induction false} PublishFinishes(run: seq<Step>, p: nat) returns (steps: seq<Step>)
    requires IsRun(run) && p < |StateAfter(run).publishes|
    ensures forall i | 0 <= i < |steps| :: OwnStep(steps[i], p)
    ensures |steps| <= Work(StateAfter(run).publishes[p]) <= 3 * |StateAfter(run).publishes[p].left| + 2
    ensures IsRun(run + steps) && p < |StateAfter(run + steps).publishes|
    ensures StateAfter(run + steps).publishes[p] == Sending(StateAfter(run).publishes[p].e, {})
    decreases Work(StateAfter(run).publishes[p])
  {
    hide Next, Enabled, IsRun, Visitable, OwnStep;
    var s := StateAfter(run);
    var now := s.publishes[p];
    if now.Sending? && now.left == {} {
      steps := [];
      assert run + steps == run;
    } else {
      var c: ClientId;
      if now.Sending? {
        c :| c in now.left;
      } else {
        c := now.lost;
      }
      IsVisitable(s, p, c);
      VisitedAreConnected(run, p, c);
      var step := PublisherCanStep(s, p, c);
      OneMore(run, step);
      var rest := PublishFinishes(run + [step], p);
      steps := [step] + rest;
      assert run + [step] + rest == run + steps;
    }
  }

  lemma IsVisitable(s: State, p: nat, c: ClientId)
    requires p < |s.publishes| && (c in s.publishes[p].left || Waiting(s.publishes[p]) == Some(c))
    ensures Visitable(s, p, c)
  {
  }

  // ----- The pump takes what is ready, until it ends -----

  /** At its priority select the pump passes on only if nothing urgent is ready; at its blocking select it may take anything ready. */
  lemma PumpTakesWhatIsReady(s: State, c: ClientId)
    requires c < |s.conns|
    ensures var conn := s.conns[c];
            && (Enabled(s, PassPriority(c)) <==> conn.pump == AtPriority && !conn.disconnect && conn.control == None)
            && (Enabled(s, SeeDisconnect(c)) <==> conn.pump != Stopped && conn.disconnect)
            && (forall written :: Enabled(s, TakeControl(c, written)) <==> conn.pump != Stopped && conn.control.Some?)
            && (forall e, written :: Enabled(s, Dequeue(c, e, written)) <==>
                  conn.pump == AtBlocking && conn.queue != [] && e == conn.queue[0])
  {
  }

  predicate PumpStep(step: Step, c: ClientId) {
    match step
    case PassPriority(d) => d == c
    case TakeControl(d, _) => d == c
    case Dequeue(d, _, _) => d == c
    case SeeDisconnect(d) => d == c
    case Ping(d) => d == c
    case Quit(d) => d == c
    case _ => false
  }

  lemma StoppedStep(s: State, step: Step, c: ClientId)
    requires Enabled(s, step) && c < |s.conns| && s.conns[c].pump == Stopped
    ensures !PumpStep(step, c) && c < |Next(s, step).conns| && Next(s, step).conns[c].pump == Stopped
  {
    hide Recipients, Subscribers, Apply;
  }

  lemma {:induction false} StoppedForGood(run: seq<Step>, n: nat, c: ClientId)
    requires IsRun(run) && n <= |run| && IsRun(run[..n])
    requires c < |StateAfter(run[..n]).conns| && StateAfter(run[..n]).conns[c].pump == Stopped
    ensures c < |StateAfter(run).conns| && StateAfter(run).conns[c].pump == Stopped
    ensures forall k | n <= k < |run| :: !PumpStep(run[k], c)
  {
    hide Next, Enabled, IsRun, PumpStep;
    if n < |run| {
      LastStep(run);
      assert Before(run)[..n] == run[..n];
      StoppedForGood(Before(run), n, c);
      StoppedStep(StateAfter(Before(run)), run[|run| - 1], c);
    } else {
      assert run[..n] == run;
    }
  }

  /** Once a write fails, or the pump sees its disconnect or its connection end, it takes nothing more. */
  lemma PumpEnds(run: seq<Step>, i: nat, c: ClientId)
    requires IsRun(run) && i < |run| && PumpStep(run[i], c)
    requires run[i].SeeDisconnect? || run[i].Quit? || ((run[i].TakeControl? || run[i].Dequeue?) && !run[i].written)
    ensures forall k | i < k < |run| :: !PumpStep(run[k], c)
  {
    hide IsRun, PumpStep;
    PrefixIsRun(run, i + 1);
    LastStep(run[..i + 1]);
    assert run[..i + 1][|run[..i + 1]| - 1] == run[i];
    EndingStep(StateAfter(Before(run[..i + 1])), run[i], c);
    StoppedForGood(run, i + 1, c);
  }

  lemma EndingStep(s: State, step: Step, c: ClientId)
    requires Enabled(s, step) && PumpStep(step, c)
    requires step.SeeDisconnect? || step.Quit? || ((step.TakeControl? || step.Dequeue?) && !step.written)
    ensures c < |Next(s, step).conns| && Next(s, step).conns[c].pump == Stopped
  {
  }
}
