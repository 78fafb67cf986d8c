/** What every run of the realtime protocol keeps: conservation, order, pump priority and exactly-once offers. */
module RealtimeGuarantees {
  import opened RealtimeEvents
  import opened RealtimeRegistry
  import opened RealtimeHub
  import opened RealtimeProtocol
  import opened Wrappers

  // ----- Conservation and order, client by client -----

  function QueueOf(s: State, c: ClientId): seq<Event> {
    if c < |s.conns| then s.conns[c].queue else []
  }

  lemma QueueStep(s: State, step: Step, c: ClientId)
    requires Enabled(s, step)
    ensures QueueOf(Next(s, step), c) ==
            match step
            case Send(_, d, e) => if d == c then QueueOf(s, c) + [e] else QueueOf(s, c)
            case Dequeue(d, e, _) => if d == c then QueueOf(s, c)[1..] else QueueOf(s, c)
            case _ => QueueOf(s, c)
    ensures step.Dequeue? && step.c == c ==> QueueOf(s, c) != [] && QueueOf(s, c)[0] == step.e
    ensures step.Send? && step.c == c ==> |QueueOf(s, c)| < SEND_BUFFER
  {
    hide Recipients, Subscribers, Apply;
  }

  /** What was queued for a client is what it has taken, in order, followed by what still waits, never over the bound. */
  lemma {:induction false} QueueConserved(run: seq<Step>, c: ClientId)
    requires IsRun(run)
    ensures QueuedFor(run, c) == DequeuedBy(run, c) + QueueOf(StateAfter(run), c)
    ensures |QueueOf(StateAfter(run), c)| <= 64
  {
    hide Next, Enabled;
    if run != [] {
      hide QueueOf;
      var before, step := Before(run), run[|run| - 1];
      var s := StateAfter(before);
      QueueConserved(before, c);
      QueueStep(s, step, c);
      if step.Dequeue? && step.c == c {
        assert QueueOf(s, c) == [step.e] + QueueOf(s, c)[1..];
      }
    }
  }

  predicate Subsequence<T(==)>(a: seq<T>, b: seq<T>) {
    if a == [] then true
    else if b == [] then false
    else if a[|a| - 1] == b[|b| - 1] && Subsequence(a[..|a| - 1], b[..|b| - 1]) then true
    else Subsequence(a, b[..|b| - 1])
  }

  lemma {:induction false} NoVisits(before: seq<Publishing>, after: seq<Publishing>, c: ClientId)
    requires |before| <= |after|
    requires forall p | 0 <= p < |before| :: c in before[p].left ==> c in after[p].left
    ensures Visits(before, after, c) == []
  {
    if before != [] {
      NoVisits(before[..|before| - 1], after, c);
    }
  }

  lemma {:induction false} OneVisit(before: seq<Publishing>, after: seq<Publishing>, c: ClientId, p: nat)
    requires |before| <= |after| && p < |before| && c in before[p].left && c !in after[p].left
    requires forall q | 0 <= q < |before| && q != p :: c in before[q].left ==> c in after[q].left
    ensures Visits(before, after, c) == [before[p].e]
  {
    var last := |before| - 1;
    if p == last {
      NoVisits(before[..last], after, c);
    } else {
      OneVisit(before[..last], after, c, p);
    }
  }

  lemma VisitStep(s: State, step: Step, c: ClientId)
    requires Enabled(s, step)
    ensures Visits(s.publishes, Next(s, step).publishes, c) ==
            match step
            case Send(_, d, e) => if d == c then [e] else []
            case Drop(_, d, e) => if d == c then [e] else []
            case _ => []
  {
    hide Recipients, Subscribers, Apply, Visits;
    var before, after := s.publishes, Next(s, step).publishes;
    if (step.Send? || step.Drop?) && step.c == c {
      OneVisit(before, after, c, step.p);
    } else {
      NoVisits(before, after, c);
    }
  }

  lemma {:induction false} QueuedAmongOffered(run: seq<Step>, c: ClientId)
    requires IsRun(run)
    ensures |OfferedTo(run, c)| == |QueuedFor(run, c)| + DropsOf(run, c)
    ensures Subsequence(QueuedFor(run, c), OfferedTo(run, c))
  {
    hide Next, Enabled, Visits;
    if run != [] {
      var before, step := Before(run), run[|run| - 1];
      QueuedAmongOffered(before, c);
      VisitStep(StateAfter(before), step, c);
      hide StateAfter;
      var queued, offered := QueuedFor(before, c), OfferedTo(before, c);
      assert queued + [] == queued && offered + [] == offered;
      match step
      case Send(_, d, e) =>
        if d == c {
          assert (queued + [e])[..|queued|] == queued && (offered + [e])[..|offered|] == offered;
        }
      case Drop(_, d, e) =>
        if d == c {
          assert (offered + [e])[..|offered|] == offered;
        }
      case _ =>
    }
  }

  /**
   * In every run nothing offered goes missing or out of order: what a client was offered is what it has taken, what
   * waits for it and what it lost, and the first two stand in the order they were offered.
   */
  lemma OffersConserved(run: seq<Step>, c: ClientId)
    requires IsRun(run)
    ensures |OfferedTo(run, c)| == |DequeuedBy(run, c)| + |QueueOf(StateAfter(run), c)| + DropsOf(run, c)
    ensures Subsequence(DequeuedBy(run, c) + QueueOf(StateAfter(run), c), OfferedTo(run, c))
  {
    hide IsRun, StateAfter, QueueOf, OfferedTo, DequeuedBy, QueuedFor, DropsOf, Subsequence;
    QueueConserved(run, c);
    QueuedAmongOffered(run, c);
  }

  // ----- The drop counter -----

  function CountingIn(publishes: seq<Publishing>): nat {
    if publishes == [] then 0
    else CountingIn(publishes[..|publishes| - 1]) + if publishes[|publishes| - 1].Counting? then 1 else 0
  }

  lemma {:induction false} CountingUpdate(publishes: seq<Publishing>, p: nat, now: Publishing)
    requires p < |publishes|
    ensures CountingIn(publishes[p := now]) + (if publishes[p].Counting? then 1 else 0)
            == CountingIn(publishes) + if now.Counting? then 1 else 0
  {
    var last := |publishes| - 1;
    if p == last {
      assert publishes[p := now][..last] == publishes[..last];
    } else {
      CountingUpdate(publishes[..last], p, now);
      assert publishes[p := now][..last] == publishes[..last][p := now];
    }
  }

  function DropsAmong(run: seq<Step>, clients: nat): nat {
    if clients == 0 then 0 else DropsAmong(run, clients - 1) + DropsOf(run, clients - 1)
  }

  lemma {:induction false} DropsAmongStep(run: seq<Step>, clients: nat)
    requires run != []
    ensures DropsAmong(run, clients) ==
            DropsAmong(Before(run), clients)
            + if run[|run| - 1].Drop? && run[|run| - 1].c < clients then 1 else 0
  {
    if clients > 0 {
      DropsAmongStep(run, clients - 1);
    }
  }

  lemma DropCounterStep(s: State, step: Step)
    requires Enabled(s, step)
    ensures Next(s, step).dropped + CountingIn(Next(s, step).publishes) ==
            s.dropped + CountingIn(s.publishes) + if step.Drop? then 1 else 0
    ensures step.Drop? ==> step.c < |s.conns|
    ensures |Next(s, step).conns| == |s.conns| + if step.Connect? then 1 else 0
  {
    hide Recipients, Subscribers, Apply, CountingIn;
    var t := Next(s, step);
    match step
    case Send(p, _, _) => CountingUpdate(s.publishes, p, t.publishes[p]);
    case Drop(p, _, _) => CountingUpdate(s.publishes, p, t.publishes[p]);
    case Count(p) => CountingUpdate(s.publishes, p, t.publishes[p]);
    case SignalLoss(p, _) => CountingUpdate(s.publishes, p, t.publishes[p]);
    case BeginPublish(e) => CountingAppend(s.publishes, Sending(e, Recipients(s.topics, e)));
    case _ =>
  }

  lemma CountingAppend(publishes: seq<Publishing>, now: Publishing)
    ensures CountingIn(publishes + [now]) == CountingIn(publishes) + if now.Counting? then 1 else 0
  {
    assert (publishes + [now])[..|publishes|] == publishes;
  }

  /** The hub's counter is the sum of every client's losses, less those a publisher is about to count. */
  lemma {:induction false} DroppedIsTheSum(run: seq<Step>)
    requires IsRun(run)
    ensures StateAfter(run).dropped + CountingIn(StateAfter(run).publishes)
            == DropsAmong(run, |StateAfter(run).conns|)
  {
    hide Next, Enabled;
    if run != [] {
      var before, step := Before(run), run[|run| - 1];
      var s := StateAfter(before);
      DroppedIsTheSum(before);
      DropCounterStep(s, step);
      DropsAmongStep(run, |s.conns|);
      if step.Connect? {
        NoDropsBeforeConnect(before, |s.conns|);
      }
    }
  }

  lemma {:induction false} NoDropsBeforeConnect(run: seq<Step>, c: ClientId)
    requires IsRun(run) && c >= |StateAfter(run).conns|
    ensures DropsOf(run, c) == 0
  {
    hide Next, Enabled;
    if run != [] {
      DropCounterStep(StateAfter(Before(run)), run[|run| - 1]);
      NoDropsBeforeConnect(Before(run), c);
    }
  }

  // ----- Prefixes -----

  lemma {:induction false} PrefixIsRun(run: seq<Step>, n: nat)
    requires IsRun(run) && n <= |run|
    ensures IsRun(run[..n])
  {
    if n < |run| {
      PrefixIsRun(Before(run), n);
      assert Before(run)[..n] == run[..n];
    } else {
      assert run[..n] == run;
    }
  }

  /** How many events the client takes from its queue in a stretch of steps. */
  function Dequeues(steps: seq<Step>, c: ClientId): nat {
    if steps == [] then 0
    else Dequeues(steps[..|steps| - 1], c)
         + if steps[|steps| - 1].Dequeue? && steps[|steps| - 1].c == c then 1 else 0
  }

  // ----- Pump priority -----

  predicate Urgent(s: State, c: ClientId) {
    c < |s.conns| && (s.conns[c].disconnect || s.conns[c].control.Some?)
  }

  lemma UrgentStep(s: State, step: Step, c: ClientId)
    requires Enabled(s, step) && c < |s.conns|
    ensures c < |Next(s, step).conns|
    ensures step.Dequeue? && step.c == c ==>
              s.conns[c].pump == AtBlocking && Next(s, step).conns[c].pump != AtBlocking
    ensures Urgent(s, c) && s.conns[c].pump != AtBlocking ==> Next(s, step).conns[c].pump != AtBlocking
  {
    hide Recipients, Subscribers, Apply;
  }

  predicate TakesControl(steps: seq<Step>, c: ClientId) {
    exists k | 0 <= k < |steps| :: steps[k].TakeControl? && steps[k].c == c
  }

  /** While a signal waits or a disconnect is asked for, the pump may take one queued event and no second. */
  lemma {:induction false} UrgencyBound(run: seq<Step>, n: nat, c: ClientId)
    requires IsRun(run) && n <= |run| && IsRun(run[..n])
    requires forall k | n <= k <= |run| :: IsRun(run[..k]) && Urgent(StateAfter(run[..k]), c)
    ensures Dequeues(run[n..], c) <= if Blocking(StateAfter(run), c) then 0 else 1
  {
    hide Next, Enabled, IsRun;
    assert run[..|run|] == run;
    if n < |run| {
      var before, step := run[..|run| - 1], run[|run| - 1];
      assert before[..n] == run[..n];
      forall k | n <= k <= |before| ensures IsRun(before[..k]) && Urgent(StateAfter(before[..k]), c) {
        assert before[..k] == run[..k];
      }
      UrgencyBound(before, n, c);
      LastStep(run);
      UrgentStep(StateAfter(before), step, c);
      assert run[n..][..|run| - n - 1] == before[n..];
    }
  }

  lemma LastStep(run: seq<Step>)
    requires IsRun(run) && run != []
    ensures IsRun(Before(run)) && Enabled(StateAfter(Before(run)), run[|run| - 1])
    ensures StateAfter(run) == Next(StateAfter(Before(run)), run[|run| - 1])
  {
  }

  lemma {:induction false} DisconnectStays(run: seq<Step>, n: nat, c: ClientId)
    requires IsRun(run) && n <= |run| && IsRun(run[..n])
    requires c < |StateAfter(run[..n]).conns| && StateAfter(run[..n]).conns[c].disconnect
    ensures c < |StateAfter(run).conns| && StateAfter(run).conns[c].disconnect
  {
    hide Next, Enabled, IsRun;
    if n < |run| {
      LastStep(run);
      assert Before(run)[..n] == run[..n];
      DisconnectStays(Before(run), n, c);
      ControlKept(StateAfter(Before(run)), run[|run| - 1], c);
    } else {
      assert run[..n] == run;
    }
  }

  /** Once a disconnect is requested, at most one more queued event leaves the queue, however long the run. */
  lemma OneEventAfterDisconnect(run: seq<Step>, n: nat, c: ClientId)
    requires IsRun(run) && n <= |run| && IsRun(run[..n])
    requires c < |StateAfter(run[..n]).conns| && StateAfter(run[..n]).conns[c].disconnect
    ensures Dequeues(run[n..], c) <= 1
  {
    forall k | n <= k <= |run| ensures IsRun(run[..k]) && Urgent(StateAfter(run[..k]), c) {
      PrefixIsRun(run, k);
      assert run[..k][..n] == run[..n];
      DisconnectStays(run[..k], n, c);
    }
    hide IsRun, StateAfter;
    UrgencyBound(run, n, c);
  }

  lemma {:induction false} ControlWaits(run: seq<Step>, n: nat, c: ClientId)
    requires IsRun(run) && n <= |run| && IsRun(run[..n])
    requires c < |StateAfter(run[..n]).conns| && StateAfter(run[..n]).conns[c].control.Some?
    requires !TakesControl(run[n..], c)
    ensures c < |StateAfter(run).conns| && StateAfter(run).conns[c].control.Some?
  {
    hide Next, Enabled, IsRun;
    if n < |run| {
      LastStep(run);
      assert Before(run)[..n] == run[..n];
      assert run[n..][|run| - n - 1] == run[|run| - 1];
      assert forall k | 0 <= k < |Before(run)[n..]| :: Before(run)[n..][k] == run[n..][k];
      ControlWaits(Before(run), n, c);
      ControlKept(StateAfter(Before(run)), run[|run| - 1], c);
    } else {
      assert run[..n] == run;
    }
  }

  /** Once a resync is in the slot, at most one queued event leaves the queue before that control is taken. */
  lemma OneEventBeforeControl(run: seq<Step>, n: nat, c: ClientId)
    requires IsRun(run) && n <= |run| && IsRun(run[..n])
    requires c < |StateAfter(run[..n]).conns| && StateAfter(run[..n]).conns[c].control.Some?
    requires !TakesControl(run[n..], c)
    ensures Dequeues(run[n..], c) <= 1
  {
    forall k | n <= k <= |run| ensures IsRun(run[..k]) && Urgent(StateAfter(run[..k]), c) {
      PrefixIsRun(run, k);
      assert run[..k][..n] == run[..n];
      assert forall j | 0 <= j < |run[..k][n..]| :: run[..k][n..][j] == run[n..][j];
      ControlWaits(run[..k], n, c);
    }
    hide IsRun, StateAfter;
    UrgencyBound(run, n, c);
  }

  // ----- Exactly-once offers -----

  /** How often one publish has offered its event to one client. */
  function OffersBy(run: seq<Step>, p: nat, c: ClientId): nat {
    if run == [] then 0
    else
      OffersBy(Before(run), p, c) +
      match run[|run| - 1]
      case Send(q, d, _) => if q == p && d == c then 1 else 0
      case Drop(q, d, _) => if q == p && d == c then 1 else 0
      case _ => 0
  }

  function Owed(s: State, p: nat, c: ClientId): nat {
    if p < |s.publishes| && c in s.publishes[p].left then 1 else 0
  }

  lemma OfferStep(s: State, step: Step, p: nat, c: ClientId)
    requires Enabled(s, step)
    ensures (step.Send? || step.Drop?) && step.p == p ==> p < |s.publishes| && s.publishes[p].e == step.e
    ensures p < |s.publishes| ==>
              && p < |Next(s, step).publishes| && Next(s, step).publishes[p].e == s.publishes[p].e
              && Owed(Next(s, step), p, c) + (if (step.Send? || step.Drop?) && step.p == p && step.c == c then 1 else 0)
                 == Owed(s, p, c)
    ensures p > |s.publishes| || (p == |s.publishes| && !step.BeginPublish?) ==> p >= |Next(s, step).publishes|
    ensures p == |s.publishes| && step.BeginPublish? ==>
              && |Next(s, step).publishes| == p + 1 && Next(s, step).publishes[p].e == step.e
              && Owed(Next(s, step), p, c) == if c in Recipients(s.topics, step.e) then 1 else 0
  {
    hide Recipients, Subscribers, Apply;
  }

  lemma {:induction false} NoOffersBeforeBegin(run: seq<Step>, p: nat, c: ClientId)
    requires IsRun(run) && p >= |StateAfter(run).publishes|
    ensures OffersBy(run, p, c) == 0
  {
    hide Next, Enabled, Owed;
    if run != [] {
      var s := StateAfter(Before(run));
      if p < |s.publishes| {
        OfferStep(s, run[|run| - 1], p, c);
      }
      NoOffersBeforeBegin(Before(run), p, c);
      OfferStep(s, run[|run| - 1], p, c);
    }
  }

  /**
   * A publish offers its event once to each client its snapshot found entitled and to nobody else: at any later
   * point, offers made plus offers still owed come to one for those clients and none for the rest.
   */
  lemma {:induction false} OfferedExactlyOnce(run: seq<Step>, i: nat, c: ClientId)
    requires IsRun(run) && i < |run| && IsRun(run[..i]) && run[i].BeginPublish?
    ensures var p, s := |StateAfter(run[..i]).publishes|, StateAfter(run);
            && p < |s.publishes| && s.publishes[p].e == run[i].e
            && OffersBy(run, p, c) + Owed(s, p, c)
               == if c in Recipients(StateAfter(run[..i]).topics, run[i].e) then 1 else 0
  {
    hide Next, Enabled, IsRun, Recipients, Owed;
    LastStep(run);
    var before := Before(run);
    var p := |StateAfter(run[..i]).publishes|;
    assert before[..i] == run[..i];
    if i == |before| {
      assert run[..i] == before;
      NoOffersBeforeBegin(before, p, c);
    } else {
      OfferedExactlyOnce(before, i, c);
    }
    OfferStep(StateAfter(before), run[|run| - 1], p, c);
  }

  // ----- Subscriptions over a run -----

  function TopicChanges(run: seq<Step>): seq<Change<ClientId>> {
    if run == [] then []
    else TopicChanges(Before(run)) + match run[|run| - 1] case ChangeTopics(change) => [change] case _ => []
  }

  lemma TopicStep(s: State, step: Step)
    requires Enabled(s, step)
    ensures Next(s, step).topics == match step case ChangeTopics(change) => Apply(s.topics, change) case _ => s.topics
  {
    hide Recipients, Subscribers, Apply;
  }

  lemma {:induction false} TopicsFollowChanges(run: seq<Step>)
    requires IsRun(run)
    ensures StateAfter(run).topics == ApplyAll(TopicChanges(run))
  {
    hide Next, Enabled, Apply;
    if run != [] {
      TopicsFollowChanges(Before(run));
      TopicStep(StateAfter(Before(run)), run[|run| - 1]);
      var changes := TopicChanges(Before(run));
      assert changes + [] == changes;
      if run[|run| - 1].ChangeTopics? {
        var change := run[|run| - 1].change;
        assert (changes + [change])[..|changes|] == changes;
      }
    }
  }

  /**
   * A publish begun now is for exactly the clients whose latest access on some topic of the event will do: members-only
   * access for a members-only event, any access otherwise.
   */
  lemma RecipientsByLatestAccess(run: seq<Step>, e: Event, c: ClientId)
    requires IsRun(run)
    ensures c in Recipients(StateAfter(run).topics, e) <==>
            exists t :: t in Topics(e) && Latest(TopicChanges(run), c, t).Some?
                        && (e.membersOnly ==> Latest(TopicChanges(run), c, t).value.membersOnly)
  {
    hide IsRun, StateAfter, Topics, ApplyAll, Latest, TopicChanges, Recipients;
    var topics: Registry<ClientId> := StateAfter(run).topics;
    TopicsFollowChanges(run);
    RecipientsMean(topics, e, c);
    forall t ensures AccessOf(topics, c, t) == Latest(TopicChanges(run), c, t) {
      RegistryMeansHistory(TopicChanges(run), c, t);
    }
    forall t
      ensures t in topics && c in topics[t] <==> Latest(TopicChanges(run), c, t).Some?
      ensures t in topics && c in topics[t] ==> topics[t][c] == Latest(TopicChanges(run), c, t).value
    {
      assert AccessOf(topics, c, t) == Latest(TopicChanges(run), c, t);
    }
  }

  /**
   * Under any interleaving a publish has offered its event, or still owes it, exactly once to each client whose latest
   * access when it began will do, and never to another: no members-only event reaches a client without that access.
   */
  lemma OffersNeedLatestAccess(run: seq<Step>, i: nat, c: ClientId)
    requires IsRun(run) && i < |run| && IsRun(run[..i]) && run[i].BeginPublish?
    ensures var p, e, changes := |StateAfter(run[..i]).publishes|, run[i].e, TopicChanges(run[..i]);
            OffersBy(run, p, c) + Owed(StateAfter(run), p, c) ==
            if exists t :: t in Topics(e) && Latest(changes, c, t).Some?
                           && (e.membersOnly ==> Latest(changes, c, t).value.membersOnly)
            then 1 else 0
  {
    hide IsRun, StateAfter, Topics, OffersBy, Owed, Latest, TopicChanges, Recipients;
    OfferedExactlyOnce(run, i, c);
    RecipientsByLatestAccess(run[..i], run[i].e, c);
  }

  // ----- Broadcasts reach everyone subscribed when they began -----

  lemma ApplyAddsOnlySubscriber(topics: Registry<ClientId>, change: Change<ClientId>, t: string, c: ClientId)
    requires t in Apply(topics, change) && c in Apply(topics, change)[t]
    ensures (t in topics && c in topics[t]) || (change.Subscribe? && change.c == c)
  {
  }

  lemma {:induction false} SubscribersAreConnected(run: seq<Step>, c: ClientId)
    requires IsRun(run) && c in Subscribers(StateAfter(run).topics)
    ensures c < |StateAfter(run).conns|
  {
    hide Next, Enabled, Apply;
    var s, step := StateAfter(Before(run)), run[|run| - 1];
    TopicStep(s, step);
    DropCounterStep(s, step);
    if step.ChangeTopics? {
      var t :| t in StateAfter(run).topics && c in StateAfter(run).topics[t];
      ApplyAddsOnlySubscriber(s.topics, step.change, t, c);
      if step.change.Subscribe? {
        SubscribeNeedsClient(s, step);
      }
    }
    if c in Subscribers(s.topics) {
      SubscribersAreConnected(Before(run), c);
    }
  }

  lemma SubscribeNeedsClient(s: State, step: Step)
    requires Enabled(s, step) && step.ChangeTopics? && step.change.Subscribe?
    ensures step.change.c < |s.conns|
  {
  }

  /** The broadcast has still to visit the client, or has done its work there. */
  predicate Reached(s: State, b: nat, c: ClientId, took: bool) {
    && b < |s.broadcasts| && c < |s.conns|
    && (|| c in s.broadcasts[b].left
        || if s.broadcasts[b].Disconnecting? then s.conns[c].disconnect else s.conns[c].control.Some? || took)
  }

  lemma ReachedStep(s: State, step: Step, b: nat, c: ClientId, took: bool)
    requires Enabled(s, step) && Reached(s, b, c, took)
    ensures Reached(Next(s, step), b, c, took || (step.TakeControl? && step.c == c))
    ensures Next(s, step).broadcasts[b].Disconnecting? == s.broadcasts[b].Disconnecting?
    ensures s.broadcasts[b].Resyncing? ==> Next(s, step).broadcasts[b].reason == s.broadcasts[b].reason
  {
    hide Recipients, Subscribers, Apply;
  }

  lemma BroadcastBegins(s: State, step: Step, c: ClientId)
    requires Enabled(s, step) && (step.BeginResync? || step.BeginDisconnect?) && c in Subscribers(s.topics)
    requires c < |s.conns|
    ensures Reached(Next(s, step), |s.broadcasts|, c, false)
    ensures Next(s, step).broadcasts[|s.broadcasts|].Disconnecting? <==> step.BeginDisconnect?
    ensures step.BeginResync? ==> Next(s, step).broadcasts[|s.broadcasts|].reason == step.reason
  {
    hide Subscribers;
  }

  /**
   * ResyncAll and DisconnectAll reach every client subscribed when they begin, full queue or not: each is still to
   * be visited, or is disconnected, or has a control waiting or already taken since.
   */
  lemma {:induction false} BroadcastReaches(run: seq<Step>, i: nat, c: ClientId)
    requires IsRun(run) && i < |run| && IsRun(run[..i]) && (run[i].BeginResync? || run[i].BeginDisconnect?)
    requires c in Subscribers(StateAfter(run[..i]).topics)
    ensures var b := |StateAfter(run[..i]).broadcasts|;
            && Reached(StateAfter(run), b, c, TakesControl(run[i + 1..], c))
            && (StateAfter(run).broadcasts[b].Disconnecting? <==> run[i].BeginDisconnect?)
            && (run[i].BeginResync? ==> StateAfter(run).broadcasts[b].reason == run[i].reason)
  {
    hide Next, Enabled, IsRun, Reached, Subscribers;
    LastStep(run);
    var before, step := Before(run), run[|run| - 1];
    var b := |StateAfter(run[..i]).broadcasts|;
    assert before[..i] == run[..i];
    if i == |before| {
      assert run[..i] == before;
      SubscribersAreConnected(before, c);
      BroadcastBegins(StateAfter(before), step, c);
      assert run[i + 1..] == [];
    } else {
      BroadcastReaches(before, i, c);
      ReachedWithin(StateAfter(before), b, c, TakesControl(before[i + 1..], c));
      ReachedStep(StateAfter(before), step, b, c, TakesControl(before[i + 1..], c));
      assert run[i + 1..] == before[i + 1..] + [step];
      TakesControlGrows(before[i + 1..], step, c);
    }
  }

  lemma ReachedWithin(s: State, b: nat, c: ClientId, took: bool)
    requires Reached(s, b, c, took)
    ensures b < |s.broadcasts|
  {
  }

  lemma TakesControlGrows(steps: seq<Step>, step: Step, c: ClientId)
    ensures TakesControl(steps + [step], c) <==> TakesControl(steps, c) || (step.TakeControl? && step.c == c)
  {
    if k :| 0 <= k < |steps| && steps[k].TakeControl? && steps[k].c == c {
      assert (steps + [step])[k] == steps[k];
    }
    assert (steps + [step])[|steps|] == step;
  }

  /** Once DisconnectAll has finished, whoever was subscribed when it began takes at most one more event. */
  lemma RevokedClientsStop(run: seq<Step>, i: nat, n: nat, c: ClientId)
    requires IsRun(run) && i < n <= |run| && IsRun(run[..i]) && IsRun(run[..n]) && run[i].BeginDisconnect?
    requires c in Subscribers(StateAfter(run[..i]).topics)
    requires var b := |StateAfter(run[..i]).broadcasts|;
             b < |StateAfter(run[..n]).broadcasts| && StateAfter(run[..n]).broadcasts[b].left == {}
    ensures Dequeues(run[n..], c) <= 1
  {
    hide IsRun, StateAfter, Subscribers;
    assert run[..n][..i] == run[..i];
    BroadcastReaches(run[..n], i, c);
    OneEventAfterDisconnect(run, n, c);
  }

  // ----- Why a publisher's pending signal has to be counted -----

  /** A project followed by one client, and changes to it. */
  const FOLLOWED := Uuid("p")

  function ProjectChange(): Event {
    Event(Project, FOLLOWED, None, None, None, None, None, None, false, 1)
  }

  /** One client subscribes and reads nothing while n events are published to it. */
  function Flood(n: nat): seq<Step> {
    if n == 0 then [Connect, ChangeTopics(Subscribe(0, Topic("project", FOLLOWED), Access(false)))]
    else Flood(n - 1) + [BeginPublish(ProjectChange()), Send(n - 1, 0, ProjectChange())]
  }

  predicate Flooded(s: State, n: nat) {
    && s.topics == map[Topic("project", FOLLOWED) := map[0 := Access(false)]]
    && |s.conns| == 1 && |s.conns[0].queue| == n && s.conns[0].control == None
    && |s.publishes| == n
  }

  lemma FloodRecipients(s: State, n: nat)
    requires Flooded(s, n)
    ensures Recipients(s.topics, ProjectChange()) == {0}
  {
    hide Topic;
    assert Topics(ProjectChange())[0] == Topic("project", FOLLOWED);
    assert Receives(s.topics, ProjectChange(), 0);
  }

  lemma TwoMore(run: seq<Step>, a: Step, b: Step)
    requires IsRun(run) && Enabled(StateAfter(run), a) && Enabled(Next(StateAfter(run), a), b)
    ensures IsRun(run + [a, b]) && StateAfter(run + [a, b]) == Next(Next(StateAfter(run), a), b)
  {
    hide Next, Enabled;
    assert Before(run + [a]) == run;
    assert Before(run + [a, b]) == run + [a];
  }

  lemma FloodBegins()
    ensures IsRun(Flood(0)) && Flooded(StateAfter(Flood(0)), 0)
  {
    var subscribe := ChangeTopics(Subscribe(0, Topic("project", FOLLOWED), Access(false)));
    assert StateAfter([]) == INITIAL;
    TwoMore([], Connect, subscribe);
    assert [] + [Connect, subscribe] == Flood(0);
  }

  lemma FloodStep(s: State, n: nat)
    requires Flooded(s, n) && n < SEND_BUFFER
    ensures var begin, send := BeginPublish(ProjectChange()), Send(n, 0, ProjectChange());
            Enabled(s, begin) && Enabled(Next(s, begin), send) && Flooded(Next(Next(s, begin), send), n + 1)
  {
    FloodRecipients(s, n);
    hide Recipients, Topic;
  }

  lemma {:induction false} FloodRuns(n: nat)
    requires n <= SEND_BUFFER
    ensures IsRun(Flood(n)) && Flooded(StateAfter(Flood(n)), n)
  {
    hide Next, Enabled, Flooded, IsRun, StateAfter;
    if n == 0 {
      FloodBegins();
    } else {
      FloodRuns(n - 1);
      FloodStep(StateAfter(Flood(n - 1)), n - 1);
      TwoMore(Flood(n - 1), BeginPublish(ProjectChange()), Send(n - 1, 0, ProjectChange()));
    }
  }

  /**
   * Between a drop and its signal the slot can be empty: after a full queue's worth of unread events, one more is
   * lost and nothing waits yet. So the slot alone is not enough, and a publisher's pending signal must be counted.
   */
  lemma SlotMayBeEmptyUntilSignalled()
    ensures var run := Flood(SEND_BUFFER) + [BeginPublish(ProjectChange()), Drop(SEND_BUFFER, 0, ProjectChange())];
            && IsRun(run) && LossUnheard(run, 0)
            && |StateAfter(run).conns| == 1 && StateAfter(run).conns[0].control == None
            && SignalDue(StateAfter(run), 0)
  {
    FloodRuns(SEND_BUFFER);
    var s := StateAfter(Flood(SEND_BUFFER));
    FloodRecipients(s, SEND_BUFFER);
    hide IsRun, Flood, Recipients;
    var begin, drop := BeginPublish(ProjectChange()), Drop(SEND_BUFFER, 0, ProjectChange());
    TwoMore(Flood(SEND_BUFFER), begin, drop);
    DropMakesDue(Next(s, begin), drop);
    assert (Flood(SEND_BUFFER) + [begin, drop])[|Flood(SEND_BUFFER)| + 1] == drop;
  }
}
