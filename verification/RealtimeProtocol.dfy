/**
 * The hub, its publishers and every client's write pump as one state machine. A step is what one goroutine
 * does between two points where another may run, so a run is any interleaving the program allows.
 */
module RealtimeProtocol {
  import opened RealtimeEvents
  import opened RealtimeRegistry
  import opened RealtimeHub
  import opened Wrappers

  type ClientId = nat

  /** Where a write pump stands: at its priority select, at its blocking select, or returned. */
  datatype Pump = AtPriority | AtBlocking | Stopped

  datatype Conn = Conn(queue: seq<Event>, control: Option<string>, disconnect: bool, pump: Pump)

  /** A Publish after its snapshot: sending, or part way through telling a client what it lost. */
  datatype Publishing =
    | Sending(e: Event, left: set<ClientId>)
    | Counting(e: Event, left: set<ClientId>, lost: ClientId)
    | Signalling(e: Event, left: set<ClientId>, lost: ClientId)

  datatype Broadcast = Resyncing(reason: string, left: set<ClientId>) | Disconnecting(left: set<ClientId>)

  datatype State = State(
    topics: Registry<ClientId>,
    conns: seq<Conn>,
    publishes: seq<Publishing>,
    broadcasts: seq<Broadcast>,
    dropped: nat)

  const INITIAL := State(map[], [], [], [], 0)

  datatype Step =
    | Connect
    | ChangeTopics(change: Change<ClientId>)
    | BeginPublish(e: Event)
    | Send(p: nat, c: ClientId, e: Event)
    | Drop(p: nat, c: ClientId, e: Event)
    | Count(p: nat)
    | SignalLoss(p: nat, c: ClientId)
    | BeginResync(reason: string)
    | BeginDisconnect
    | SignalResync(b: nat, c: ClientId)
    | CloseClient(b: nat, c: ClientId)
    | PassPriority(c: ClientId)
    | TakeControl(c: ClientId, written: bool)
    | Dequeue(c: ClientId, e: Event, written: bool)
    | SeeDisconnect(c: ClientId)
    | Ping(c: ClientId)
    | Quit(c: ClientId)

  function Waiting(p: Publishing): Option<ClientId> {
    if p.Sending? then None else Some(p.lost)
  }

  predicate Running(s: State, c: ClientId) {
    c < |s.conns| && s.conns[c].pump != Stopped
  }

  predicate Blocking(s: State, c: ClientId) {
    c < |s.conns| && s.conns[c].pump == AtBlocking
  }

  predicate CanOffer(s: State, p: nat, c: ClientId, e: Event) {
    && p < |s.publishes| && s.publishes[p].Sending? && c in s.publishes[p].left && s.publishes[p].e == e
    && c < |s.conns|
  }

  /** Which steps a state allows. A select with several ready cases allows each of them. */
  predicate Enabled(s: State, step: Step) {
    match step
    case Connect => true
    case ChangeTopics(change) => change.Subscribe? ==> change.c < |s.conns|
    case BeginPublish(e) => true
    case Send(p, c, e) => CanOffer(s, p, c, e) && |s.conns[c].queue| < SEND_BUFFER
    case Drop(p, c, e) => CanOffer(s, p, c, e) && |s.conns[c].queue| >= SEND_BUFFER
    case Count(p) => p < |s.publishes| && s.publishes[p].Counting?
    case SignalLoss(p, c) =>
      p < |s.publishes| && s.publishes[p].Signalling? && s.publishes[p].lost == c && c < |s.conns|
    case BeginResync(reason) => true
    case BeginDisconnect => true
    case SignalResync(b, c) =>
      b < |s.broadcasts| && s.broadcasts[b].Resyncing? && c in s.broadcasts[b].left && c < |s.conns|
    case CloseClient(b, c) =>
      b < |s.broadcasts| && s.broadcasts[b].Disconnecting? && c in s.broadcasts[b].left && c < |s.conns|
    case PassPriority(c) =>
      Running(s, c) && s.conns[c].pump == AtPriority && !s.conns[c].disconnect && s.conns[c].control == None
    case TakeControl(c, _) => Running(s, c) && s.conns[c].control.Some?
    case Dequeue(c, e, _) => Blocking(s, c) && s.conns[c].queue != [] && s.conns[c].queue[0] == e
    case SeeDisconnect(c) => Running(s, c) && s.conns[c].disconnect
    case Ping(c) => Blocking(s, c)
    case Quit(c) => Blocking(s, c)
  }

  function Filled(conn: Conn, reason: string): Conn {
    if conn.control == None then conn.(control := Some(reason)) else conn
  }

  function SetConn(s: State, c: ClientId, conn: Conn): State
    requires c < |s.conns|
  {
    s.(conns := s.conns[c := conn])
  }

  function SetPublish(s: State, p: nat, publish: Publishing): State
    requires p < |s.publishes|
  {
    s.(publishes := s.publishes[p := publish])
  }

  function SetBroadcast(s: State, b: nat, broadcast: Broadcast): State
    requires b < |s.broadcasts|
  {
    s.(broadcasts := s.broadcasts[b := broadcast])
  }

  function AfterWrite(written: bool): Pump {
    if written then AtPriority else Stopped
  }

  function Next(s: State, step: Step): State
    requires Enabled(s, step)
  {
    match step
    case Connect => s.(conns := s.conns + [Conn([], None, false, AtPriority)])
    case ChangeTopics(change) => s.(topics := Apply(s.topics, change))
    case BeginPublish(e) => s.(publishes := s.publishes + [Sending(e, Recipients(s.topics, e))])
    case Send(p, c, e) =>
      var t := SetPublish(s, p, Sending(e, s.publishes[p].left - {c}));
      SetConn(t, c, s.conns[c].(queue := s.conns[c].queue + [e]))
    case Drop(p, c, e) => SetPublish(s, p, Counting(e, s.publishes[p].left - {c}, c))
    case Count(p) =>
      var now := s.publishes[p];
      SetPublish(s, p, Signalling(now.e, now.left, now.lost)).(dropped := s.dropped + 1)
    case SignalLoss(p, c) =>
      var t := SetPublish(s, p, Sending(s.publishes[p].e, s.publishes[p].left));
      SetConn(t, c, Filled(s.conns[c], OVERFLOW))
    case BeginResync(reason) => s.(broadcasts := s.broadcasts + [Resyncing(reason, Subscribers(s.topics))])
    case BeginDisconnect => s.(broadcasts := s.broadcasts + [Disconnecting(Subscribers(s.topics))])
    case SignalResync(b, c) =>
      var now := s.broadcasts[b];
      SetConn(SetBroadcast(s, b, now.(left := now.left - {c})), c, Filled(s.conns[c], now.reason))
    case CloseClient(b, c) =>
      var now := s.broadcasts[b];
      SetConn(SetBroadcast(s, b, now.(left := now.left - {c})), c, s.conns[c].(disconnect := true))
    case PassPriority(c) => SetConn(s, c, s.conns[c].(pump := AtBlocking))
    case TakeControl(c, written) => SetConn(s, c, s.conns[c].(control := None, pump := AfterWrite(written)))
    case Dequeue(c, e, written) =>
      SetConn(s, c, s.conns[c].(queue := s.conns[c].queue[1..], pump := AfterWrite(written)))
    case SeeDisconnect(c) => SetConn(s, c, s.conns[c].(pump := Stopped))
    case Ping(c) => SetConn(s, c, s.conns[c].(pump := AtPriority))
    case Quit(c) => SetConn(s, c, s.conns[c].(pump := Stopped))
  }

  // ----- Runs -----

  predicate IsRun(run: seq<Step>)
    decreases |run|, 0
  {
    run == [] || (IsRun(Before(run)) && Enabled(StateAfter(Before(run)), run[|run| - 1]))
  }

  function StateAfter(run: seq<Step>): State
    requires IsRun(run)
    decreases |run|, 1
  {
    if run == [] then INITIAL else Next(StateAfter(Before(run)), run[|run| - 1])
  }

  function Before(run: seq<Step>): seq<Step>
    requires run != []
  {
    run[..|run| - 1]
  }

  // ----- What a run says about one client -----

  /** The events of publishes that had yet to visit the client before a step and no longer have after it. */
  function Visits(before: seq<Publishing>, after: seq<Publishing>, c: ClientId): seq<Event> {
    if before == [] || |after| < |before| then []
    else
      var last := |before| - 1;
      Visits(before[..last], after, c) + if c in before[last].left && c !in after[last].left then [before[last].e] else []
  }

  /** What publishes have offered the client, in order, read off the states of the run. */
  function OfferedTo(run: seq<Step>, c: ClientId): seq<Event>
    requires IsRun(run)
  {
    if run == [] then []
    else
      OfferedTo(Before(run), c) + Visits(StateAfter(Before(run)).publishes, StateAfter(run).publishes, c)
  }

  function QueuedFor(run: seq<Step>, c: ClientId): seq<Event> {
    if run == [] then []
    else
      QueuedFor(Before(run), c) +
      match run[|run| - 1]
      case Send(_, d, e) => if d == c then [e] else []
      case _ => []
  }

  function DequeuedBy(run: seq<Step>, c: ClientId): seq<Event> {
    if run == [] then []
    else
      DequeuedBy(Before(run), c) +
      match run[|run| - 1]
      case Dequeue(d, e, _) => if d == c then [e] else []
      case _ => []
  }

  function DropsOf(run: seq<Step>, c: ClientId): nat {
    if run == [] then 0
    else
      DropsOf(Before(run), c) +
      match run[|run| - 1]
      case Drop(_, d, _) => if d == c then 1 else 0
      case _ => 0
  }

  /** An event was dropped for the client and no control has been taken from its slot since. */
  predicate LossUnheard(run: seq<Step>, c: ClientId) {
    if run == [] then false
    else
      match run[|run| - 1]
      case Drop(_, d, _) => d == c || LossUnheard(Before(run), c)
      case TakeControl(d, _) => d != c && LossUnheard(Before(run), c)
      case _ => LossUnheard(Before(run), c)
  }

  /** Some publisher has dropped an event for the client and has yet to signal it. */
  predicate SignalDue(s: State, c: ClientId) {
    exists p | 0 <= p < |s.publishes| :: Waiting(s.publishes[p]) == Some(c)
  }

  // ----- No silent divergence -----

  lemma SignalDueKept(s: State, step: Step, c: ClientId)
    requires Enabled(s, step) && SignalDue(s, c)
    ensures SignalDue(Next(s, step), c) || (step.SignalLoss? && step.c == c)
  {
    hide Recipients, Subscribers, Apply;
    var p :| 0 <= p < |s.publishes| && Waiting(s.publishes[p]) == Some(c);
    var t := Next(s, step);
    assert p < |t.publishes|;
    if !(step.SignalLoss? && step.p == p) {
      assert Waiting(t.publishes[p]) == Some(c);
    }
  }

  lemma ControlKept(s: State, step: Step, c: ClientId)
    requires Enabled(s, step) && c < |s.conns|
    ensures c < |Next(s, step).conns|
    ensures s.conns[c].control.Some? && !(step.TakeControl? && step.c == c) ==>
              Next(s, step).conns[c].control == s.conns[c].control
    ensures step.SignalLoss? && step.c == c ==> Next(s, step).conns[c].control.Some?
    ensures s.conns[c].disconnect ==> Next(s, step).conns[c].disconnect
  {
    hide Recipients, Subscribers, Apply;
  }

  /**
   * In every interleaving, a client that has lost an event and not taken a control since has one waiting,
   * or a publisher is on its way to leaving one.
   */
  lemma {:induction false} NoSilentDivergence(run: seq<Step>, c: ClientId)
    requires IsRun(run) && c < |StateAfter(run).conns| && LossUnheard(run, c)
    ensures StateAfter(run).conns[c].control.Some? || SignalDue(StateAfter(run), c)
  {
    hide Next, Enabled, SignalDue;
    var before, step := Before(run), run[|run| - 1];
    var s := StateAfter(before);
    if step.Drop? && step.c == c {
      DropMakesDue(s, step);
    } else {
      LossNeedsClient(before, c);
      NoSilentDivergence(before, c);
      ControlKept(s, step, c);
      if SignalDue(s, c) {
        SignalDueKept(s, step, c);
      }
    }
  }

  function ControlOf(s: State, c: ClientId): Option<string> {
    if c < |s.conns| then s.conns[c].control else None
  }

  /** Somebody signalled the client, and it has taken no control since. */
  predicate SignalledSince(run: seq<Step>, c: ClientId) {
    if run == [] then false
    else
      match run[|run| - 1]
      case SignalLoss(_, d) => d == c || SignalledSince(Before(run), c)
      case SignalResync(_, d) => d == c || SignalledSince(Before(run), c)
      case TakeControl(d, _) => d != c && SignalledSince(Before(run), c)
      case _ => SignalledSince(Before(run), c)
  }

  lemma ControlStep(s: State, step: Step, c: ClientId)
    requires Enabled(s, step)
    ensures ControlOf(Next(s, step), c).Some? <==>
            match step
            case SignalLoss(_, d) => d == c || ControlOf(s, c).Some?
            case SignalResync(_, d) => d == c || ControlOf(s, c).Some?
            case TakeControl(d, _) => d != c && ControlOf(s, c).Some?
            case _ => ControlOf(s, c).Some?
  {
    hide Recipients, Subscribers, Apply;
  }

  /** In every interleaving the slot is full exactly when the client has been signalled since it last took a control. */
  lemma {:induction false} SlotFullIffSignalled(run: seq<Step>, c: ClientId)
    requires IsRun(run)
    ensures ControlOf(StateAfter(run), c).Some? <==> SignalledSince(run, c)
  {
    hide Next, Enabled, ControlOf;
    if run == [] {
      assert ControlOf(INITIAL, c) == None by {
        NobodyYet(c);
      }
    } else {
      SlotFullIffSignalled(Before(run), c);
      ControlStep(StateAfter(Before(run)), run[|run| - 1], c);
    }
  }

  /** The first reason given to the client since it last took a control, if any. */
  function FirstReason(run: seq<Step>, c: ClientId): Option<string>
    requires IsRun(run)
  {
    if run == [] then None
    else
      var earlier := FirstReason(Before(run), c);
      match run[|run| - 1]
      case SignalLoss(_, d) => if d == c && earlier == None then Some("overflow") else earlier
      case SignalResync(b, d) =>
        if d == c && earlier == None then Some(StateAfter(Before(run)).broadcasts[b].reason) else earlier
      case TakeControl(d, _) => if d == c then None else earlier
      case _ => earlier
  }

  lemma ReasonStep(s: State, step: Step, c: ClientId)
    requires Enabled(s, step)
    ensures ControlOf(Next(s, step), c) ==
            match step
            case SignalLoss(_, d) => if d == c && ControlOf(s, c) == None then Some("overflow") else ControlOf(s, c)
            case SignalResync(b, d) =>
              if d == c && ControlOf(s, c) == None then Some(s.broadcasts[b].reason) else ControlOf(s, c)
            case TakeControl(d, _) => if d == c then None else ControlOf(s, c)
            case _ => ControlOf(s, c)
  {
    hide Recipients, Subscribers, Apply;
  }

  /** In every interleaving the slot holds the first reason given since a control was last taken; later ones coalesce into it. */
  lemma {:induction false} SlotHoldsFirstReason(run: seq<Step>, c: ClientId)
    requires IsRun(run)
    ensures ControlOf(StateAfter(run), c) == FirstReason(run, c)
  {
    hide Next, Enabled, ControlOf;
    if run == [] {
      NobodyYet(c);
    } else {
      SlotHoldsFirstReason(Before(run), c);
      ReasonStep(StateAfter(Before(run)), run[|run| - 1], c);
    }
  }

  lemma NobodyYet(c: ClientId)
    ensures ControlOf(INITIAL, c) == None
  {
  }

  /**
   * A client that has lost an event unheard finds its slot empty exactly when nobody has signalled it since its last
   * control, and then its publisher is on the way to do so.
   */
  lemma LossUnsignalledIff(run: seq<Step>, c: ClientId)
    requires IsRun(run) && LossUnheard(run, c)
    ensures ControlOf(StateAfter(run), c) == None <==> !SignalledSince(run, c)
    ensures !SignalledSince(run, c) ==> SignalDue(StateAfter(run), c)
  {
    hide IsRun, StateAfter, SignalDue, LossUnheard, SignalledSince;
    SlotFullIffSignalled(run, c);
    LossNeedsClient(run, c);
    NoSilentDivergence(run, c);
  }

  lemma DropMakesDue(s: State, step: Step)
    requires step.Drop? && Enabled(s, step)
    ensures SignalDue(Next(s, step), step.c)
  {
    assert Waiting(Next(s, step).publishes[step.p]) == Some(step.c);
  }

  lemma {:induction false} LossNeedsClient(run: seq<Step>, c: ClientId)
    requires IsRun(run) && LossUnheard(run, c)
    ensures c < |StateAfter(run).conns|
  {
    var before, step := Before(run), run[|run| - 1];
    hide Next, LossUnheard;
    if step.Drop? && step.c == c {
      DropNeedsClient(StateAfter(before), step);
    } else {
      assert LossUnheard(before, c) by {
        LossBefore(run, c);
      }
      LossNeedsClient(before, c);
      ControlKept(StateAfter(before), step, c);
    }
  }

  lemma DropNeedsClient(s: State, step: Step)
    requires step.Drop? && Enabled(s, step)
    ensures step.c < |Next(s, step).conns|
  {
  }

  lemma LossBefore(run: seq<Step>, c: ClientId)
    requires LossUnheard(run, c) && !(run[|run| - 1].Drop? && run[|run| - 1].c == c)
    ensures LossUnheard(Before(run), c)
  {
  }

  // ----- The objects' behaviour as uninterrupted steps -----

  function ViewOf(conn: Conn): ClientView {
    ClientView(conn.queue, conn.control, conn.disconnect)
  }

  /** What one publisher does to one client when nobody else runs in between. */
  function OfferSteps(s: State, p: nat, c: ClientId, e: Event): seq<Step>
    requires CanOffer(s, p, c, e)
  {
    if |s.conns[c].queue| < SEND_BUFFER then [Send(p, c, e)] else [Drop(p, c, e), Count(p), SignalLoss(p, c)]
  }

  predicate Runs(s: State, steps: seq<Step>, t: State)
    decreases |steps|
  {
    if steps == [] then s == t else Enabled(s, steps[0]) && Runs(Next(s, steps[0]), steps[1..], t)
  }

  /** Run without interruption, the steps of an offer do to the client and the counter what the hub's own method does. */
  lemma UninterruptedOffer(s: State, p: nat, c: ClientId, e: Event)
    requires CanOffer(s, p, c, e)
    ensures exists t :: Runs(s, OfferSteps(s, p, c, e), t)
              && |t.conns| == |s.conns| && ViewOf(t.conns[c]) == Offered(ViewOf(s.conns[c]), e)
              && t.dropped == s.dropped + (if |s.conns[c].queue| < SEND_BUFFER then 0 else 1)
              && t.publishes == s.publishes[p := Sending(e, s.publishes[p].left - {c})]
  {
    hide Recipients, Subscribers, Apply;
    var first := OfferSteps(s, p, c, e)[0];
    var t := Next(s, first);
    if |s.conns[c].queue| < SEND_BUFFER {
      assert Runs(t, [], t);
      assert Runs(s, [first], t);
    } else {
      var u := Next(t, Count(p));
      var v := Next(u, SignalLoss(p, c));
      assert Runs(v, [], v);
      assert [SignalLoss(p, c)][1..] == [];
      assert Runs(u, [SignalLoss(p, c)], v);
      assert [Count(p), SignalLoss(p, c)][1..] == [SignalLoss(p, c)];
      assert Runs(t, [Count(p), SignalLoss(p, c)], v);
      assert OfferSteps(s, p, c, e)[1..] == [Count(p), SignalLoss(p, c)];
      assert v.publishes == s.publishes[p := Sending(e, s.publishes[p].left - {c})];
    }
  }
}
