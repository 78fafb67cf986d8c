/** The hub and its clients as objects, each method run on its own. Interleavings are in RealtimeProtocol. */
module RealtimeHub {
  import opened RealtimeEvents
  import opened RealtimeRegistry
  import opened Wrappers

  const SEND_BUFFER := 64
  const OVERFLOW := "overflow"

  datatype ClientView = ClientView(send: seq<Event>, control: Option<string>, disconnected: bool)

  function Signalled(v: ClientView, reason: string): ClientView {
    if v.control == None then v.(control := Some(reason)) else v
  }

  /** What an offered event does to a client: queued if there is room, otherwise lost and a refetch asked for. */
  function Offered(v: ClientView, e: Event): ClientView {
    if |v.send| < SEND_BUFFER then v.(send := v.send + [e]) else Signalled(v, OVERFLOW)
  }

  /** The whole view after a signal, and after an offer. */
  lemma SignalledMeans(v: ClientView, reason: string)
    ensures Signalled(v, reason) ==
            ClientView(v.send, if v.control == None then Some(reason) else v.control, v.disconnected)
  {
  }

  lemma OfferedMeans(v: ClientView, e: Event)
    ensures Offered(v, e) ==
            if |v.send| < 64 then ClientView(v.send + [e], v.control, v.disconnected)
            else ClientView(v.send, if v.control == None then Some("overflow") else v.control, v.disconnected)
  {
  }

  /** A connection's bounded event queue, its one-slot recovery control and its disconnect signal. */
  class Client {
    var send: seq<Event>
    var control: Option<string>
    var disconnected: bool

    constructor ()
      ensures View() == ClientView([], None, false)
    {
      send, control, disconnected := [], None, false;
    }

    function View(): ClientView
      reads this
    {
      ClientView(send, control, disconnected)
    }

    /** A send that gives up at once when the queue is full. */
    method TrySend(e: Event) returns (sent: bool)
      modifies `send
      ensures sent <==> |old(send)| < 64
      ensures send == if sent then old(send) + [e] else old(send)
    {
      sent := |send| < SEND_BUFFER;
      if sent {
        send := send + [e];
      }
    }

    /** Fills the control slot unless a signal is already waiting in it. */
    method RequestResync(reason: string)
      modifies `control
      ensures View() == Signalled(old(View()), reason)
      ensures control == if old(control) == None then Some(reason) else old(control)
    {
      if control == None {
        control := Some(reason);
      }
    }

    method RequestDisconnect()
      modifies `disconnected
      ensures View() == old(View()).(disconnected := true) && disconnected
    {
      if !disconnected {
        disconnected := true;
      }
    }
  }

  /** The clients whose queue has no room. */
  ghost function FullOf(clients: set<Client>): set<Client>
    reads clients
  {
    set c | c in clients && |c.View().send| >= 64
  }

  lemma FullMembers(clients: set<Client>)
    ensures forall c | c in clients :: c in FullOf(clients) <==> |c.View().send| >= SEND_BUFFER
    ensures |FullOf(clients) - clients| == 0
  {
    assert FullOf(clients) - clients == {};
  }

  lemma NoneLeft<C>(full: set<C>, left: set<C>)
    requires left == {}
    ensures |full - left| == |full|
  {
    assert full - left == full;
  }

  lemma TakeOne<C>(full: set<C>, left: set<C>, c: C)
    requires c in left
    ensures |full - (left - {c})| == |full - left| + if c in full then 1 else 0
  {
    assert full - (left - {c}) == full - left + if c in full then {c} else {};
  }

  /** Removal part way through its walk: only the topics already visited have let the client go. */
  function PartlyRemoved<C>(topics: Registry<C>, c: C, visited: set<string>): Registry<C> {
    map t | t in topics && !(t in visited && c in topics[t] && |topics[t] - {c}| == 0) ::
      if t in visited then topics[t] - {c} else topics[t]
  }

  lemma NothingVisited<C>(topics: Registry<C>, c: C)
    ensures PartlyRemoved(topics, c, {}) == topics
    ensures PartlyRemoved(topics, c, topics.Keys) == Removed(topics, c)
  {
  }

  lemma VisitOne<C>(topics: Registry<C>, c: C, visited: set<string>, t: string)
    requires t in topics && t !in visited
    ensures var now, next := PartlyRemoved(topics, c, visited), PartlyRemoved(topics, c, visited + {t});
            && t in now && now[t] == topics[t]
            && next == if c !in topics[t] then now
                       else if |topics[t] - {c}| == 0 then now - {t}
                       else now[t := topics[t] - {c}]
  {
    if c !in topics[t] {
      assert topics[t] - {c} == topics[t];
    }
  }

  /** Reached by one of the first n topics. */
  ghost predicate ReceivesWithin(topics: Registry<Client>, e: Event, c: Client, n: nat)
    requires n <= |Topics(e)|
  {
    exists i | 0 <= i < n ::
      Topics(e)[i] in topics && c in topics[Topics(e)[i]] && Admits(e, topics[Topics(e)[i]][c])
  }

  lemma WithinAll(topics: Registry<Client>, e: Event, c: Client)
    ensures ReceivesWithin(topics, e, c, |Topics(e)|) <==> c in Recipients(topics, e)
  {
    hide Topics;
  }

  lemma SnapshotMeans(topics: Registry<Client>, e: Event)
    ensures forall c :: c in Recipients(topics, e) <==> ReceivesWithin(topics, e, c, |Topics(e)|)
    ensures forall c :: c in Recipients(topics, e) <==>
              exists t :: t in Topics(e) && t in topics && c in topics[t] && (e.membersOnly ==> topics[t][c].membersOnly)
  {
    hide Topics, ReceivesWithin, Recipients;
    forall c
      ensures c in Recipients(topics, e) <==> ReceivesWithin(topics, e, c, |Topics(e)|)
      ensures c in Recipients(topics, e) <==>
              exists t :: t in Topics(e) && t in topics && c in topics[t] && (e.membersOnly ==> topics[t][c].membersOnly)
    {
      WithinAll(topics, e, c);
      RecipientsMean(topics, e, c);
    }
  }

  lemma NoTopicsNoRecipients(topics: Registry<Client>, e: Event)
    requires |Topics(e)| == 0
    ensures Recipients(topics, e) == {}
  {
    hide Topics;
  }

  class Hub {
    var topics: Registry<Client>
    var dropped: nat

    constructor ()
      ensures topics == map[] && dropped == 0
    {
      topics, dropped := map[], 0;
    }

    method SubscribeWithAccess(c: Client, topic: string, access: Access)
      modifies `topics
      ensures topics == Subscribed(old(topics), c, topic, access)
    {
      var clients: map<Client, Access> := if topic in topics then topics[topic] else map[];
      topics := topics[topic := clients[c := access]];
    }

    method Unsubscribe(c: Client, topic: string)
      modifies `topics
      ensures topics == Unsubscribed(old(topics), c, topic)
    {
      if topic in topics {
        var clients := topics[topic] - {c};
        topics := topics[topic := clients];
        if |clients| == 0 {
          topics := topics - {topic};
        }
      }
    }

    /** Drops the client from every topic, deleting topics it leaves empty while the map is being walked. */
    method Remove(c: Client)
      modifies `topics
      ensures topics == Removed(old(topics), c)
    {
      hide PartlyRemoved, Removed;
      ghost var all := topics;
      NothingVisited(all, c);
      var pending := topics.Keys;
      assert all.Keys - pending == {};
      while pending != {}
        invariant pending <= all.Keys && topics == PartlyRemoved(all, c, all.Keys - pending)
        decreases pending
      {
        var t :| t in pending;
        VisitOne(all, c, all.Keys - pending, t);
        assert all.Keys - (pending - {t}) == all.Keys - pending + {t};
        pending := pending - {t};
        if c in topics[t] {
          var clients := topics[t] - {c};
          if |clients| == 0 {
            topics := topics - {t};
          } else {
            topics := topics[t := clients];
          }
        }
      }
      assert all.Keys - pending == all.Keys;
    }

    /** The clients to visit, each once, gathered topic by topic. */
    method Snapshot(e: Event) returns (seen: set<Client>)
      ensures seen == Recipients(topics, e)
      ensures forall c :: c in seen <==>
                exists t :: t in Topics(e) && t in topics && c in topics[t] && (e.membersOnly ==> topics[t][c].membersOnly)
    {
      hide Topics, Receives;
      seen := {};
      var ts := Topics(e);
      for i := 0 to |ts|
        invariant forall c :: c in seen <==> ReceivesWithin(topics, e, c, i)
      {
        var pending: set<Client> := if ts[i] in topics then topics[ts[i]].Keys else {};
        while pending != {}
          invariant ts[i] in topics || pending == {}
          invariant ts[i] in topics ==> pending <= topics[ts[i]].Keys
          invariant forall c :: c in seen <==>
                      || ReceivesWithin(topics, e, c, i)
                      || (ts[i] in topics && c in topics[ts[i]] && c !in pending && Admits(e, topics[ts[i]][c]))
          decreases pending
        {
          var c :| c in pending;
          pending := pending - {c};
          var access := topics[ts[i]][c];
          if !(e.membersOnly && !access.membersOnly) && c !in seen {
            seen := seen + {c};
          }
        }
      }
      SnapshotMeans(topics, e);
    }

    method Offer(c: Client, e: Event)
      modifies `dropped, c`send, c`control
      ensures c.View() == Offered(old(c.View()), e)
      ensures dropped == old(dropped) + if |old(c.View()).send| >= SEND_BUFFER then 1 else 0
      ensures if |old(c.send)| < 64
              then c.send == old(c.send) + [e] && c.control == old(c.control) && dropped == old(dropped)
              else c.send == old(c.send) && dropped == old(dropped) + 1
                   && c.control == if old(c.control) == None then Some("overflow") else old(c.control)
    {
      var sent := c.TrySend(e);
      if !sent {
        dropped := dropped + 1;
        c.RequestResync(OVERFLOW);
      }
    }

    /** The sends of one publish, after the snapshot is taken and the lock released. */
    method OfferAll(clients: set<Client>, e: Event)
      modifies `dropped, clients
      ensures forall c | c in clients :: c.View() == Offered(old(c.View()), e)
      ensures dropped == old(dropped) + |old(FullOf(clients))|
    {
      hide Offered, FullOf, Client.View;
      FullMembers(clients);
      ghost var full := FullOf(clients);
      var left := clients;
      while left != {}
        invariant left <= clients
        invariant dropped == old(dropped) + |full - left|
        invariant forall c | c in left :: unchanged(c)
        invariant forall c | c in clients && c !in left :: c.View() == Offered(old(c.View()), e)
        decreases left
      {
        var c :| c in left;
        TakeOne(full, left, c);
        left := left - {c};
        assert c.View() == old(c.View());
        Offer(c, e);
      }
      NoneLeft(full, left);
    }

    /** Fans an event out: each recipient gets it once, or loses it, is counted, and is told to refetch. */
    method Publish(e: Event)
      modifies `dropped, Recipients(topics, e)
      ensures forall c | c in Recipients(topics, e) :: c.View() == Offered(old(c.View()), e)
      ensures forall t, c | t in Topics(e) && t in topics && c in topics[t]
                            && (e.membersOnly ==> topics[t][c].membersOnly) ::
                c.View() == Offered(old(c.View()), e)
      ensures dropped == old(dropped) + |old(FullOf(Recipients(topics, e)))|
    {
      hide Topics, Receives, Offered;
      var topicsOfEvent := Topics(e);
      if |topicsOfEvent| == 0 {
        NoTopicsNoRecipients(topics, e);
        assert FullOf(Recipients(topics, e)) == {};
        return;
      }
      var seen := Snapshot(e);
      assert forall t, c | t in Topics(e) && t in topics && c in topics[t]
                           && (e.membersOnly ==> topics[t][c].membersOnly) :: c in seen;
      OfferAll(seen, e);
    }

    /** Every client on any topic, gathered topic by topic. */
    method Everyone() returns (clients: set<Client>)
      ensures clients == Subscribers(topics)
      ensures forall c :: c in clients <==> exists t :: t in topics && c in topics[t]
    {
      clients := {};
      var pending := topics.Keys;
      while pending != {}
        invariant pending <= topics.Keys
        invariant forall c :: c in clients <==> exists t :: t in topics && t !in pending && c in topics[t]
        decreases pending
      {
        var t :| t in pending;
        pending := pending - {t};
        var left := topics[t].Keys;
        ghost var before := clients;
        while left != {}
          invariant left <= topics[t].Keys && clients == before + (topics[t].Keys - left)
          decreases left
        {
          var c :| c in left;
          left := left - {c};
          clients := clients + {c};
        }
        assert clients == before + topics[t].Keys;
      }
    }

    method SignalAll(clients: set<Client>, reason: string)
      modifies clients`control
      ensures forall c | c in clients :: c.View() == Signalled(old(c.View()), reason)
    {
      hide Signalled;
      var left := clients;
      while left != {}
        invariant left <= clients
        invariant forall c | c in left :: c.View() == old(c.View())
        invariant forall c | c in clients && c !in left :: c.View() == Signalled(old(c.View()), reason)
        decreases left
      {
        var c :| c in left;
        assert c.View() == old(c.View());
        left := left - {c};
        c.RequestResync(reason);
      }
    }

    /** Everyone subscribed to anything has a signal waiting afterwards, an earlier one kept. */
    method ResyncAll(reason: string)
      modifies Subscribers(topics)`control
      ensures forall c | c in Subscribers(topics) :: c.View() == Signalled(old(c.View()), reason)
      ensures forall t, c | t in topics && c in topics[t] ::
                c.control == if old(c.control) == None then Some(reason) else old(c.control)
    {
      hide Signalled;
      var clients := Everyone();
      SignalAll(clients, reason);
      forall t, c | t in topics && c in topics[t]
        ensures c.control == if old(c.control) == None then Some(reason) else old(c.control)
      {
        assert c in clients;
        SignalledMeans(old(c.View()), reason);
        assert c.control == c.View().control;
      }
    }

    method CloseAll(clients: set<Client>)
      modifies clients`disconnected
      ensures forall c | c in clients :: c.View() == old(c.View()).(disconnected := true)
    {
      var left := clients;
      while left != {}
        invariant left <= clients
        invariant forall c | c in left :: c.View() == old(c.View())
        invariant forall c | c in clients && c !in left :: c.View() == old(c.View()).(disconnected := true)
        decreases left
      {
        var c :| c in left;
        assert c.View() == old(c.View());
        left := left - {c};
        c.RequestDisconnect();
      }
    }

    method DisconnectAll()
      modifies Subscribers(topics)`disconnected
      ensures forall c | c in Subscribers(topics) :: c.View() == old(c.View()).(disconnected := true)
      ensures forall t, c | t in topics && c in topics[t] :: c.disconnected
    {
      var clients := Everyone();
      CloseAll(clients);
      forall t, c | t in topics && c in topics[t] ensures c.disconnected {
        assert c in clients;
        assert c.disconnected == c.View().disconnected;
      }
    }
  }
}
