/** Who is subscribed to what, and with which access: the hub's topic map as a value. */
module RealtimeRegistry {
  import opened RealtimeEvents
  import opened Wrappers

  datatype Access = Access(membersOnly: bool)

  type Registry<C> = map<string, map<C, Access>>

  function Subscribed<C>(topics: Registry<C>, c: C, topic: string, access: Access): Registry<C> {
    topics[topic := (if topic in topics then topics[topic] else map[])[c := access]]
  }

  function Unsubscribed<C>(topics: Registry<C>, c: C, topic: string): Registry<C> {
    if topic !in topics then topics
    else
      var rest := topics[topic] - {c};
      if |rest| == 0 then topics - {topic} else topics[topic := rest]
  }

  function Removed<C>(topics: Registry<C>, c: C): Registry<C> {
    map t | t in topics && !(c in topics[t] && |topics[t] - {c}| == 0) :: topics[t] - {c}
  }

  predicate NoEmptySets<C>(topics: Registry<C>) {
    forall t | t in topics :: topics[t].Keys != {}
  }

  function AccessOf<C>(topics: Registry<C>, c: C, topic: string): Option<Access> {
    if topic in topics && c in topics[topic] then Some(topics[topic][c]) else None
  }

  predicate Admits(e: Event, access: Access) {
    e.membersOnly ==> access.membersOnly
  }

  predicate Receives<C>(topics: Registry<C>, e: Event, c: C) {
    exists i | 0 <= i < |Topics(e)| ::
      Topics(e)[i] in topics && c in topics[Topics(e)[i]] && Admits(e, topics[Topics(e)[i]][c])
  }

  function Subscribers<C>(topics: Registry<C>): set<C> {
    set t, c | t in topics && c in topics[t] :: c
  }

  /** The clients an event is for: those holding, on one of its topics, access that admits it. */
  function Recipients<C>(topics: Registry<C>, e: Event): set<C> {
    set c | c in Subscribers(topics) && Receives(topics, e, c)
  }

  /** Recipients, in terms of topics and flags: a members-only event needs members-only access, any other any access. */
  lemma RecipientsMean<C>(topics: Registry<C>, e: Event, c: C)
    ensures c in Recipients(topics, e) <==>
            exists t :: t in Topics(e) && t in topics && c in topics[t] && (e.membersOnly ==> topics[t][c].membersOnly)
  {
    hide Topics;
    if t :| t in Topics(e) && t in topics && c in topics[t] && (e.membersOnly ==> topics[t][c].membersOnly) {
      var i :| 0 <= i < |Topics(e)| && Topics(e)[i] == t;
    }
    if Receives(topics, e, c) {
      var i :| 0 <= i < |Topics(e)| && Topics(e)[i] in topics && c in topics[Topics(e)[i]]
               && Admits(e, topics[Topics(e)[i]][c]);
      assert Topics(e)[i] in Topics(e);
    }
  }

  lemma SubscribersMean<C>(topics: Registry<C>, c: C)
    ensures c in Subscribers(topics) <==> exists t :: t in topics && c in topics[t]
  {
  }

  // ----- What the map means after any history -----

  datatype Change<C> =
    | Subscribe(c: C, topic: string, access: Access)
    | Unsubscribe(c: C, topic: string)
    | Remove(c: C)

  function Apply<C>(topics: Registry<C>, change: Change<C>): Registry<C> {
    match change
    case Subscribe(c, topic, access) => Subscribed(topics, c, topic, access)
    case Unsubscribe(c, topic) => Unsubscribed(topics, c, topic)
    case Remove(c) => Removed(topics, c)
  }

  function ApplyAll<C>(history: seq<Change<C>>): Registry<C> {
    if history == [] then map[]
    else Apply(ApplyAll(history[..|history| - 1]), history[|history| - 1])
  }

  /** The client's latest word on the topic, from the history alone: its last subscription, unless it has left since. */
  function Latest<C(==)>(history: seq<Change<C>>, c: C, topic: string): Option<Access> {
    if history == [] then None
    else
      match history[|history| - 1]
      case Subscribe(d, t, access) =>
        if d == c && t == topic then Some(access) else Latest(history[..|history| - 1], c, topic)
      case Unsubscribe(d, t) =>
        if d == c && t == topic then None else Latest(history[..|history| - 1], c, topic)
      case Remove(d) =>
        if d == c then None else Latest(history[..|history| - 1], c, topic)
  }

  lemma RestIsEmpty<C>(subs: map<C, Access>, c: C)
    ensures |subs - {c}| == 0 <==> subs.Keys <= {c}
    ensures (subs - {c}).Keys == subs.Keys - {c}
  {
    var rest := subs - {c};
    if |rest| == 0 {
      assert forall d | d in subs.Keys && d != c :: d in rest;
    } else {
      assert rest.Keys != {};
      var d :| d in rest.Keys;
    }
  }

  lemma SubscribedAccess<C>(topics: Registry<C>, d: C, t: string, access: Access, c: C, topic: string)
    ensures AccessOf(Subscribed(topics, d, t, access), c, topic) ==
            if d == c && t == topic then Some(access) else AccessOf(topics, c, topic)
    ensures NoEmptySets(topics) ==> NoEmptySets(Subscribed(topics, d, t, access))
  {
    assert d in Subscribed(topics, d, t, access)[t].Keys;
  }

  lemma UnsubscribedAccess<C>(topics: Registry<C>, d: C, t: string, c: C, topic: string)
    ensures AccessOf(Unsubscribed(topics, d, t), c, topic) ==
            if d == c && t == topic then None else AccessOf(topics, c, topic)
    ensures NoEmptySets(topics) ==> NoEmptySets(Unsubscribed(topics, d, t))
  {
    if t in topics {
      RestIsEmpty(topics[t], d);
    }
  }

  lemma RemovedAccess<C>(topics: Registry<C>, d: C, c: C, topic: string)
    ensures AccessOf(Removed(topics, d), c, topic) == if d == c then None else AccessOf(topics, c, topic)
    ensures NoEmptySets(topics) ==> NoEmptySets(Removed(topics, d))
  {
    if topic in topics {
      RestIsEmpty(topics[topic], d);
    }
    if NoEmptySets(topics) {
      forall t | t in Removed(topics, d) ensures Removed(topics, d)[t].Keys != {} {
        RestIsEmpty(topics[t], d);
      }
    }
  }

  /** After any run of changes no topic is left empty, and every access held is the client's latest. */
  lemma {:induction false} RegistryMeansHistory<C>(history: seq<Change<C>>, c: C, topic: string)
    ensures NoEmptySets(ApplyAll(history))
    ensures AccessOf(ApplyAll(history), c, topic) == Latest(history, c, topic)
  {
    hide Subscribed, Unsubscribed, Removed, AccessOf, NoEmptySets;
    if history == [] {
      EmptyRegistry(c, topic);
    } else {
      var before := history[..|history| - 1];
      RegistryMeansHistory(before, c, topic);
      match history[|history| - 1]
      case Subscribe(d, t, access) => SubscribedAccess(ApplyAll(before), d, t, access, c, topic);
      case Unsubscribe(d, t) => UnsubscribedAccess(ApplyAll(before), d, t, c, topic);
      case Remove(d) => RemovedAccess(ApplyAll(before), d, c, topic);
    }
  }

  lemma EmptyRegistry<C>(c: C, topic: string)
    ensures var none: Registry<C> := map[]; NoEmptySets(none) && AccessOf(none, c, topic) == None
  {
  }
}
