/** The bounded limiter against an ideal one that never forgets a key: below capacity they answer alike. */
module RateLimiterGuarantees {
  import opened RateLimiter
  import opened Wrappers

  // ----- The ideal limiter: one key's windows, from its call times alone -----

  predicate Current(e: Option<Entry>, now: int) {
    e.Some? && now < e.value.reset
  }

  function IdealAnswer(cfg: Config, e: Option<Entry>, now: int): Answer {
    if Current(e, now) && e.value.count >= cfg.limit then Answer(false, e.value.reset - now) else Answer(true, 0)
  }

  function IdealAfter(cfg: Config, e: Option<Entry>, now: int): Option<Entry> {
    if !Current(e, now) then Some(Entry(1, now + cfg.window))
    else if e.value.count >= cfg.limit then e
    else Some(Entry(e.value.count + 1, e.value.reset))
  }

  function IdealBlocked(cfg: Config, e: Option<Entry>, now: int): Answer {
    var a := IdealAnswer(cfg, e, now);
    Answer(!a.yes, a.retry)
  }

  /** Where a key stands after calls at these times. */
  function Ideal(cfg: Config, calls: seq<int>): Option<Entry> {
    if calls == [] then None else IdealAfter(cfg, Ideal(cfg, Earlier(calls)), calls[|calls| - 1])
  }

  function Earlier<T>(s: seq<T>): seq<T>
    requires s != []
  {
    s[..|s| - 1]
  }

  // ----- Runs of the bounded limiter -----

  datatype Op = Allow(key: string, now: int) | Blocked(key: string, now: int)

  ghost predicate OpStep(cfg: Config, m: Table, op: Op, next: Table, a: Answer) {
    match op
    case Allow(key, now) => AllowStep(cfg, m, key, now, next, a)
    case Blocked(key, now) => a == BlockedAnswer(cfg, m, key, now) && next == m
  }

  ghost predicate IsRun(cfg: Config, ops: seq<Op>, tables: seq<Table>, answers: seq<Answer>) {
    && |tables| == |ops| + 1 && |answers| == |ops|
    && tables[0] == map[]
    && forall i | 0 <= i < |ops| :: OpStep(cfg, tables[i], ops[i], tables[i + 1], answers[i])
  }

  predicate ClockRises(ops: seq<Op>) {
    forall i, j | 0 <= i <= j < |ops| :: ops[i].now <= ops[j].now
  }

  /** When allow was called for the key. */
  function CallsFor(ops: seq<Op>, key: string): seq<int> {
    if ops == [] then []
    else
      var op := ops[|ops| - 1];
      CallsFor(Earlier(ops), key) + if op.Allow? && op.key == key then [op.now] else []
  }

  function IdealOpAnswer(cfg: Config, ops: seq<Op>, i: nat): Answer
    requires i < |ops|
  {
    var e := Ideal(cfg, CallsFor(ops[..i], ops[i].key));
    if ops[i].Allow? then IdealAnswer(cfg, e, ops[i].now) else IdealBlocked(cfg, e, ops[i].now)
  }

  // ----- What a table keeps in every run, whatever the clock does -----

  predicate Bounded(cfg: Config, m: Table) {
    |m| <= cfg.maxEntries && forall k | k in m :: 1 <= m[k].count <= cfg.limit
  }

  lemma MinusOne(m: Table, k: string)
    requires k in m
    ensures |m - {k}| == |m| - 1
  {
    assert (m - {k}).Keys == m.Keys - {k};
  }

  lemma RoomIsRoom(cfg: Config, m: Table, now: int, kept: Table)
    requires cfg.maxEntries >= 1 && |m| <= cfg.maxEntries && MadeRoom(cfg, m, now, kept)
    ensures |kept| < cfg.maxEntries
  {
    var live := LiveOnly(m, now);
    assert live.Keys <= m.Keys;
    LiveNoLarger(m, now);
    if victim :| victim in live && kept == live - {victim} {
      MinusOne(live, victim);
    }
  }

  lemma LiveNoLarger(m: Table, now: int)
    ensures |LiveOnly(m, now)| <= |m|
  {
    Smaller(LiveOnly(m, now).Keys, m.Keys);
  }

  lemma {:induction false} Smaller<T>(a: set<T>, b: set<T>)
    requires a <= b
    ensures |a| <= |b|
  {
    if a != {} {
      var x :| x in a;
      Smaller(a - {x}, b - {x});
    }
  }

  lemma PutOne(m: Table, key: string, e: Entry)
    ensures |m[key := e]| <= |m| + 1
  {
    assert m[key := e].Keys == m.Keys + {key};
  }

  lemma AdmitStaysBounded(cfg: Config, m: Table, key: string, now: int, kept: Table)
    requires cfg.maxEntries >= 1 && cfg.limit >= 1 && Bounded(cfg, m) && MadeRoom(cfg, m - {key}, now, kept)
    ensures Bounded(cfg, kept[key := Entry(1, now + cfg.window)])
  {
    hide MadeRoom;
    MinusNoLarger(m, key);
    RoomKeepsEntries(cfg, m - {key}, now, kept);
    RoomIsRoom(cfg, m - {key}, now, kept);
    PutOne(kept, key, Entry(1, now + cfg.window));
  }

  lemma MinusNoLarger(m: Table, key: string)
    ensures |m - {key}| <= |m|
  {
    Smaller((m - {key}).Keys, m.Keys);
  }

  lemma BoundedStep(cfg: Config, m: Table, op: Op, next: Table, a: Answer)
    requires cfg.maxEntries >= 1 && cfg.limit >= 1 && Bounded(cfg, m) && OpStep(cfg, m, op, next, a)
    ensures Bounded(cfg, next)
  {
    hide MadeRoom;
    if op.Allow? {
      if !Live(m, op.key, op.now) {
        hide Bounded;
        var kept :| MadeRoom(cfg, m - {op.key}, op.now, kept)
                    && next == kept[op.key := Entry(1, op.now + cfg.window)];
        AdmitStaysBounded(cfg, m, op.key, op.now, kept);
      } else if m[op.key].count < cfg.limit {
        assert next.Keys == m.Keys;
      }
    }
  }

  /** The table never outgrows its capacity and every count stays within the limit, in every run. */
  lemma {:induction false} TableStaysBounded(cfg: Config, ops: seq<Op>, tables: seq<Table>, answers: seq<Answer>, n: nat)
    requires cfg.maxEntries >= 1 && cfg.limit >= 1 && IsRun(cfg, ops, tables, answers) && n <= |ops|
    ensures Bounded(cfg, tables[n])
  {
    hide OpStep;
    if n > 0 {
      TableStaysBounded(cfg, ops, tables, answers, n - 1);
      BoundedStep(cfg, tables[n - 1], ops[n - 1], tables[n], answers[n - 1]);
    }
  }

  predicate Evicts(m: Table, op: Op, next: Table, k: string) {
    k != op.key && Live(m, k, op.now) && k !in next
  }

  /** No live key loses its window in the step. */
  ghost predicate EvictsNone(m: Table, op: Op, next: Table) {
    forall k :: !Evicts(m, op, next, k)
  }

  lemma OnlyVictimLost(cfg: Config, m: Table, now: int, kept: Table, k: string)
    requires MadeRoom(cfg, m, now, kept) && Live(m, k, now) && k !in kept
    ensures |LiveOnly(m, now)| >= cfg.maxEntries && kept == LiveOnly(m, now) - {k}
    ensures forall j | Live(m, j, now) :: m[k].reset <= m[j].reset
  {
    assert k in LiveOnly(m, now);
    forall j | Live(m, j, now) ensures m[k].reset <= m[j].reset {
      assert j in LiveOnly(m, now);
    }
  }

  /**
   * A live entry goes only to admit a new key into a table full of live ones, and then it is one that expires
   * soonest and the only one to go.
   */
  lemma EvictionIsMinimal(cfg: Config, m: Table, op: Op, next: Table, a: Answer, k: string)
    requires OpStep(cfg, m, op, next, a) && Evicts(m, op, next, k)
    ensures op.Allow? && !Live(m, op.key, op.now) && |LiveOnly(m - {op.key}, op.now)| >= cfg.maxEntries
    ensures forall j | j != op.key && Live(m, j, op.now) :: m[k].reset <= m[j].reset
    ensures forall j | j != k && j != op.key && Live(m, j, op.now) :: j in next && next[j] == m[j]
  {
    hide MadeRoom, LiveOnly;
    assert op.Allow? && !Live(m, op.key, op.now);
    var others := m - {op.key};
    var kept :| MadeRoom(cfg, others, op.now, kept) && next == kept[op.key := Entry(1, op.now + cfg.window)];
    OnlyVictimLost(cfg, others, op.now, kept, k);
    forall j | j != op.key && Live(m, j, op.now) ensures m[k].reset <= m[j].reset {
      assert Live(others, j, op.now);
    }
    forall j | j != k && j != op.key && Live(m, j, op.now) ensures j in next && next[j] == m[j] {
      assert Live(others, j, op.now);
      LiveStays(others, op.now, j);
    }
  }

  /** Some live key is evicted exactly when a new key meets a table of live entries at capacity. */
  lemma EvictionIff(cfg: Config, m: Table, op: Op, next: Table, a: Answer)
    requires OpStep(cfg, m, op, next, a) && cfg.maxEntries >= 1
    ensures (exists k :: Evicts(m, op, next, k)) <==>
            op.Allow? && !Live(m, op.key, op.now) && |LiveOnly(m - {op.key}, op.now)| >= cfg.maxEntries
  {
    hide MadeRoom, LiveOnly;
    if k :| Evicts(m, op, next, k) {
      EvictionIsMinimal(cfg, m, op, next, a, k);
    }
    if op.Allow? && !Live(m, op.key, op.now) && |LiveOnly(m - {op.key}, op.now)| >= cfg.maxEntries {
      var others := m - {op.key};
      var kept :| MadeRoom(cfg, others, op.now, kept) && next == kept[op.key := Entry(1, op.now + cfg.window)];
      var k := FullLosesOne(cfg, others, op.now, kept);
      assert Evicts(m, op, next, k);
    }
  }

  lemma FullLosesOne(cfg: Config, m: Table, now: int, kept: Table) returns (k: string)
    requires MadeRoom(cfg, m, now, kept) && |LiveOnly(m, now)| >= cfg.maxEntries >= 1
    ensures Live(m, k, now) && k !in kept
  {
    LiveNoLarger(m, now);
    var live := LiveOnly(m, now);
    assert live != map[];
    k :| k in live && kept == live - {k};
  }

  lemma LiveStays(m: Table, now: int, j: string)
    requires Live(m, j, now)
    ensures j in LiveOnly(m, now) && LiveOnly(m, now)[j] == m[j]
  {
  }

  // ----- A key never evicted sees the ideal limiter -----

  /** The table and the ideal agree about a key: the same entry, or both treat it as expired. */
  predicate Agree(m: Table, key: string, e: Option<Entry>, now: int) {
    || (key in m && e == Some(m[key]))
    || (!Live(m, key, now) && !Current(e, now))
  }

  lemma AgreeStep(cfg: Config, m: Table, op: Op, next: Table, a: Answer, key: string, e: Option<Entry>)
    requires OpStep(cfg, m, op, next, a) && Agree(m, key, e, op.now) && !Evicts(m, op, next, key)
    ensures Agree(next, key, if op.Allow? && op.key == key then IdealAfter(cfg, e, op.now) else e, op.now)
    ensures op.key == key ==>
              a == if op.Allow? then IdealAnswer(cfg, e, op.now) else IdealBlocked(cfg, e, op.now)
  {
    hide MadeRoom;
    if op.Allow? && op.key != key && !Live(m, op.key, op.now) {
      var kept :| MadeRoom(cfg, m - {op.key}, op.now, kept)
                  && next == kept[op.key := Entry(1, op.now + cfg.window)];
      RoomKeepsEntries(cfg, m - {op.key}, op.now, kept);
    }
  }

  lemma AgreeLater(m: Table, key: string, e: Option<Entry>, now: int, later: int)
    requires Agree(m, key, e, now) && now <= later
    ensures Agree(m, key, e, later)
  {
  }

  lemma {:induction false} KeyAgrees(cfg: Config, ops: seq<Op>, tables: seq<Table>, answers: seq<Answer>,
                                     key: string, n: nat, now: int)
    requires IsRun(cfg, ops, tables, answers) && ClockRises(ops) && n <= |ops|
    requires forall i | 0 <= i < n :: ops[i].now <= now
    requires forall i | 0 <= i < n :: !Evicts(tables[i], ops[i], tables[i + 1], key)
    ensures Agree(tables[n], key, Ideal(cfg, CallsFor(ops[..n], key)), now)
  {
    hide OpStep, Agree, Evicts, IdealAfter;
    if n == 0 {
      EmptyAgrees(key, now);
      assert ops[..0] == [];
    } else {
      var op := ops[n - 1];
      KeyAgrees(cfg, ops, tables, answers, key, n - 1, op.now);
      assert Earlier(ops[..n]) == ops[..n - 1];
      var calls := CallsFor(ops[..n - 1], key);
      assert Earlier(calls + [op.now]) == calls;
      assert calls + [] == calls;
      AgreeStep(cfg, tables[n - 1], op, tables[n], answers[n - 1], key, Ideal(cfg, calls));
      AgreeLater(tables[n], key, Ideal(cfg, CallsFor(ops[..n], key)), op.now, now);
    }
  }

  lemma EmptyAgrees(key: string, now: int)
    ensures Agree(map[], key, None, now)
  {
  }

  /** While a key has not been evicted, every answer it gets, and every retry time, is the ideal limiter's. */
  lemma KeySeesIdeal(cfg: Config, ops: seq<Op>, tables: seq<Table>, answers: seq<Answer>, n: nat)
    requires IsRun(cfg, ops, tables, answers) && ClockRises(ops) && n < |ops|
    requires forall i | 0 <= i < n :: !Evicts(tables[i], ops[i], tables[i + 1], ops[n].key)
    ensures answers[n] == IdealOpAnswer(cfg, ops, n)
  {
    hide OpStep, Agree, Evicts, CallsFor, Ideal;
    KeyAgrees(cfg, ops, tables, answers, ops[n].key, n, ops[n].now);
    NoSelfEviction(tables[n], ops[n], tables[n + 1]);
    AgreeStep(cfg, tables[n], ops[n], tables[n + 1], answers[n], ops[n].key, Ideal(cfg, CallsFor(ops[..n], ops[n].key)));
  }

  lemma NoSelfEviction(m: Table, op: Op, next: Table)
    ensures !Evicts(m, op, next, op.key)
  {
  }

  // ----- Below capacity no key is ever evicted -----

  function KeysOf(ops: seq<Op>): set<string> {
    set i | 0 <= i < |ops| :: ops[i].key
  }

  /** The keys the ideal limiter holds a window for. */
  function IdealLive(cfg: Config, ops: seq<Op>, now: int): set<string> {
    set k | k in KeysOf(ops) && Current(Ideal(cfg, CallsFor(ops, k)), now)
  }

  /** Whenever a call opens a new window, fewer keys than the capacity have one open. */
  predicate BelowCapacity(cfg: Config, ops: seq<Op>) {
    forall n | 0 <= n < |ops| && ops[n].Allow? && ops[n].key !in IdealLive(cfg, ops[..n], ops[n].now) ::
      |IdealLive(cfg, ops[..n], ops[n].now)| < cfg.maxEntries
  }

  lemma {:induction false} UncalledIsNone(cfg: Config, ops: seq<Op>, key: string)
    requires key !in KeysOf(ops)
    ensures CallsFor(ops, key) == []
  {
    if ops != [] {
      assert ops[|ops| - 1].key in KeysOf(ops);
      forall k | k in KeysOf(Earlier(ops)) ensures k in KeysOf(ops) {
        var i :| 0 <= i < |Earlier(ops)| && Earlier(ops)[i].key == k;
        assert ops[i].key == k;
      }
      UncalledIsNone(cfg, Earlier(ops), key);
    }
  }

  lemma LiveMeansIdealLive(cfg: Config, ops: seq<Op>, m: Table, key: string, now: int)
    requires Agree(m, key, Ideal(cfg, CallsFor(ops, key)), now)
    ensures Live(m, key, now) <==> key in IdealLive(cfg, ops, now)
  {
    hide CallsFor, KeysOf;
    if key !in KeysOf(ops) {
      UncalledIsNone(cfg, ops, key);
    }
  }

  lemma {:induction false} NoEvictionBelowCapacity(cfg: Config, ops: seq<Op>, tables: seq<Table>, answers: seq<Answer>,
                                                   n: nat, key: string)
    requires IsRun(cfg, ops, tables, answers) && ClockRises(ops) && BelowCapacity(cfg, ops) && n < |ops|
    ensures !Evicts(tables[n], ops[n], tables[n + 1], key)
    decreases n
  {
    hide OpStep, Agree, CallsFor, Ideal, IdealLive, LiveOnly;
    var m, op, next := tables[n], ops[n], tables[n + 1];
    if Evicts(m, op, next, key) {
      EvictionIsMinimal(cfg, m, op, next, answers[n], key);
      forall k ensures Live(m, k, op.now) <==> k in IdealLive(cfg, ops[..n], op.now) {
        forall i | 0 <= i < n ensures !Evicts(tables[i], ops[i], tables[i + 1], k) {
          NoEvictionBelowCapacity(cfg, ops, tables, answers, i, k);
        }
        KeyAgrees(cfg, ops, tables, answers, k, n, op.now);
        LiveMeansIdealLive(cfg, ops[..n], m, k, op.now);
      }
      LiveAreKeys(m - {op.key}, op.now);
      Smaller(LiveOnly(m - {op.key}, op.now).Keys, IdealLive(cfg, ops[..n], op.now));
    }
  }

  lemma LiveAmongIdeal(cfg: Config, ops: seq<Op>, tables: seq<Table>, answers: seq<Answer>, n: nat)
    requires IsRun(cfg, ops, tables, answers) && ClockRises(ops) && n < |ops|
    requires forall i | 0 <= i < n :: EvictsNone(tables[i], ops[i], tables[i + 1])
    ensures forall k :: Live(tables[n], k, ops[n].now) <==> k in IdealLive(cfg, ops[..n], ops[n].now)
  {
    hide OpStep, Agree, CallsFor, Ideal, IdealLive, Evicts, Live;
    forall k ensures Live(tables[n], k, ops[n].now) <==> k in IdealLive(cfg, ops[..n], ops[n].now) {
      KeyAgrees(cfg, ops, tables, answers, k, n, ops[n].now);
      LiveMeansIdealLive(cfg, ops[..n], tables[n], k, ops[n].now);
    }
  }

  lemma CrowdEvicts(cfg: Config, m: Table, op: Op, next: Table, a: Answer, open: set<string>)
    requires cfg.maxEntries >= 1 && OpStep(cfg, m, op, next, a) && op.Allow? && op.key !in open
    requires (forall k :: Live(m, k, op.now) <==> k in open) && |open| >= cfg.maxEntries
    ensures exists k :: Evicts(m, op, next, k)
  {
    hide OpStep, Evicts;
    var others := m - {op.key};
    forall k | k in open ensures k in LiveOnly(others, op.now).Keys {
      assert Live(m, k, op.now);
    }
    Smaller(open, LiveOnly(others, op.now).Keys);
    EvictionIff(cfg, m, op, next, a);
  }

  /** A run evicts nobody exactly when its calls stay below capacity, which the calls alone decide. */
  lemma NoEvictionIffBelowCapacity(cfg: Config, ops: seq<Op>, tables: seq<Table>, answers: seq<Answer>)
    requires cfg.maxEntries >= 1 && IsRun(cfg, ops, tables, answers) && ClockRises(ops)
    ensures (forall i | 0 <= i < |ops| :: EvictsNone(tables[i], ops[i], tables[i + 1])) <==> BelowCapacity(cfg, ops)
  {
    hide OpStep, IdealLive, Evicts, Live, ClockRises, CallsFor;
    if BelowCapacity(cfg, ops) {
      forall i | 0 <= i < |ops| ensures EvictsNone(tables[i], ops[i], tables[i + 1]) {
        var m, op, next := tables[i], ops[i], tables[i + 1];
        forall k ensures !Evicts(m, op, next, k) {
          NoEvictionBelowCapacity(cfg, ops, tables, answers, i, k);
        }
      }
    }
    if forall i | 0 <= i < |ops| :: EvictsNone(tables[i], ops[i], tables[i + 1]) {
      forall n | 0 <= n < |ops| && ops[n].Allow? && ops[n].key !in IdealLive(cfg, ops[..n], ops[n].now)
        ensures |IdealLive(cfg, ops[..n], ops[n].now)| < cfg.maxEntries
      {
        LiveAmongIdeal(cfg, ops, tables, answers, n);
        if |IdealLive(cfg, ops[..n], ops[n].now)| >= cfg.maxEntries {
          CrowdEvicts(cfg, tables[n], ops[n], tables[n + 1], answers[n], IdealLive(cfg, ops[..n], ops[n].now));
        }
      }
    }
  }

  lemma LiveAreKeys(m: Table, now: int)
    ensures forall k | k in LiveOnly(m, now).Keys :: Live(m, k, now)
  {
  }

  /** Refinement: on a rising clock and below capacity, every answer is the unbounded limiter's. */
  lemma BelowCapacityIsIdeal(cfg: Config, ops: seq<Op>, tables: seq<Table>, answers: seq<Answer>)
    requires IsRun(cfg, ops, tables, answers) && ClockRises(ops) && BelowCapacity(cfg, ops)
    ensures forall n | 0 <= n < |ops| :: answers[n] == IdealOpAnswer(cfg, ops, n)
  {
    hide OpStep, ClockRises, BelowCapacity, Evicts, IdealOpAnswer;
    forall n | 0 <= n < |ops| ensures answers[n] == IdealOpAnswer(cfg, ops, n) {
      forall i | 0 <= i < n ensures !Evicts(tables[i], ops[i], tables[i + 1], ops[n].key) {
        NoEvictionBelowCapacity(cfg, ops, tables, answers, i, ops[n].key);
      }
      KeySeesIdeal(cfg, ops, tables, answers, n);
    }
  }
}
