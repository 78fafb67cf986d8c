/** Beyond capacity: an evicted key starts afresh, and further calls can always bring that to light. */
module RateLimiterCrowding {
  import opened RateLimiter
  import opened RateLimiterGuarantees
  import opened Wrappers

  lemma {:induction false} SoonestOf(m: Table) returns (victim: string)
    requires m != map[]
    ensures victim in m && forall k | k in m :: m[victim].reset <= m[k].reset
    decreases |m|
  {
    var k :| k in m;
    var rest := m - {k};
    MinusOne(m, k);
    if rest == map[] {
      assert forall j | j in m :: j == k || j in rest;
      victim := k;
    } else {
      var other := SoonestOf(rest);
      victim := if m[k].reset <= m[other].reset then k else other;
      assert forall j | j in m :: j == k || (j in rest && m[other].reset <= rest[j].reset);
    }
  }

  lemma RoomExists(cfg: Config, m: Table, now: int) returns (kept: Table)
    ensures MadeRoom(cfg, m, now, kept)
  {
    var live := LiveOnly(m, now);
    hide LiveOnly;
    if |m| < cfg.maxEntries {
      kept := m;
    } else if |live| < cfg.maxEntries || live == map[] {
      kept := live;
    } else {
      var victim := SoonestOf(live);
      kept := live - {victim};
    }
  }

  lemma StepExists(cfg: Config, m: Table, op: Op) returns (next: Table, a: Answer)
    ensures OpStep(cfg, m, op, next, a)
  {
    hide MadeRoom;
    if op.Blocked? {
      next, a := m, BlockedAnswer(cfg, m, op.key, op.now);
    } else if Live(m, op.key, op.now) {
      if m[op.key].count >= cfg.limit {
        next, a := m, Answer(false, m[op.key].reset - op.now);
      } else {
        next, a := m[op.key := Entry(m[op.key].count + 1, m[op.key].reset)], Answer(true, 0);
      }
    } else {
      var kept := RoomExists(cfg, m - {op.key}, op.now);
      next, a := kept[op.key := Entry(1, op.now + cfg.window)], Answer(true, 0);
    }
  }

  lemma RunGrows(cfg: Config, ops: seq<Op>, tables: seq<Table>, answers: seq<Answer>, op: Op, next: Table, a: Answer)
    requires IsRun(cfg, ops, tables, answers) && OpStep(cfg, tables[|ops|], op, next, a)
    ensures IsRun(cfg, ops + [op], tables + [next], answers + [a])
  {
    hide OpStep;
  }

  function Again(k: string, t: int, n: nat): seq<Op> {
    if n == 0 then [] else Again(k, t, n - 1) + [Allow(k, t)]
  }

  /** What calling for an evicted key again and again finds: a window of its own, counted from one. */
  predicate Restarted(cfg: Config, m: Table, k: string, t: int, n: nat) {
    if n == 0 then !Live(m, k, t) else Live(m, k, t) && m[k].count == n
  }

  lemma RestartStep(cfg: Config, m: Table, k: string, t: int, n: nat, next: Table, a: Answer)
    requires cfg.window >= 1 && n < cfg.limit && Restarted(cfg, m, k, t, n) && OpStep(cfg, m, Allow(k, t), next, a)
    ensures a.yes && Restarted(cfg, next, k, t, n + 1)
  {
    hide MadeRoom;
  }

  lemma {:induction false} CallAgain(cfg: Config, ops: seq<Op>, tables: seq<Table>, answers: seq<Answer>,
                                     k: string, t: int, n: nat)
    returns (moreTables: seq<Table>, moreAnswers: seq<Answer>)
    requires IsRun(cfg, ops, tables, answers) && !Live(tables[|ops|], k, t)
    requires cfg.window >= 1 && n <= cfg.limit
    ensures IsRun(cfg, ops + Again(k, t, n), tables + moreTables, answers + moreAnswers)
    ensures |moreTables| == |moreAnswers| == n
    ensures Restarted(cfg, (tables + moreTables)[|ops| + n], k, t, n)
    ensures n > 0 ==> moreAnswers[n - 1].yes
  {
    hide OpStep, Live;
    if n == 0 {
      moreTables, moreAnswers := [], [];
      assert ops + [] == ops && tables + [] == tables && answers + [] == answers;
    } else {
      moreTables, moreAnswers := CallAgain(cfg, ops, tables, answers, k, t, n - 1);
      var now := (tables + moreTables)[|ops| + n - 1];
      var next, a := StepExists(cfg, now, Allow(k, t));
      RestartStep(cfg, now, k, t, n - 1, next, a);
      RunGrows(cfg, ops + Again(k, t, n - 1), tables + moreTables, answers + moreAnswers, Allow(k, t), next, a);
      hide IsRun;
      assert ops + Again(k, t, n) == ops + Again(k, t, n - 1) + [Allow(k, t)];
      assert tables + (moreTables + [next]) == tables + moreTables + [next];
      assert answers + (moreAnswers + [a]) == answers + moreAnswers + [a];
      moreTables, moreAnswers := moreTables + [next], moreAnswers + [a];
    }
  }

  function Times(t: int, n: nat): (calls: seq<int>)
    ensures |calls| == n && forall i | 0 <= i < n :: calls[i] == t
  {
    if n == 0 then [] else Times(t, n - 1) + [t]
  }

  lemma OnceMore(calls: seq<int>, t: int, n: nat)
    ensures calls + Times(t, n + 1) == calls + Times(t, n) + [t]
    ensures calls + Times(t, 0) == calls
  {
  }

  /** The ideal limiter counts the calls on from where the key stood. */
  lemma {:induction false} IdealCountsOn(cfg: Config, calls: seq<int>, t: int, n: nat)
    requires Current(Ideal(cfg, calls), t) && Ideal(cfg, calls).value.count + n <= cfg.limit
    ensures var e := Ideal(cfg, calls).value;
            Ideal(cfg, calls + Times(t, n)) == Some(Entry(e.count + n, e.reset))
  {
    hide Ideal, Times;
    OnceMore(calls, t, if n > 0 then n - 1 else 0);
    if n > 0 {
      IdealCountsOn(cfg, calls, t, n - 1);
      IdealAppend(cfg, calls + Times(t, n - 1), t);
    }
  }

  lemma {:induction false} CallsAgain(ops: seq<Op>, k: string, t: int, n: nat)
    ensures CallsFor(ops + Again(k, t, n), k) == CallsFor(ops, k) + Times(t, n)
  {
    hide CallsFor;
    if n == 0 {
      assert ops + Again(k, t, n) == ops;
    } else {
      CallsAgain(ops, k, t, n - 1);
      assert ops + Again(k, t, n) == ops + Again(k, t, n - 1) + [Allow(k, t)];
      CallsAppend(ops + Again(k, t, n - 1), Allow(k, t), k);
    }
  }

  lemma IdealBeforeEviction(cfg: Config, ops: seq<Op>, tables: seq<Table>, answers: seq<Answer>, n: nat, k: string)
    requires IsRun(cfg, ops, tables, answers) && ClockRises(ops) && n + 1 == |ops|
    requires Evicts(tables[n], ops[n], tables[n + 1], k)
    requires forall i | 0 <= i < n :: !Evicts(tables[i], ops[i], tables[i + 1], k)
    ensures Ideal(cfg, CallsFor(ops, k)) == Some(tables[n][k]) && ops[n].now < tables[n][k].reset
  {
    hide OpStep, Ideal;
    KeyAgrees(cfg, ops, tables, answers, k, n, ops[n].now);
    assert Earlier(ops) == ops[..n];
    assert CallsFor(ops, k) == CallsFor(ops[..n], k) + [];
    assert CallsFor(ops, k) == CallsFor(ops[..n], k);
  }

  /**
   * An eviction can always be made to show: once a key is first evicted, calling for it as often as the ideal limiter
   * still allows and once more gets a yes where the ideal refuses, for every configuration.
   */
  lemma EvictionShows(cfg: Config, ops: seq<Op>, tables: seq<Table>, answers: seq<Answer>, n: nat, k: string)
    returns (calls: seq<Op>, moreTables: seq<Table>, moreAnswers: seq<Answer>)
    requires cfg.limit >= 1 && cfg.window >= 1 && cfg.maxEntries >= 1
    requires IsRun(cfg, ops, tables, answers) && ClockRises(ops) && n + 1 == |ops|
    requires Evicts(tables[n], ops[n], tables[n + 1], k)
    requires forall i | 0 <= i < n :: !Evicts(tables[i], ops[i], tables[i + 1], k)
    ensures 1 <= tables[n][k].count <= cfg.limit
    ensures calls == Again(k, ops[n].now, cfg.limit - tables[n][k].count + 1)
    ensures |calls| == |moreAnswers| == cfg.limit - tables[n][k].count + 1
    ensures IsRun(cfg, ops + calls, tables + moreTables, answers + moreAnswers)
    ensures moreAnswers[|calls| - 1].yes && !IdealOpAnswer(cfg, ops + calls, |ops| + |calls| - 1).yes
  {
    hide Ideal, CallsFor, IsRun, ClockRises, Again, IdealOpAnswer;
    RunLengths(cfg, ops, tables, answers);
    TableStaysBounded(cfg, ops, tables, answers, n);
    IdealBeforeEviction(cfg, ops, tables, answers, n, k);
    var left := cfg.limit - tables[n][k].count;
    calls := Again(k, ops[n].now, left + 1);
    AgainLength(k, ops[n].now, left + 1);
    moreTables, moreAnswers := CallAgain(cfg, ops, tables, answers, k, ops[n].now, left + 1);
    IdealRefusesAtLast(cfg, ops, k, ops[n].now, left, tables[n][k]);
  }

  lemma IdealRefusesAtLast(cfg: Config, ops: seq<Op>, k: string, t: int, left: nat, e: Entry)
    requires Ideal(cfg, CallsFor(ops, k)) == Some(e) && t < e.reset && e.count + left == cfg.limit
    ensures |Again(k, t, left + 1)| == left + 1
    ensures !IdealOpAnswer(cfg, ops + Again(k, t, left + 1), |ops| + left).yes
  {
    hide Ideal, CallsFor;
    AgainLength(k, t, left);
    AgainLength(k, t, left + 1);
    CallsAgain(ops, k, t, left);
    IdealCountsOn(cfg, CallsFor(ops, k), t, left);
    var all := ops + Again(k, t, left + 1);
    assert all == ops + Again(k, t, left) + [Allow(k, t)];
    assert all[..|ops| + left] == ops + Again(k, t, left);
  }

  lemma PrefixIsRun(cfg: Config, ops: seq<Op>, tables: seq<Table>, answers: seq<Answer>, n: nat)
    requires IsRun(cfg, ops, tables, answers) && n <= |ops|
    ensures IsRun(cfg, ops[..n], tables[..n + 1], answers[..n])
  {
    hide OpStep;
  }

  lemma {:induction false} FirstEviction(ops: seq<Op>, tables: seq<Table>, n: nat) returns (first: nat)
    requires n < |ops| && |tables| == |ops| + 1 && !EvictsNone(tables[n], ops[n], tables[n + 1])
    ensures first <= n && !EvictsNone(tables[first], ops[first], tables[first + 1])
    ensures forall i | 0 <= i < first :: EvictsNone(tables[i], ops[i], tables[i + 1])
    decreases n
  {
    hide EvictsNone;
    first := n;
    if i :| 0 <= i < n && !EvictsNone(tables[i], ops[i], tables[i + 1]) {
      first := FirstEviction(ops, tables, i);
    }
  }

  /**
   * Whenever calls do not stay below capacity, some beginning of them can be followed by calls that the bounded limiter
   * answers otherwise than the ideal one: below capacity is exactly where the two cannot be told apart.
   */
  lemma CrowdingShows(cfg: Config, ops: seq<Op>, tables: seq<Table>, answers: seq<Answer>)
    returns (n: nat, calls: seq<Op>, moreTables: seq<Table>, moreAnswers: seq<Answer>)
    requires cfg.limit >= 1 && cfg.window >= 1 && cfg.maxEntries >= 1
    requires IsRun(cfg, ops, tables, answers) && ClockRises(ops) && !BelowCapacity(cfg, ops)
    ensures 0 < n <= |ops| && calls != [] && |moreAnswers| == |calls|
    ensures IsRun(cfg, ops[..n] + calls, tables[..n + 1] + moreTables, answers[..n] + moreAnswers)
    ensures forall i | 0 <= i < |calls| :: calls[i].Allow? && calls[i].now == ops[n - 1].now
    ensures moreAnswers[|calls| - 1] != IdealOpAnswer(cfg, ops[..n] + calls, n + |calls| - 1)
  {
    hide IsRun, Evicts, BelowCapacity, IdealOpAnswer, EvictsNone, ClockRises, Again;
    NoEvictionIffBelowCapacity(cfg, ops, tables, answers);
    RunLengths(cfg, ops, tables, answers);
    var some :| 0 <= some < |ops| && !EvictsNone(tables[some], ops[some], tables[some + 1]);
    var first := FirstEviction(ops, tables, some);
    n := first + 1;
    var k := FirstEvicted(cfg, ops, tables, answers, first);
    calls, moreTables, moreAnswers := EvictionShows(cfg, ops[..n], tables[..n + 1], answers[..n], first, k);
    AgainCalls(k, ops[first].now, |calls|);
  }

  /** A beginning of a run that ends with its first eviction is such a run itself. */
  lemma FirstEvicted(cfg: Config, ops: seq<Op>, tables: seq<Table>, answers: seq<Answer>, first: nat) returns (k: string)
    requires IsRun(cfg, ops, tables, answers) && ClockRises(ops) && first < |ops|
    requires !EvictsNone(tables[first], ops[first], tables[first + 1])
    requires forall i | 0 <= i < first :: EvictsNone(tables[i], ops[i], tables[i + 1])
    ensures var before, kept := ops[..first + 1], tables[..first + 2];
            && IsRun(cfg, before, kept, answers[..first + 1]) && ClockRises(before)
            && Evicts(kept[first], before[first], kept[first + 1], k)
            && forall i | 0 <= i < first :: !Evicts(kept[i], before[i], kept[i + 1], k)
  {
    hide Evicts, EvictsNone, OpStep;
    PrefixIsRun(cfg, ops, tables, answers, first + 1);
    k := EvictedKey(tables[first], ops[first], tables[first + 1]);
    forall i | 0 <= i < first ensures !Evicts(tables[i], ops[i], tables[i + 1], k) {
      EvictsNobody(tables[i], ops[i], tables[i + 1], k);
    }
  }

  lemma EvictedKey(m: Table, op: Op, next: Table) returns (k: string)
    requires !EvictsNone(m, op, next)
    ensures Evicts(m, op, next, k)
  {
    k :| Evicts(m, op, next, k);
  }

  lemma EvictsNobody(m: Table, op: Op, next: Table, k: string)
    requires EvictsNone(m, op, next)
    ensures !Evicts(m, op, next, k)
  {
  }

  lemma {:induction false} AgainCalls(k: string, t: int, n: nat)
    ensures forall i | 0 <= i < |Again(k, t, n)| :: Again(k, t, n)[i] == Allow(k, t)
  {
    if n > 0 {
      AgainCalls(k, t, n - 1);
    }
  }

  lemma {:induction false} AgainLength(k: string, t: int, n: nat)
    ensures |Again(k, t, n)| == n
  {
    if n > 0 {
      AgainLength(k, t, n - 1);
    }
  }

  lemma CallsAppend(ops: seq<Op>, op: Op, key: string)
    ensures CallsFor(ops + [op], key) == CallsFor(ops, key) + if op.Allow? && op.key == key then [op.now] else []
  {
    assert Earlier(ops + [op]) == ops;
  }

  lemma IdealAppend(cfg: Config, calls: seq<int>, now: int)
    ensures Ideal(cfg, calls + [now]) == IdealAfter(cfg, Ideal(cfg, calls), now)
  {
    assert Earlier(calls + [now]) == calls;
  }

  lemma FirstKeyFits(cfg: Config, none: Table, one: Table)
    requires cfg == Config(1, 60, 1) && none == map[] && one == map["a" := Entry(1, 60)]
    ensures AllowStep(cfg, none, "a", 0, one, Answer(true, 0))
  {
    assert none - {"a"} == none;
    Admit(cfg, none, "a", 0, none);
  }

  lemma SecondKeyEvicts(cfg: Config, one: Table, other: Table)
    requires cfg == Config(1, 60, 1) && one == map["a" := Entry(1, 60)] && other == map["b" := Entry(1, 60)]
    ensures AllowStep(cfg, one, "b", 0, other, Answer(true, 0)) && Evicts(one, Allow("b", 0), other, "a")
  {
    assert one - {"b"} == one && one - {"a"} == map[] && LiveOnly(one, 0) == one && |one| == 1;
    assert "a" in LiveOnly(one, 0);
    assert MadeRoom(cfg, one, 0, map[]);
    Admit(cfg, one, "b", 0, map[]);
  }

  lemma TwoKeysRun() returns (tables: seq<Table>, answers: seq<Answer>)
    ensures var cfg, ops := Config(1, 60, 1), [Allow("a", 0), Allow("b", 0)];
            IsRun(cfg, ops, tables, answers) && Evicts(tables[1], ops[1], tables[2], "a") && tables[1]["a"].count == 1
            && !Evicts(tables[0], ops[0], tables[1], "a")
  {
    var cfg := Config(1, 60, 1);
    var none: Table, one: Table, other: Table := map[], map["a" := Entry(1, 60)], map["b" := Entry(1, 60)];
    FirstKeyFits(cfg, none, one);
    SecondKeyEvicts(cfg, one, other);
    hide AllowStep;
    tables, answers := [none, one, other], [Answer(true, 0), Answer(true, 0)];
  }

  /** Such a run: one key fits, a second pushes it out, and the first gets a fresh budget the ideal limiter would refuse. */
  lemma EvictionForgives() returns (ops: seq<Op>, tables: seq<Table>, answers: seq<Answer>)
    ensures var cfg := Config(1, 60, 1);
            && IsRun(cfg, ops, tables, answers) && ops == [Allow("a", 0), Allow("b", 0), Allow("a", 0)]
            && answers[2].yes && !IdealOpAnswer(cfg, ops, 2).yes
  {
    var cfg, before := Config(1, 60, 1), [Allow("a", 0), Allow("b", 0)];
    hide IsRun, Evicts, IdealOpAnswer;
    var someTables, someAnswers := TwoKeysRun();
    assert |someTables| == 3 && |someAnswers| == 2 by {
      RunLengths(cfg, before, someTables, someAnswers);
    }
    var calls, moreTables, moreAnswers := EvictionShows(cfg, before, someTables, someAnswers, 1, "a");
    ops, tables, answers := before + calls, someTables + moreTables, someAnswers + moreAnswers;
    assert calls == Again("a", 0, 0) + [Allow("a", 0)];
  }

  lemma RunLengths(cfg: Config, ops: seq<Op>, tables: seq<Table>, answers: seq<Answer>)
    requires IsRun(cfg, ops, tables, answers)
    ensures |tables| == |ops| + 1 && |answers| == |ops|
  {
  }
}
