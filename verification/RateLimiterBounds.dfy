/** What a key may count on: how long a refusal lasts, and how many calls any interval can see allowed. */
module RateLimiterBounds {
  import opened RateLimiter
  import opened RateLimiterGuarantees
  import opened RateLimiterCrowding
  import opened Wrappers

  // ----- blocked agrees with allow, and refusals last exactly as long as they say -----

  /** blocked says now exactly what allow would answer next, with the same wait. */
  lemma BlockedForetellsAllow(cfg: Config, m: Table, key: string, now: int, next: Table, a: Answer)
    requires AllowStep(cfg, m, key, now, next, a)
    ensures BlockedAnswer(cfg, m, key, now) == Answer(!a.yes, a.retry)
  {
    hide MadeRoom;
  }

  lemma {:induction false} RefusedStays(cfg: Config, calls: seq<int>, more: seq<int>)
    requires Ideal(cfg, calls).Some? && Ideal(cfg, calls).value.count >= cfg.limit
    requires forall i | 0 <= i < |more| :: more[i] < Ideal(cfg, calls).value.reset
    ensures Ideal(cfg, calls + more) == Ideal(cfg, calls)
  {
    if more == [] {
      assert calls + more == calls;
    } else {
      assert Earlier(calls + more) == calls + Earlier(more);
      RefusedStays(cfg, calls, Earlier(more));
    }
  }

  /** A refusal holds, whatever further calls are made, until the time it gave, and not a moment longer. */
  lemma RefusalHoldsUntilRetry(cfg: Config, calls: seq<int>, now: int, more: seq<int>, later: int)
    requires !IdealAnswer(cfg, Ideal(cfg, calls), now).yes
    requires var until := now + IdealAnswer(cfg, Ideal(cfg, calls), now).retry;
             forall i | 0 <= i < |more| :: more[i] < until
    ensures var until := now + IdealAnswer(cfg, Ideal(cfg, calls), now).retry;
            IdealAnswer(cfg, Ideal(cfg, calls + more), later)
            == if later < until then Answer(false, until - later) else Answer(true, 0)
  {
    hide Ideal;
    RefusedStays(cfg, calls, more);
  }

  predicate Spent(cfg: Config, m: Table, key: string, now: int, reset: int) {
    Live(m, key, now) && m[key].count >= cfg.limit && m[key].reset == reset
  }

  lemma SpentStep(cfg: Config, m: Table, op: Op, next: Table, a: Answer, key: string, reset: int)
    requires OpStep(cfg, m, op, next, a) && Spent(cfg, m, key, op.now, reset) && !Evicts(m, op, next, key)
    ensures Spent(cfg, next, key, op.now, reset)
  {
    hide MadeRoom;
    if op.Allow? && op.key != key && !Live(m, op.key, op.now) {
      var kept :| MadeRoom(cfg, m - {op.key}, op.now, kept)
                  && next == kept[op.key := Entry(1, op.now + cfg.window)];
      RoomKeepsEntries(cfg, m - {op.key}, op.now, kept);
    }
  }

  /** The key is spent until its reset, or its window has run out and no later one has begun. */
  predicate SpentOrOver(cfg: Config, m: Table, key: string, now: int, reset: int) {
    if now < reset then Spent(cfg, m, key, now, reset) else !Live(m, key, now)
  }

  lemma OverStep(cfg: Config, m: Table, op: Op, next: Table, a: Answer, key: string, reset: int, later: int)
    requires OpStep(cfg, m, op, next, a) && SpentOrOver(cfg, m, key, op.now, reset) && !Evicts(m, op, next, key)
    requires op.now <= later && (op.Allow? && op.key == key ==> op.now < reset)
    ensures SpentOrOver(cfg, next, key, later, reset)
  {
    hide MadeRoom;
    if op.now < reset {
      SpentStep(cfg, m, op, next, a, key, reset);
    } else {
      if op.Allow? && !Live(m, op.key, op.now) {
        var kept :| MadeRoom(cfg, m - {op.key}, op.now, kept)
                    && next == kept[op.key := Entry(1, op.now + cfg.window)];
        RoomKeepsEntries(cfg, m - {op.key}, op.now, kept);
      }
    }
  }

  lemma {:induction false} StaysSpent(cfg: Config, ops: seq<Op>, tables: seq<Table>, answers: seq<Answer>,
                                      i: nat, n: nat, key: string, reset: int, now: int)
    requires IsRun(cfg, ops, tables, answers) && ClockRises(ops) && i < n <= |ops|
    requires Spent(cfg, tables[i], key, ops[i].now, reset) && ops[n - 1].now <= now
    requires forall j | i <= j < n :: !Evicts(tables[j], ops[j], tables[j + 1], key)
    requires forall j | i <= j < n && ops[j].Allow? && ops[j].key == key :: ops[j].now < reset
    ensures SpentOrOver(cfg, tables[n], key, now, reset)
    decreases n
  {
    hide OpStep, Evicts, SpentOrOver;
    if n == i + 1 {
      SpentIsSpent(cfg, tables[i], key, ops[i].now, reset);
    } else {
      StaysSpent(cfg, ops, tables, answers, i, n - 1, key, reset, ops[n - 1].now);
    }
    OverStep(cfg, tables[n - 1], ops[n - 1], tables[n], answers[n - 1], key, reset, now);
  }

  lemma SpentIsSpent(cfg: Config, m: Table, key: string, now: int, reset: int)
    requires Spent(cfg, m, key, now, reset)
    ensures SpentOrOver(cfg, m, key, now, reset)
  {
  }

  predicate Refuses(op: Op, a: Answer) {
    if op.Allow? then !a.yes else a.yes
  }

  lemma RefusedMeansSpent(cfg: Config, m: Table, op: Op, next: Table, a: Answer)
    requires OpStep(cfg, m, op, next, a)
    ensures Refuses(op, a) ==> Spent(cfg, m, op.key, op.now, op.now + a.retry)
    ensures forall reset | SpentOrOver(cfg, m, op.key, op.now, reset) ::
              if op.now < reset then Refuses(op, a) && a.retry == reset - op.now else !Refuses(op, a) && a.retry == 0
  {
    hide MadeRoom;
  }

  /**
   * In a run of the bounded limiter, a key refused and not evicted since is refused, by allow and blocked alike, up to
   * exactly the time it was given, with the time still left; the first call from then on is let through.
   */
  lemma RefusalHoldsInRuns(cfg: Config, ops: seq<Op>, tables: seq<Table>, answers: seq<Answer>, i: nat, n: nat)
    requires IsRun(cfg, ops, tables, answers) && ClockRises(ops) && i < n < |ops| && ops[i].key == ops[n].key
    requires Refuses(ops[i], answers[i])
    requires forall j | i <= j < n :: !Evicts(tables[j], ops[j], tables[j + 1], ops[i].key)
    requires forall j | i <= j < n && ops[j].Allow? && ops[j].key == ops[i].key :: ops[j].now < ops[i].now + answers[i].retry
    ensures var until := ops[i].now + answers[i].retry;
            if ops[n].now < until then Refuses(ops[n], answers[n]) && answers[n].retry == until - ops[n].now
            else !Refuses(ops[n], answers[n]) && answers[n].retry == 0
  {
    hide OpStep, Evicts, Spent, SpentOrOver, Refuses;
    RefusedMeansSpent(cfg, tables[i], ops[i], tables[i + 1], answers[i]);
    StaysSpent(cfg, ops, tables, answers, i, n, ops[i].key, ops[i].now + answers[i].retry, ops[n].now);
    RefusedMeansSpent(cfg, tables[n], ops[n], tables[n + 1], answers[n]);
  }

  // ----- The bound on any sliding interval -----

  function Allowed(cfg: Config, calls: seq<int>, lo: int, hi: int): nat {
    if calls == [] then 0
    else
      var now := calls[|calls| - 1];
      Allowed(cfg, Earlier(calls), lo, hi)
      + if lo <= now < hi && IdealAnswer(cfg, Ideal(cfg, Earlier(calls)), now).yes then 1 else 0
  }

  /** Allowed calls in the interval one window long that begins at lo. */
  function AllowedFrom(cfg: Config, calls: seq<int>, lo: int): nat {
    Allowed(cfg, calls, lo, lo + cfg.window)
  }

  predicate Rising(calls: seq<int>) {
    forall i, j | 0 <= i <= j < |calls| :: calls[i] <= calls[j]
  }

  /** Within the current window all but its first call count; reaching less than a window further back adds all but the first of the one before. */
  predicate WindowBound(cfg: Config, calls: seq<int>, e: Entry, lo: int, hi: int) {
    var start := e.reset - cfg.window;
    && 1 <= e.count <= cfg.limit
    && (start < lo ==> Allowed(cfg, calls, lo, hi) <= e.count - 1)
    && (start - cfg.window < lo <= start ==> Allowed(cfg, calls, lo, hi) <= cfg.limit - 1 + e.count)
  }

  lemma {:induction false} NothingAllowedYet(cfg: Config, calls: seq<int>, lo: int, hi: int)
    requires forall i | 0 <= i < |calls| :: calls[i] < lo
    ensures Allowed(cfg, calls, lo, hi) == 0
  {
    hide Ideal;
    if calls != [] {
      NothingAllowedYet(cfg, Earlier(calls), lo, hi);
    }
  }

  lemma {:induction false} WindowsBound(cfg: Config, calls: seq<int>, lo: int, hi: int)
    requires cfg.limit >= 1 && cfg.window > 0 && calls != [] && Rising(calls)
    ensures Ideal(cfg, calls).Some?
    ensures Ideal(cfg, calls).value.reset - cfg.window <= calls[|calls| - 1]
    ensures WindowBound(cfg, calls, Ideal(cfg, calls).value, lo, hi)
  {
    var before, now := Earlier(calls), calls[|calls| - 1];
    if before == [] {
      assert Ideal(cfg, before) == None;
      assert Allowed(cfg, before, lo, hi) == 0;
    } else {
      assert Rising(before);
      assert before[|before| - 1] <= now;
      WindowsBound(cfg, before, lo, hi);
      if now < lo {
        NothingAllowedYet(cfg, before, lo, hi);
      }
    }
  }

  /** Any interval one window long sees at most twice the limit, less one, of a key's calls allowed. */
  lemma {:induction false} SlidingBound(cfg: Config, calls: seq<int>, lo: int)
    requires cfg.limit >= 1 && cfg.window > 0 && Rising(calls)
    ensures AllowedFrom(cfg, calls, lo) <= 2 * cfg.limit - 1
  {
    hide WindowBound, Ideal;
    if calls != [] {
      var now := calls[|calls| - 1];
      if now < lo + cfg.window {
        WindowsBound(cfg, calls, lo, lo + cfg.window);
        BoundFromWindow(cfg, calls, Ideal(cfg, calls).value, lo, lo + cfg.window);
      } else {
        assert Rising(Earlier(calls));
        SlidingBound(cfg, Earlier(calls), lo);
      }
    }
  }

  lemma BoundFromWindow(cfg: Config, calls: seq<int>, e: Entry, lo: int, hi: int)
    requires WindowBound(cfg, calls, e, lo, hi) && e.reset - 2 * cfg.window < lo
    ensures Allowed(cfg, calls, lo, hi) <= 2 * cfg.limit - 1
  {
  }

  /** The bounded limiter's own count of a key's allowed calls in an interval. */
  function AllowedInRun(ops: seq<Op>, answers: seq<Answer>, key: string, lo: int, hi: int): nat
    requires |answers| >= |ops|
  {
    if ops == [] then 0
    else
      var op := ops[|ops| - 1];
      AllowedInRun(Earlier(ops), answers, key, lo, hi)
      + if op.Allow? && op.key == key && answers[|ops| - 1].yes && lo <= op.now < hi then 1 else 0
  }

  lemma {:induction false} CallsRise(ops: seq<Op>, key: string)
    requires ClockRises(ops)
    ensures Rising(CallsFor(ops, key))
    ensures forall i | 0 <= i < |CallsFor(ops, key)| :: ops != [] && CallsFor(ops, key)[i] <= ops[|ops| - 1].now
  {
    if ops != [] {
      assert ClockRises(Earlier(ops));
      CallsRise(Earlier(ops), key);
    }
  }

  lemma AllowedAppend(cfg: Config, calls: seq<int>, now: int, lo: int, hi: int)
    ensures Allowed(cfg, calls + [now], lo, hi) ==
            Allowed(cfg, calls, lo, hi) + if lo <= now < hi && IdealAnswer(cfg, Ideal(cfg, calls), now).yes then 1 else 0
  {
    hide Ideal, IdealAnswer;
    assert Earlier(calls + [now]) == calls;
  }

  lemma {:induction false} RunCountsAsIdeal(cfg: Config, ops: seq<Op>, tables: seq<Table>, answers: seq<Answer>,
                                            key: string, n: nat, lo: int, hi: int)
    requires IsRun(cfg, ops, tables, answers) && ClockRises(ops) && n <= |ops|
    requires forall i | 0 <= i < |ops| :: !Evicts(tables[i], ops[i], tables[i + 1], key)
    ensures AllowedInRun(ops[..n], answers, key, lo, hi) == Allowed(cfg, CallsFor(ops[..n], key), lo, hi)
  {
    hide OpStep, Evicts, Ideal, Allowed, CallsFor, IdealAnswer;
    if n == 0 {
      NoCallsYet(cfg, key, lo, hi);
      assert ops[..0] == [];
    } else {
      var before, op := ops[..n - 1], ops[n - 1];
      RunCountsAsIdeal(cfg, ops, tables, answers, key, n - 1, lo, hi);
      assert ops[..n] == before + [op];
      assert Earlier(ops[..n]) == before;
      CallsAppend(before, op, key);
      assert CallsFor(before, key) + [] == CallsFor(before, key);
      if op.Allow? && op.key == key {
        KeySeesIdeal(cfg, ops, tables, answers, n - 1);
        AllowedAppend(cfg, CallsFor(before, key), op.now, lo, hi);
      }
    }
  }

  lemma NoCallsYet(cfg: Config, key: string, lo: int, hi: int)
    ensures Allowed(cfg, CallsFor([], key), lo, hi) == 0
  {
  }

  /** The same bound for the bounded limiter, for any key that is never evicted. */
  lemma SlidingBoundInRuns(cfg: Config, ops: seq<Op>, tables: seq<Table>, answers: seq<Answer>, key: string, lo: int)
    requires cfg.limit >= 1 && cfg.window > 0
    requires IsRun(cfg, ops, tables, answers) && ClockRises(ops)
    requires forall i | 0 <= i < |ops| :: !Evicts(tables[i], ops[i], tables[i + 1], key)
    ensures AllowedInRun(ops, answers, key, lo, lo + cfg.window) <= 2 * cfg.limit - 1
  {
    hide OpStep, Evicts, AllowedInRun, Allowed, CallsFor;
    CallsRise(ops, key);
    RunCountsAsIdeal(cfg, ops, tables, answers, key, |ops|, lo, lo + cfg.window);
    assert ops[..|ops|] == ops;
    SlidingBound(cfg, CallsFor(ops, key), lo);
  }

  /** Filling a window: each further call in it is allowed and counted. */
  lemma {:induction false} FillWindow(cfg: Config, calls: seq<int>, t: int, n: nat, lo: int, hi: int)
    requires Current(Ideal(cfg, calls), t) && Ideal(cfg, calls).value.count + n <= cfg.limit && lo <= t < hi
    ensures Allowed(cfg, calls + Times(t, n), lo, hi) == Allowed(cfg, calls, lo, hi) + n
  {
    hide Ideal, Times, Allowed;
    OnceMore(calls, t, if n > 0 then n - 1 else 0);
    if n > 0 {
      FillWindow(cfg, calls, t, n - 1, lo, hi);
      IdealCountsOn(cfg, calls, t, n - 1);
      AllowedAppend(cfg, calls + Times(t, n - 1), t, lo, hi);
    }
  }

  /** A call that begins a window, the rest of the limit at the window's last moment, and a full window right after. */
  function Burst(cfg: Config): seq<int>
    requires cfg.limit >= 1
  {
    [0] + Times(cfg.window - 1, cfg.limit - 1) + [cfg.window] + Times(cfg.window, cfg.limit - 1)
  }

  lemma BurstMeetsBound(cfg: Config)
    requires cfg.limit >= 1 && cfg.window >= 2
    ensures Rising(Burst(cfg)) && Allowed(cfg, Burst(cfg), 1, 1 + cfg.window) == 2 * cfg.limit - 1
  {
    hide IdealAfter, IdealAnswer, Ideal, Allowed;
    var w, rest := cfg.window, cfg.limit - 1;
    OneCall(cfg, 1, 1 + w);
    IdealCountsOn(cfg, [0], w - 1, rest);
    FillWindow(cfg, [0], w - 1, rest, 1, 1 + w);
    var filled := [0] + Times(w - 1, rest);
    IdealAppend(cfg, filled, w);
    AllowedAppend(cfg, filled, w, 1, 1 + w);
    NewWindow(cfg, Ideal(cfg, filled), w);
    FillWindow(cfg, filled + [w], w, rest, 1, 1 + w);
  }

  lemma OneCall(cfg: Config, lo: int, hi: int)
    requires 0 < lo
    ensures Ideal(cfg, [0]) == Some(Entry(1, cfg.window)) && Allowed(cfg, [0], lo, hi) == 0
  {
    assert Earlier([0]) == [];
  }

  lemma NewWindow(cfg: Config, e: Option<Entry>, now: int)
    requires !Current(e, now)
    ensures IdealAfter(cfg, e, now) == Some(Entry(1, now + cfg.window)) && IdealAnswer(cfg, e, now).yes
  {
  }

  /** With a window of a single tick every window is one moment, so no moment sees more than the limit. */
  lemma {:induction false} OneTickWindow(cfg: Config, calls: seq<int>, lo: int)
    requires cfg.limit >= 1 && cfg.window == 1 && Rising(calls)
    ensures Allowed(cfg, calls, lo, lo + 1) <= cfg.limit
    ensures calls != [] ==>
              && Ideal(cfg, calls).Some? && Ideal(cfg, calls).value.reset == calls[|calls| - 1] + 1
              && (lo == calls[|calls| - 1] ==> Allowed(cfg, calls, lo, lo + 1) <= Ideal(cfg, calls).value.count <= cfg.limit)
              && (lo > calls[|calls| - 1] ==> Allowed(cfg, calls, lo, lo + 1) == 0)
  {
    if calls != [] {
      var before, now := Earlier(calls), calls[|calls| - 1];
      assert Rising(before);
      OneTickWindow(cfg, before, lo);
      if before == [] {
        assert Ideal(cfg, before) == None && Allowed(cfg, before, lo, lo + 1) == 0;
      } else {
        assert before[|before| - 1] <= now;
      }
    }
  }

  lemma SingleCallMeetsBound(cfg: Config)
    requires cfg.limit == 1
    ensures Rising([0]) && Allowed(cfg, [0], 0, cfg.window) == if cfg.window > 0 then 1 else 0
  {
    assert Earlier([0]) == [];
    assert Allowed(cfg, [], 0, cfg.window) == 0 && Ideal(cfg, []) == None;
  }

  /** The bound is met for every limit and window, but for a window of one tick with a limit above one. */
  lemma SlidingBoundIsTight(cfg: Config)
    requires cfg.limit >= 1 && cfg.window >= 1
    ensures (exists calls, lo :: Rising(calls) && AllowedFrom(cfg, calls, lo) == 2 * cfg.limit - 1)
            <==> cfg.window >= 2 || cfg.limit == 1
  {
    hide Allowed, Rising, Burst;
    if cfg.window >= 2 {
      BurstMeetsBound(cfg);
      assert AllowedFrom(cfg, Burst(cfg), 1) == 2 * cfg.limit - 1;
    } else if cfg.limit == 1 {
      SingleCallMeetsBound(cfg);
      assert AllowedFrom(cfg, [0], 0) == 2 * cfg.limit - 1;
    } else {
      forall calls, lo | Rising(calls) ensures AllowedFrom(cfg, calls, lo) <= cfg.limit {
        OneTickWindow(cfg, calls, lo);
      }
    }
  }
}
