/** The fixed-window limiter's bounded table, and what it promises a key. */
module RateLimiter {
  datatype Config = Config(limit: int, window: int, maxEntries: int)

  datatype Entry = Entry(count: int, reset: int)

  /** Keyed by digests, which are never empty. */
  type Table = map<string, Entry>

  datatype Answer = Answer(yes: bool, retry: int)

  predicate Live(m: Table, key: string, now: int) {
    key in m && now < m[key].reset
  }

  function LiveOnly(m: Table, now: int): Table {
    map k | k in m && now < m[k].reset :: m[k]
  }

  /** Room for a new key: untouched below capacity, else cleared of expired entries, else short one soonest to expire. */
  ghost predicate MadeRoom(cfg: Config, m: Table, now: int, kept: Table) {
    var live := LiveOnly(m, now);
    if |m| < cfg.maxEntries then kept == m
    else if |live| < cfg.maxEntries || live == map[] then kept == live
    else exists victim | victim in live ::
      kept == live - {victim} && forall k | k in live :: live[victim].reset <= live[k].reset
  }

  /** One call of allow. Which of several entries expiring together makes room is left open, as map order leaves it. */
  ghost predicate AllowStep(cfg: Config, m: Table, key: string, now: int, next: Table, a: Answer) {
    if Live(m, key, now) then
      if m[key].count >= cfg.limit then a == Answer(false, m[key].reset - now) && next == m
      else a == Answer(true, 0) && next == m[key := Entry(m[key].count + 1, m[key].reset)]
    else
      && a == Answer(true, 0)
      && exists kept :: MadeRoom(cfg, m - {key}, now, kept) && next == kept[key := Entry(1, now + cfg.window)]
  }

  function BlockedAnswer(cfg: Config, m: Table, key: string, now: int): Answer {
    if Live(m, key, now) && m[key].count >= cfg.limit then Answer(true, m[key].reset - now) else Answer(false, 0)
  }

  // ----- The limiter as an object -----

  /** The purge part way through its walk. */
  function PartlyPurged(m: Table, now: int, visited: set<string>): Table {
    map k | k in m && (k !in visited || now < m[k].reset) :: m[k]
  }

  lemma PurgeEnds(m: Table, now: int)
    ensures PartlyPurged(m, now, {}) == m
    ensures PartlyPurged(m, now, m.Keys) == LiveOnly(m, now)
  {
  }

  lemma PurgeOne(m: Table, now: int, visited: set<string>, k: string)
    requires k in m && k !in visited
    ensures var part, next := PartlyPurged(m, now, visited), PartlyPurged(m, now, visited + {k});
            k in part && part[k] == m[k] && next == if now < m[k].reset then part else part - {k}
  {
  }

  /** oldest is the live visited key expiring soonest, or empty when no live key has been visited. */
  predicate SoonestVisited(m: Table, now: int, visited: set<string>, oldest: string, oldestReset: int) {
    && (oldest != "" ==> oldest in m && oldest in visited && now < m[oldest].reset && m[oldest].reset == oldestReset)
    && (forall k | k in m && k in visited && now < m[k].reset :: oldest != "" && oldestReset <= m[k].reset)
  }

  lemma SpendOrRefuse(cfg: Config, m: Table, key: string, now: int)
    requires Live(m, key, now)
    ensures if m[key].count >= cfg.limit then AllowStep(cfg, m, key, now, m, Answer(false, m[key].reset - now))
            else AllowStep(cfg, m, key, now, m[key := Entry(m[key].count + 1, m[key].reset)], Answer(true, 0))
  {
  }

  lemma Admit(cfg: Config, m: Table, key: string, now: int, kept: Table)
    requires !Live(m, key, now) && MadeRoom(cfg, m - {key}, now, kept)
    ensures AllowStep(cfg, m, key, now, kept[key := Entry(1, now + cfg.window)], Answer(true, 0))
  {
    hide MadeRoom;
  }

  class FixedWindowLimiter {
    const cfg: Config
    var entries: Table

    constructor (limit: int, window: int, maxEntries: int)
      ensures cfg == Config(limit, window, maxEntries) && entries == map[]
    {
      cfg := Config(limit, window, maxEntries);
      entries := map[];
    }

    /** Clears expired entries and, if the table is still full, drops one that expires soonest. */
    method MakeRoom(now: int)
      requires "" !in entries && |entries| >= cfg.maxEntries
      modifies `entries
      ensures MadeRoom(cfg, old(entries), now, entries)
    {
      hide PartlyPurged, LiveOnly;
      ghost var all := entries;
      PurgeEnds(all, now);
      var oldest, oldestReset := "", 0;
      var pending := entries.Keys;
      assert all.Keys - pending == {};
      while pending != {}
        invariant pending <= all.Keys && entries == PartlyPurged(all, now, all.Keys - pending)
        invariant SoonestVisited(all, now, all.Keys - pending, oldest, oldestReset)
        decreases pending
      {
        var candidate :| candidate in pending;
        PurgeOne(all, now, all.Keys - pending, candidate);
        assert all.Keys - (pending - {candidate}) == all.Keys - pending + {candidate};
        pending := pending - {candidate};
        var entry := entries[candidate];
        if now >= entry.reset {
          entries := entries - {candidate};
        } else if oldest == "" || entry.reset < oldestReset {
          oldest, oldestReset := candidate, entry.reset;
        }
      }
      assert all.Keys - pending == all.Keys;
      RoomByVictim(cfg, all, now, oldest, oldestReset);
      if |entries| >= cfg.maxEntries {
        entries := entries - {oldest};
      }
    }

    method Allow(key: string, now: int) returns (a: Answer)
      requires key != "" && "" !in entries
      modifies `entries
      ensures AllowStep(cfg, old(entries), key, now, entries, a) && "" !in entries
    {
      hide MadeRoom, AllowStep;
      ghost var before := entries;
      var known := key in entries;
      if known && now >= entries[key].reset {
        entries := entries - {key};
        known := false;
      }
      if known {
        var entry := entries[key];
        SpendOrRefuse(cfg, entries, key, now);
        if entry.count >= cfg.limit {
          return Answer(false, entry.reset - now);
        }
        entries := entries[key := Entry(entry.count + 1, entry.reset)];
        return Answer(true, 0);
      }
      ghost var others := entries;
      if |entries| >= cfg.maxEntries {
        MakeRoom(now);
      } else {
        RoomAlready(cfg, entries, now);
      }
      RoomKeepsEntries(cfg, others, now, entries);
      assert others == before - {key};
      Admit(cfg, before, key, now, entries);
      entries := entries[key := Entry(1, now + cfg.window)];
      return Answer(true, 0);
    }

    /** Answers without spending: the table is not touched. */
    method Blocked(key: string, now: int) returns (a: Answer)
      ensures a == BlockedAnswer(cfg, entries, key, now)
    {
      if key !in entries || now >= entries[key].reset {
        return Answer(false, 0);
      }
      if entries[key].count >= cfg.limit {
        return Answer(true, entries[key].reset - now);
      }
      return Answer(false, 0);
    }
  }

  lemma RoomAlready(cfg: Config, m: Table, now: int)
    requires |m| < cfg.maxEntries
    ensures MadeRoom(cfg, m, now, m)
  {
  }

  lemma RoomByVictim(cfg: Config, m: Table, now: int, oldest: string, oldestReset: int)
    requires "" !in m && |m| >= cfg.maxEntries && SoonestVisited(m, now, m.Keys, oldest, oldestReset)
    ensures var live := LiveOnly(m, now);
            MadeRoom(cfg, m, now, if |live| >= cfg.maxEntries then live - {oldest} else live)
  {
    var live := LiveOnly(m, now);
    if |live| >= cfg.maxEntries {
      if oldest == "" {
        assert forall k | k in live :: false;
        assert live == map[];
        assert live - {oldest} == live;
      } else {
        assert oldest in live;
      }
    }
  }

  /** Making room only ever takes entries away. */
  lemma RoomKeepsEntries(cfg: Config, m: Table, now: int, kept: Table)
    requires MadeRoom(cfg, m, now, kept)
    ensures forall k | k in kept :: k in m && kept[k] == m[k]
  {
  }
}
