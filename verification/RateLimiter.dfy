/** The fixed-window rate limiter (server/middleware/rateLimit.js): a table of per-key counters
    that is swept of stale keys from time to time. Size-based eviction is switched off. */
module RateLimiter {

  type Key = string

  datatype Config = Config(windowMs: nat, max: nat, cleanupIntervalMs: int, staleAfterMs: nat)

  datatype Entry = Entry(count: nat, resetAt: int, lastSeenAt: int)

  datatype Request = Request(now: int, key: Key)

  /** Everything the response depends on: the verdict and the header values. */
  datatype Reply = Reply(allowed: bool, remaining: nat, resetSeconds: int, retryAfterSeconds: int)

  datatype Limiter = Limiter(hits: map<Key, Entry>, lastCleanupAt: int)

  function CeilSeconds(ms: int): int {
    -((-ms) / 1000)
  }

  /** The entry after one more request at `now`; `None` stands for a key not in the table. */
  function Touch(cfg: Config, hits: map<Key, Entry>, r: Request): Entry {
    if r.key in hits && r.now <= hits[r.key].resetAt then
      Entry(hits[r.key].count + 1, hits[r.key].resetAt, r.now)
    else
      Entry(1, r.now + cfg.windowMs, r.now)
  }

  function ReplyTo(cfg: Config, e: Entry, now: int): Reply {
    Reply(e.count <= cfg.max,
          if e.count <= cfg.max then cfg.max - e.count else 0,
          CeilSeconds(e.resetAt),
          if CeilSeconds(e.resetAt - now) >= 1 then CeilSeconds(e.resetAt - now) else 1)
  }

  /** The keys that survive a sweep at `now`. */
  function Swept(cfg: Config, hits: map<Key, Entry>, now: int): map<Key, Entry> {
    map k | k in hits && now - hits[k].lastSeenAt <= cfg.staleAfterMs :: hits[k]
  }

  predicate CleanupDue(cfg: Config, lastCleanupAt: int, now: int) {
    cfg.cleanupIntervalMs > 0 && now - lastCleanupAt >= cfg.cleanupIntervalMs
  }

  /** One request against the limiter as written. */
  function Step(cfg: Config, l: Limiter, r: Request): Limiter {
    var l := if CleanupDue(cfg, l.lastCleanupAt, r.now)
             then Limiter(Swept(cfg, l.hits, r.now), r.now) else l;
    l.(hits := l.hits[r.key := Touch(cfg, l.hits, r)])
  }

  /** One request against the limiter that never forgets a key. */
  function StepKeeping(cfg: Config, hits: map<Key, Entry>, r: Request): map<Key, Entry> {
    hits[r.key := Touch(cfg, hits, r)]
  }

  /** Rounding up to whole seconds. */
  lemma CeilIs(ms: int)
    ensures (CeilSeconds(ms) - 1) * 1000 < ms <= CeilSeconds(ms) * 1000
  {
  }

  /** What a request is told: it passes if its window has seen no more than the maximum, this one included; how
      many more may pass; when the window ends, rounded up; and to retry then, but not at once. */
  lemma ReplyIs(cfg: Config, e: Entry, now: int)
    ensures var r := ReplyTo(cfg, e, now);
            && (r.allowed <==> e.count <= cfg.max)
            && (r.allowed ==> r.remaining + e.count == cfg.max) && (!r.allowed ==> r.remaining == 0)
            && (r.resetSeconds - 1) * 1000 < e.resetAt <= r.resetSeconds * 1000
            && r.retryAfterSeconds >= 1 && now + r.retryAfterSeconds * 1000 >= e.resetAt
            && (r.retryAfterSeconds > 1 ==> now + (r.retryAfterSeconds - 1) * 1000 < e.resetAt)
  {
    CeilIs(e.resetAt);
    CeilIs(e.resetAt - now);
  }

  /** A window is opened by the first request of a key, and by the first after the end of its last one; any
      other request is counted in the window that is running, its end included. */
  lemma WindowOpensIff(cfg: Config, hits: map<Key, Entry>, r: Request)
    ensures var e := Touch(cfg, hits, r);
            && e.lastSeenAt == r.now
            && if r.key !in hits || r.now > hits[r.key].resetAt then e.count == 1 && e.resetAt == r.now + cfg.windowMs
               else e.count == hits[r.key].count + 1 && e.resetAt == hits[r.key].resetAt
  {
  }

  /** The closure returned by createRateLimiter, with its captured variables as fields. */
  class RateLimiter {
    const cfg: Config
    var hits: map<Key, Entry>
    var lastCleanupAt: int

    ghost function State(): Limiter
      reads this
    {
      Limiter(hits, lastCleanupAt)
    }

    constructor (cfg: Config, now: int)
      ensures this.cfg == cfg && State() == Limiter(map[], now)
    {
      this.cfg := cfg;
      hits := map[];
      lastCleanupAt := now;
    }

    method Cleanup(now: int)
      modifies this`hits
      ensures hits == Swept(cfg, old(hits), now)
    {
      var todo := hits.Keys;
      while todo != {}
        invariant todo <= hits.Keys <= old(hits).Keys
        invariant forall k :: k in hits ==> hits[k] == old(hits)[k]
        invariant forall k :: k in old(hits).Keys - todo ==>
                    (k in hits <==> now - old(hits)[k].lastSeenAt <= cfg.staleAfterMs)
        decreases todo
      {
        var key :| key in todo;
        if now - hits[key].lastSeenAt > cfg.staleAfterMs {
          hits := hits - {key};
        }
        todo := todo - {key};
      }
    }

    method Handle(now: int, key: Key) returns (reply: Reply)
      modifies this
      ensures State() == Step(cfg, old(State()), Request(now, key))
      ensures reply == ReplyTo(cfg, hits[key], now)
    {
      if cfg.cleanupIntervalMs > 0 && now - lastCleanupAt >= cfg.cleanupIntervalMs {
        Cleanup(now);
        lastCleanupAt := now;
      }
      var entry := if key in hits then hits[key] else Entry(0, now + cfg.windowMs, now);
      if now > entry.resetAt {
        entry := Entry(0, now + cfg.windowMs, now);
      }
      entry := entry.(lastSeenAt := now, count := entry.count + 1);
      hits := hits[key := entry];
      reply := ReplyTo(cfg, entry, now);
    }
  }

  // ---------- runs ----------

  /** The clock never runs backwards from `start` on. */
  ghost predicate Monotone(start: int, trace: seq<Request>) {
    && (forall i :: 0 <= i < |trace| ==> start <= trace[i].now)
    && (forall i, j :: 0 <= i < j < |trace| ==> trace[i].now <= trace[j].now)
  }

  ghost function After(cfg: Config, start: int, trace: seq<Request>): Limiter {
    if trace == [] then Limiter(map[], start)
    else Step(cfg, After(cfg, start, trace[..|trace| - 1]), trace[|trace| - 1])
  }

  ghost function AfterKeeping(cfg: Config, trace: seq<Request>): map<Key, Entry> {
    if trace == [] then map[]
    else StepKeeping(cfg, AfterKeeping(cfg, trace[..|trace| - 1]), trace[|trace| - 1])
  }

  /** What the last request of a nonempty run is answered. */
  ghost function LastReply(cfg: Config, start: int, trace: seq<Request>): Reply
    requires trace != []
  {
    var r := trace[|trace| - 1];
    ReplyTo(cfg, After(cfg, start, trace).hits[r.key], r.now)
  }

  ghost function LastReplyKeeping(cfg: Config, trace: seq<Request>): Reply
    requires trace != []
  {
    var r := trace[|trace| - 1];
    ReplyTo(cfg, AfterKeeping(cfg, trace)[r.key], r.now)
  }

  // ---------- forgetting stale keys is invisible ----------

  /** `l` holds part of `full`, and what it forgot was last seen too long ago to matter. */
  ghost predicate Forgets(cfg: Config, l: map<Key, Entry>, full: map<Key, Entry>, now: int) {
    && l.Keys <= full.Keys
    && (forall k :: k in l ==> l[k] == full[k])
    && (forall k :: k in full ==> full[k].resetAt <= full[k].lastSeenAt + cfg.windowMs && full[k].lastSeenAt <= now)
    && (forall k :: k in full && k !in l ==> full[k].lastSeenAt + cfg.staleAfterMs < now)
  }

  lemma {:induction false} ForgetsAlways(cfg: Config, start: int, trace: seq<Request>)
    requires cfg.staleAfterMs >= cfg.windowMs && Monotone(start, trace)
    ensures var now := if trace == [] then start else trace[|trace| - 1].now;
            Forgets(cfg, After(cfg, start, trace).hits, AfterKeeping(cfg, trace), now)
  {
    hide Forgets, Step, StepKeeping;
    if trace == [] {
      NothingForgotten(cfg, start);
    } else {
      var before, r := trace[..|trace| - 1], trace[|trace| - 1];
      ForgetsAlways(cfg, start, before);
      var now := if before == [] then start else before[|before| - 1].now;
      ForgetsOneMore(cfg, After(cfg, start, before), AfterKeeping(cfg, before), now, r);
    }
  }

  lemma NothingForgotten(cfg: Config, now: int)
    ensures Forgets(cfg, map[], map[], now)
  {
  }

  lemma ForgetsOneMore(cfg: Config, l: Limiter, full: map<Key, Entry>, now: int, r: Request)
    requires cfg.staleAfterMs >= cfg.windowMs && Forgets(cfg, l.hits, full, now) && now <= r.now
    ensures Forgets(cfg, Step(cfg, l, r).hits, StepKeeping(cfg, full, r), r.now)
  {
    if r.key in full && (r.key !in l.hits || r.now - full[r.key].lastSeenAt > cfg.staleAfterMs) {
      assert r.now > full[r.key].resetAt;
    }
  }

  /** Every answer of every run is the one the limiter that keeps all keys would give. */
  ghost predicate Indistinguishable(cfg: Config) {
    forall start, trace: seq<Request> :: trace != [] && Monotone(start, trace) ==>
      LastReply(cfg, start, trace) == LastReplyKeeping(cfg, trace)
  }

  /** Two requests of one key that a sweep tells apart when it may forget a running window. */
  ghost function Betrayal(cfg: Config): seq<Request> {
    [Request(0, "k"), Request(cfg.windowMs, "k")]
  }

  lemma {:induction false} EarlyForgettingShows(cfg: Config)
    requires cfg.max >= 1 && cfg.cleanupIntervalMs > 0 && cfg.staleAfterMs < cfg.windowMs
    ensures !Indistinguishable(cfg)
  {
    var start := if cfg.cleanupIntervalMs > cfg.windowMs then cfg.windowMs - cfg.cleanupIntervalMs else 0;
    var trace := Betrayal(cfg);
    var first := [Request(0, "k")];
    assert trace[..1] == first && first[..0] == [];
    assert After(cfg, start, first) == Step(cfg, After(cfg, start, []), first[0]);
    assert AfterKeeping(cfg, first) == StepKeeping(cfg, AfterKeeping(cfg, []), first[0]);
    assert After(cfg, start, first) == Limiter(map["k" := Entry(1, cfg.windowMs, 0)], start);
    assert LastReply(cfg, start, trace) != LastReplyKeeping(cfg, trace);
  }

  /** The sweep is invisible to every caller of every run exactly when it waits a full window. */
  lemma {:induction false} SweepInvisibleIff(cfg: Config)
    requires cfg.max >= 1 && cfg.cleanupIntervalMs > 0
    ensures Indistinguishable(cfg) <==> cfg.staleAfterMs >= cfg.windowMs
  {
    if cfg.staleAfterMs >= cfg.windowMs {
      forall start, trace: seq<Request> | trace != [] && Monotone(start, trace)
        ensures LastReply(cfg, start, trace) == LastReplyKeeping(cfg, trace)
      {
        ForgetsAlways(cfg, start, trace);
      }
    } else {
      EarlyForgettingShows(cfg);
    }
  }

  // ---------- how many requests pass ----------

  /** How many requests of `key` were let through at times in [from, to]. */
  ghost function Passed(cfg: Config, start: int, trace: seq<Request>, key: Key, from: int, to: int): nat {
    if trace == [] then 0
    else
      var r := trace[|trace| - 1];
      Passed(cfg, start, trace[..|trace| - 1], key, from, to) +
      (if r.key == key && from <= r.now <= to && LastReply(cfg, start, trace).allowed then 1 else 0)
  }

  ghost function Min(a: nat, b: nat): nat {
    if a <= b then a else b
  }

  lemma {:induction false} PassedSplits(cfg: Config, start: int, trace: seq<Request>, key: Key, from: int, mid: int,
                                        to: int)
    requires from <= mid <= to + 1
    ensures Passed(cfg, start, trace, key, from, to)
         == Passed(cfg, start, trace, key, from, mid - 1) + Passed(cfg, start, trace, key, mid, to)
  {
    if trace == [] {
    } else {
      PassedSplits(cfg, start, trace[..|trace| - 1], key, from, mid, to);
    }
  }

  /** Shrinking the interval never raises the count. */
  lemma {:induction false} PassedShrinks(cfg: Config, start: int, trace: seq<Request>, key: Key, from: int, to: int,
                                         from': int, to': int)
    requires from <= from' && to' <= to
    ensures Passed(cfg, start, trace, key, from', to') <= Passed(cfg, start, trace, key, from, to)
  {
    if trace == [] {
    } else {
      PassedShrinks(cfg, start, trace[..|trace| - 1], key, from, to, from', to');
    }
  }

  /** Nothing of a key passes after it was last seen, or at all if it never was. */
  lemma {:induction false} NothingPassesUnseen(cfg: Config, start: int, trace: seq<Request>, key: Key, from: int,
                                               to: int)
    requires Monotone(start, trace)
    requires key in AfterKeeping(cfg, trace) ==> AfterKeeping(cfg, trace)[key].lastSeenAt < from
    ensures Passed(cfg, start, trace, key, from, to) == 0
  {
    if trace == [] {
    } else {
      var before, r := trace[..|trace| - 1], trace[|trace| - 1];
      LastSeenBounded(cfg, before, r.now);
      NothingPassesUnseen(cfg, start, before, key, from, to);
    }
  }

  lemma {:induction false} LastSeenBounded(cfg: Config, trace: seq<Request>, now: int)
    requires forall i :: 0 <= i < |trace| ==> trace[i].now <= now
    ensures forall k :: k in AfterKeeping(cfg, trace) ==> AfterKeeping(cfg, trace)[k].lastSeenAt <= now
  {
    if trace == [] {
    } else {
      LastSeenBounded(cfg, trace[..|trace| - 1], now);
    }
  }

  /** In one window length before and up to `last`, at most `max` requests of the key passed. */
  ghost predicate AtMostMaxUpTo(cfg: Config, start: int, trace: seq<Request>, key: Key, last: int) {
    forall from :: last + 1 - cfg.windowMs <= from <= last + 1 ==> Passed(cfg, start, trace, key, from, last) <= cfg.max
  }

  /** What the table knows about the past of one key: the running window has let through what its
      counter says, up to the maximum, and at most a maximum passed in the window length before it. */
  ghost predicate History(cfg: Config, start: int, trace: seq<Request>, key: Key, e: Entry) {
    var since := e.resetAt - cfg.windowMs;
    && since <= e.lastSeenAt <= e.resetAt
    && Passed(cfg, start, trace, key, since, e.resetAt) == Min(e.count, cfg.max)
    && AtMostMaxUpTo(cfg, start, trace, key, since - 1)
  }

  lemma {:induction false} HistoryKept(cfg: Config, start: int, trace: seq<Request>, key: Key)
    requires cfg.staleAfterMs >= cfg.windowMs && Monotone(start, trace)
    requires key in AfterKeeping(cfg, trace)
    ensures History(cfg, start, trace, key, AfterKeeping(cfg, trace)[key])
  {
    hide LastReply, Passed, Monotone;
    var before, r := trace[..|trace| - 1], trace[|trace| - 1];
    MonotoneBefore(start, trace);
    NothingKeptYet(cfg);
    var full, e := AfterKeeping(cfg, before), AfterKeeping(cfg, trace)[key];
    LastSeenBounded(cfg, before, r.now);
    if key in full {
      HistoryKept(cfg, start, before, key);
    }
    if r.key == key && (key !in full || r.now > full[key].resetAt) {
      NewWindow(cfg, start, before, key, r.now);
    }
    var since := e.resetAt - cfg.windowMs;
    PassedStep(cfg, start, trace, key, since, e.resetAt);
    var last := since - 1;
    assert AtMostMaxUpTo(cfg, start, before, key, last);
    forall from | last + 1 - cfg.windowMs <= from <= last + 1
      ensures Passed(cfg, start, trace, key, from, last) <= cfg.max
    {
      PassedStep(cfg, start, trace, key, from, last);
    }
  }

  lemma MonotoneBefore(start: int, trace: seq<Request>)
    requires Monotone(start, trace) && trace != []
    ensures Monotone(start, trace[..|trace| - 1])
    ensures forall i :: 0 <= i < |trace| - 1 ==> trace[i].now <= trace[|trace| - 1].now
  {
  }

  lemma NothingKeptYet(cfg: Config)
    ensures AfterKeeping(cfg, []) == map[]
  {
  }

  /** One more request adds one to the count exactly when its counter is within the maximum. */
  lemma {:induction false} PassedStep(cfg: Config, start: int, trace: seq<Request>, key: Key, from: int, to: int)
    requires cfg.staleAfterMs >= cfg.windowMs && Monotone(start, trace) && trace != []
    ensures var r := trace[|trace| - 1];
            Passed(cfg, start, trace, key, from, to) == Passed(cfg, start, trace[..|trace| - 1], key, from, to) +
              (if r.key == key && from <= r.now <= to && AfterKeeping(cfg, trace)[key].count <= cfg.max then 1 else 0)
  {
    ForgetsAlways(cfg, start, trace);
  }

  /** A window opened at `now` has seen nothing yet, and at most one maximum within a length before it. */
  lemma {:induction false} NewWindow(cfg: Config, start: int, before: seq<Request>, key: Key, now: int)
    requires Monotone(start, before)
    requires key in AfterKeeping(cfg, before) ==>
               var e := AfterKeeping(cfg, before)[key]; History(cfg, start, before, key, e) && e.resetAt < now
    ensures Passed(cfg, start, before, key, now, now + cfg.windowMs) == 0
    ensures AtMostMaxUpTo(cfg, start, before, key, now - 1)
  {
    NothingPassesUnseen(cfg, start, before, key, now, now + cfg.windowMs);
    var last := now - 1;
    forall from | last + 1 - cfg.windowMs <= from <= last + 1
      ensures Passed(cfg, start, before, key, from, last) <= cfg.max
    {
      if key in AfterKeeping(cfg, before) {
        var e := AfterKeeping(cfg, before)[key];
        var since := e.resetAt - cfg.windowMs;
        PassedSplits(cfg, start, before, key, since, e.resetAt + 1, now - 1);
        NothingPassesUnseen(cfg, start, before, key, e.resetAt + 1, now - 1);
        PassedShrinks(cfg, start, before, key, since, now - 1, from, now - 1);
      } else {
        NothingPassesUnseen(cfg, start, before, key, from, now - 1);
      }
    }
  }

  /** At every point of every run: at most `max` requests of a key pass in its running window,
      and at most twice that in any stretch of time one window long, wherever it starts. */
  lemma {:induction false} PassBounds(cfg: Config, start: int, trace: seq<Request>, key: Key, from: int)
    requires cfg.staleAfterMs >= cfg.windowMs && Monotone(start, trace)
    ensures key in AfterKeeping(cfg, trace) ==>
              var e := AfterKeeping(cfg, trace)[key];
              Passed(cfg, start, trace, key, e.resetAt - cfg.windowMs, e.resetAt) <= cfg.max
    ensures Passed(cfg, start, trace, key, from, from + cfg.windowMs) <= 2 * cfg.max
  {
    if key in AfterKeeping(cfg, trace) {
      HistoryKept(cfg, start, trace, key);
    }
    if trace == [] {
    } else {
      PassBounds(cfg, start, trace[..|trace| - 1], key, from);
      var r := trace[|trace| - 1];
      if r.key == key && from <= r.now <= from + cfg.windowMs {
        WindowEndingNow(cfg, start, trace, from);
      }
    }
  }

  lemma {:induction false} WindowEndingNow(cfg: Config, start: int, trace: seq<Request>, from: int)
    requires cfg.staleAfterMs >= cfg.windowMs && Monotone(start, trace) && trace != []
    requires from <= trace[|trace| - 1].now <= from + cfg.windowMs
    ensures Passed(cfg, start, trace, trace[|trace| - 1].key, from, from + cfg.windowMs) <= 2 * cfg.max
  {
    var key, to := trace[|trace| - 1].key, from + cfg.windowMs;
    HistoryKept(cfg, start, trace, key);
    var e := AfterKeeping(cfg, trace)[key];
    var since := e.resetAt - cfg.windowMs;
    if from <= since {
      PassedSplits(cfg, start, trace, key, from, since, to);
      PassedShrinks(cfg, start, trace, key, since, e.resetAt, since, to);
    } else {
      PassedSplits(cfg, start, trace, key, from, e.resetAt + 1, to);
      NothingPassesUnseen(cfg, start, trace, key, e.resetAt + 1, to);
      PassedShrinks(cfg, start, trace, key, since, e.resetAt, from, e.resetAt);
    }
  }
}
