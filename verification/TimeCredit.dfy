/** The time-credit economy of one user: heartbeats earn seconds (server/controllers/sessionController.js),
    auto-mining GPUs and watched videos spend them under rolling daily limits
    (server/controllers/autoMiningGpuController.js, server/controllers/youtubeController.js).
    The requests of one user are answered one at a time. */
module TimeCredit {
  import opened Common

  const DAY_MS := 86_400_000
  const HEARTBEAT_MS := 8_000
  const HEARTBEAT_SECONDS := 10
  const GPU_COST := 300
  const GPU_DAILY_LIMIT := 24
  const GPU_RELEASE_MS := 300_000
  const VIDEO_COST := 60
  const VIDEO_HASH := 3.0
  const VIDEO_DAILY_HASH := 1440.0

  datatype Kind = Youtube | AutoMining

  /** The decoded fingerprint of a heartbeat: unreadable, without a timestamp, or with one. */
  datatype Fingerprint = Unreadable | NoTimestamp | Stamped(ts: int)

  /** A GPU row; `claimedAt` is set when it is claimed. */
  datatype Gpu = Gpu(releasedAt: int, claimedAt: Option<int>)

  /** A row of the watch history. */
  datatype Grant = Grant(createdAt: int, hashRate: real)

  datatype Account = Account(lastHeartbeatAt: Option<int>, autoSeconds: int, ytSeconds: int, gpus: seq<Gpu>,
                             grants: seq<Grant>)

  datatype Reply = Done | Throttled | BadRequest | Forbidden | NotFound | LimitReached | NotEnoughTime

  // ---------- what is counted ----------

  /** GPUs claimed after `from` and not after `to`. */
  function Claims(gpus: seq<Gpu>, from: int, to: int): nat {
    if gpus == [] then 0
    else
      var g := gpus[|gpus| - 1];
      Claims(gpus[..|gpus| - 1], from, to) + (if g.claimedAt.Some? && from < g.claimedAt.value <= to then 1 else 0)
  }

  /** Hash rate granted after `from` and not after `to`. */
  function Granted(grants: seq<Grant>, from: int, to: int): real {
    if grants == [] then 0.0
    else
      var g := grants[|grants| - 1];
      Granted(grants[..|grants| - 1], from, to) + (if from < g.createdAt <= to then g.hashRate else 0.0)
  }

  /** The same two, with no upper end: what the controllers query. */
  function ClaimsSince(gpus: seq<Gpu>, from: int): nat {
    if gpus == [] then 0
    else
      var g := gpus[|gpus| - 1];
      ClaimsSince(gpus[..|gpus| - 1], from) + (if g.claimedAt.Some? && g.claimedAt.value > from then 1 else 0)
  }

  function GrantedSince(grants: seq<Grant>, from: int): real {
    if grants == [] then 0.0
    else
      var g := grants[|grants| - 1];
      GrantedSince(grants[..|grants| - 1], from) + (if g.createdAt > from then g.hashRate else 0.0)
  }

  function ClaimedGpus(gpus: seq<Gpu>): nat {
    if gpus == [] then 0 else ClaimedGpus(gpus[..|gpus| - 1]) + (if gpus[|gpus| - 1].claimedAt.Some? then 1 else 0)
  }

  predicate AnyUnclaimed(gpus: seq<Gpu>) {
    exists i :: 0 <= i < |gpus| && gpus[i].claimedAt.None?
  }

  /** The latest release, or None when there never was one. */
  function LastRelease(gpus: seq<Gpu>): Option<int> {
    if gpus == [] then None
    else
      var before := LastRelease(gpus[..|gpus| - 1]);
      var at := gpus[|gpus| - 1].releasedAt;
      if before.Some? && before.value > at then before else Some(at)
  }

  // ---------- the requests ----------

  function HeartbeatReply(a: Account, now: int, kind: Option<Kind>, isBot: bool, fp: Fingerprint): Reply {
    if kind.None? then BadRequest
    else if isBot then Forbidden
    else if fp.Unreadable? then BadRequest
    else if fp.Stamped? && (fp.ts > now + 5000 || fp.ts < now - 60000) then BadRequest
    else if a.lastHeartbeatAt.Some? && now - a.lastHeartbeatAt.value < HEARTBEAT_MS then Throttled
    else Done
  }

  function Beaten(a: Account, now: int, kind: Kind): Account {
    if kind == Youtube then a.(lastHeartbeatAt := Some(now), ytSeconds := a.ytSeconds + HEARTBEAT_SECONDS)
    else a.(lastHeartbeatAt := Some(now), autoSeconds := a.autoSeconds + HEARTBEAT_SECONDS)
  }

  /** getAvailableGPUsHandler releases a GPU: none is waiting, the last release is five minutes old, the
      credit is there and a reward is active. */
  predicate Releases(a: Account, now: int, rewardActive: bool) {
    && !AnyUnclaimed(a.gpus)
    && (var last := LastRelease(a.gpus); last.None? || now >= last.value + GPU_RELEASE_MS)
    && a.autoSeconds >= GPU_COST
    && rewardActive
  }

  function ClaimGpuReply(a: Account, now: int, id: Option<nat>): Reply {
    if id.None? then BadRequest
    else if id.value >= |a.gpus| || a.gpus[id.value].claimedAt.Some? then NotFound
    else if ClaimsSince(a.gpus, now - DAY_MS) >= GPU_DAILY_LIMIT then LimitReached
    else if a.autoSeconds < GPU_COST then NotEnoughTime
    else Done
  }

  function GpuClaimed(a: Account, now: int, id: nat): Account
    requires id < |a.gpus|
  {
    a.(gpus := a.gpus[id := a.gpus[id].(claimedAt := Some(now))], autoSeconds := a.autoSeconds - GPU_COST)
  }

  function ClaimVideoReply(a: Account, now: int, hasVideo: bool): Reply {
    if !hasVideo then BadRequest
    else if a.ytSeconds < VIDEO_COST then NotEnoughTime
    else if GrantedSince(a.grants, now - DAY_MS) + VIDEO_HASH > VIDEO_DAILY_HASH then LimitReached
    else Done
  }

  function VideoGranted(a: Account, createdAt: int): Account {
    a.(grants := a.grants + [Grant(createdAt, VIDEO_HASH)], ytSeconds := a.ytSeconds - VIDEO_COST)
  }

  /** A request with the readings of the clock it is answered by; the history row of a video claim is
      stamped by the database, a little later than the controller's own reading. */
  datatype Event =
    | Heartbeat(now: int, kind: Option<Kind>, isBot: bool, fp: Fingerprint)
    | ListGpus(now: int, rewardActive: bool)
    | ClaimGpu(now: int, id: Option<nat>)
    | ClaimVideo(now: int, createdAt: int, hasVideo: bool)

  function ReplyTo(a: Account, ev: Event): Reply {
    match ev
    case Heartbeat(now, kind, isBot, fp) => HeartbeatReply(a, now, kind, isBot, fp)
    case ListGpus(_, _) => Done
    case ClaimGpu(now, id) => ClaimGpuReply(a, now, id)
    case ClaimVideo(now, _, hasVideo) => ClaimVideoReply(a, now, hasVideo)
  }

  function Answer(a: Account, ev: Event): Account {
    if ReplyTo(a, ev) != Done then a
    else
      match ev
      case Heartbeat(now, kind, _, _) => if kind.Some? then Beaten(a, now, kind.value) else a
      case ListGpus(now, rewardActive) =>
        if Releases(a, now, rewardActive) then a.(gpus := a.gpus + [Gpu(now, None)]) else a
      case ClaimGpu(now, id) => if id.Some? && id.value < |a.gpus| then GpuClaimed(a, now, id.value) else a
      case ClaimVideo(_, createdAt, _) => VideoGranted(a, createdAt)
  }

  // ---------- the controllers ----------

  class User {
    var lastHeartbeatAt: Option<int>
    var autoSeconds: int
    var ytSeconds: int
    var gpus: seq<Gpu>
    var grants: seq<Grant>

    ghost function State(): Account
      reads this
    {
      Account(lastHeartbeatAt, autoSeconds, ytSeconds, gpus, grants)
    }

    constructor ()
      ensures State() == NewUser()
    {
      lastHeartbeatAt, autoSeconds, ytSeconds, gpus, grants := None, 0, 0, [], [];
    }

    /** processHeartbeat; a type that is not known arrives as None. */
    method ProcessHeartbeat(now: int, kind: Option<Kind>, isBot: bool, fp: Fingerprint) returns (r: Reply)
      modifies this
      ensures r == ReplyTo(old(State()), Heartbeat(now, kind, isBot, fp))
      ensures State() == Answer(old(State()), Heartbeat(now, kind, isBot, fp))
    {
      if kind.None? {
        return BadRequest;
      }
      if isBot {
        return Forbidden;
      }
      if fp.Unreadable? || (fp.Stamped? && (fp.ts > now + 5000 || fp.ts < now - 60000)) {
        return BadRequest;
      }
      if lastHeartbeatAt.Some? {
        var diff := now - lastHeartbeatAt.value;
        if diff < HEARTBEAT_MS {
          return Throttled;
        }
      }
      lastHeartbeatAt := Some(now);
      if kind.value == Youtube {
        ytSeconds := ytSeconds + HEARTBEAT_SECONDS;
      } else {
        autoSeconds := autoSeconds + HEARTBEAT_SECONDS;
      }
      r := Done;
    }

    /** getAvailableGPUsHandler */
    method ListAvailableGpus(now: int, rewardActive: bool)
      modifies this`gpus
      ensures State() == Answer(old(State()), ListGpus(now, rewardActive))
    {
      if AnyUnclaimed(gpus) {
        return;
      }
      var lastGpu := LastRelease(gpus);
      if lastGpu.None? || now >= lastGpu.value + GPU_RELEASE_MS {
        if autoSeconds >= GPU_COST {
          if rewardActive {
            gpus := gpus + [Gpu(now, None)];
          }
        }
      }
    }

    /** claimGPUHandler */
    method ClaimGpuRow(now: int, id: Option<nat>) returns (r: Reply)
      modifies this
      ensures r == ReplyTo(old(State()), ClaimGpu(now, id))
      ensures State() == Answer(old(State()), ClaimGpu(now, id))
    {
      if id.None? {
        return BadRequest;
      }
      if id.value >= |gpus| || gpus[id.value].claimedAt.Some? {
        return NotFound;
      }
      var claims24h := CountClaimsSince(now - DAY_MS);
      if claims24h >= GPU_DAILY_LIMIT {
        return LimitReached;
      }
      if autoSeconds < GPU_COST {
        return NotEnoughTime;
      }
      gpus := gpus[id.value := gpus[id.value].(claimedAt := Some(now))];
      autoSeconds := autoSeconds - GPU_COST;
      r := Done;
    }

    method CountClaimsSince(from: int) returns (n: nat)
      ensures n == ClaimsSince(gpus, from)
    {
      n := 0;
      for i := 0 to |gpus|
        invariant n == ClaimsSince(gpus[..i], from)
      {
        assert gpus[..i + 1][..i] == gpus[..i];
        if gpus[i].claimedAt.Some? && gpus[i].claimedAt.value > from {
          n := n + 1;
        }
      }
      assert gpus[..|gpus|] == gpus;
    }

    /** claimReward */
    method ClaimReward(now: int, createdAt: int, hasVideo: bool) returns (r: Reply)
      modifies this
      ensures r == ReplyTo(old(State()), ClaimVideo(now, createdAt, hasVideo))
      ensures State() == Answer(old(State()), ClaimVideo(now, createdAt, hasVideo))
    {
      if !hasVideo {
        return BadRequest;
      }
      if ytSeconds < VIDEO_COST {
        return NotEnoughTime;
      }
      var currentDailyHash := 0.0;
      for i := 0 to |grants|
        invariant currentDailyHash == GrantedSince(grants[..i], now - DAY_MS)
      {
        assert grants[..i + 1][..i] == grants[..i];
        if grants[i].createdAt > now - DAY_MS {
          currentDailyHash := currentDailyHash + grants[i].hashRate;
        }
      }
      assert grants[..|grants|] == grants;
      if currentDailyHash + VIDEO_HASH > VIDEO_DAILY_HASH {
        return LimitReached;
      }
      grants := grants + [Grant(createdAt, VIDEO_HASH)];
      ytSeconds := ytSeconds - VIDEO_COST;
      r := Done;
    }
  }

  // ---------- counting lemmas ----------

  lemma {:induction false} ClaimsUpdate(gpus: seq<Gpu>, id: nat, now: int, from: int, to: int)
    requires id < |gpus| && gpus[id].claimedAt.None?
    ensures var after := gpus[id := gpus[id].(claimedAt := Some(now))];
            && Claims(after, from, to) == Claims(gpus, from, to) + (if from < now <= to then 1 else 0)
            && ClaimedGpus(after) == ClaimedGpus(gpus) + 1
  {
    var rest := gpus[..|gpus| - 1];
    if id < |gpus| - 1 {
      ClaimsUpdate(rest, id, now, from, to);
      assert gpus[id := gpus[id].(claimedAt := Some(now))][..|gpus| - 1]
             == rest[id := rest[id].(claimedAt := Some(now))];
    } else {
      assert gpus[id := gpus[id].(claimedAt := Some(now))][..|gpus| - 1] == rest;
    }
  }

  lemma ClaimsAppend(gpus: seq<Gpu>, releasedAt: int, from: int, to: int)
    ensures Claims(gpus + [Gpu(releasedAt, None)], from, to) == Claims(gpus, from, to)
    ensures ClaimedGpus(gpus + [Gpu(releasedAt, None)]) == ClaimedGpus(gpus)
  {
    assert (gpus + [Gpu(releasedAt, None)])[..|gpus|] == gpus;
  }

  /** A window that starts no earlier holds no more than the query counts. */
  lemma {:induction false} ClaimsWithinQuery(gpus: seq<Gpu>, from: int, to: int, since: int)
    requires since <= from
    ensures Claims(gpus, from, to) <= ClaimsSince(gpus, since)
  {
    if gpus == [] {
    } else {
      ClaimsWithinQuery(gpus[..|gpus| - 1], from, to, since);
    }
  }

  lemma GrantedAppend(grants: seq<Grant>, g: Grant, from: int, to: int)
    ensures Granted(grants + [g], from, to) == Granted(grants, from, to)
            + (if from < g.createdAt <= to then g.hashRate else 0.0)
  {
    assert (grants + [g])[..|grants|] == grants;
  }

  lemma {:induction false} GrantedWithinQuery(grants: seq<Grant>, from: int, to: int, since: int)
    requires since <= from && forall i :: 0 <= i < |grants| ==> grants[i].hashRate >= 0.0
    ensures Granted(grants, from, to) <= GrantedSince(grants, since)
  {
    if grants == [] {
    } else {
      GrantedWithinQuery(grants[..|grants| - 1], from, to, since);
    }
  }

  // ---------- what is accepted ----------

  /** A heartbeat earns ten seconds of its kind exactly when its kind is known, no bot sends it, its stamp, if it
      has one, is neither a minute old nor five seconds ahead, and the last one is eight seconds past. */
  lemma HeartbeatIff(a: Account, now: int, kind: Option<Kind>, isBot: bool, fp: Fingerprint)
    ensures var ev := Heartbeat(now, kind, isBot, fp);
            var stamped := fp.NoTimestamp? || (fp.Stamped? && now - 60000 <= fp.ts <= now + 5000);
            var fits := kind.Some? && !isBot && stamped;
            var paced := a.lastHeartbeatAt.Some? ==> now >= a.lastHeartbeatAt.value + 8000;
            && (ReplyTo(a, ev) == Done <==> fits && paced)
            && (ReplyTo(a, ev) == Throttled <==> fits && !paced)
            && (ReplyTo(a, ev) == Forbidden <==> kind.Some? && isBot)
            && Answer(a, ev) == if !(fits && paced) then a
                                else if kind == Some(Youtube) then
                                  a.(lastHeartbeatAt := Some(now), ytSeconds := a.ytSeconds + 10)
                                else a.(lastHeartbeatAt := Some(now), autoSeconds := a.autoSeconds + 10)
  {
  }

  lemma {:induction false} LastReleaseIs(gpus: seq<Gpu>)
    ensures LastRelease(gpus).None? <==> gpus == []
    ensures gpus != [] ==>
              && (forall i :: 0 <= i < |gpus| ==> gpus[i].releasedAt <= LastRelease(gpus).value)
              && (exists i :: 0 <= i < |gpus| && gpus[i].releasedAt == LastRelease(gpus).value)
  {
    if gpus == [] {
    } else {
      var rest, n := gpus[..|gpus| - 1], |gpus| - 1;
      LastReleaseIs(rest);
      if rest != [] && LastRelease(rest).value > gpus[n].releasedAt {
        var i :| 0 <= i < |rest| && rest[i].releasedAt == LastRelease(rest).value;
        assert gpus[i].releasedAt == LastRelease(gpus).value;
      } else {
        assert gpus[n].releasedAt == LastRelease(gpus).value;
      }
      forall i | 0 <= i < n ensures gpus[i].releasedAt <= LastRelease(gpus).value {
        assert gpus[i] == rest[i];
      }
    }
  }

  /** A GPU is released exactly when none is waiting, none was released in the last five minutes, the credit is
      at least 300 and a reward is active; otherwise nothing changes. */
  lemma ReleasedIff(a: Account, now: int, rewardActive: bool)
    ensures var fits := && (forall i :: 0 <= i < |a.gpus| ==>
                              a.gpus[i].claimedAt.Some? && a.gpus[i].releasedAt + 300_000 <= now)
                        && a.autoSeconds >= 300 && rewardActive;
            Answer(a, ListGpus(now, rewardActive)) == if fits then a.(gpus := a.gpus + [Gpu(now, None)]) else a
  {
    LastReleaseIs(a.gpus);
  }

  /** The claims after a moment. */
  function ClaimedAfter(gpus: seq<Gpu>, from: int): set<nat> {
    set i: nat | i < |gpus| && gpus[i].claimedAt.Some? && gpus[i].claimedAt.value > from
  }

  lemma {:induction false} ClaimsSinceIs(gpus: seq<Gpu>, from: int)
    ensures ClaimsSince(gpus, from) == |ClaimedAfter(gpus, from)|
  {
    if gpus == [] {
    } else {
      var rest, n := gpus[..|gpus| - 1], |gpus| - 1;
      ClaimsSinceIs(rest, from);
      assert ClaimedAfter(gpus, from) == ClaimedAfter(rest, from) + if n in ClaimedAfter(gpus, from) then {n} else {};
    }
  }

  /** A GPU claim is accepted exactly for an unclaimed row, with fewer than 24 claims in the last 24 hours and a
      credit of at least 300; it then dates the row and takes 300. */
  lemma GpuClaimIff(a: Account, now: int, id: Option<nat>)
    ensures var fits := && id.Some? && id.value < |a.gpus| && a.gpus[id.value].claimedAt.None?
                        && |ClaimedAfter(a.gpus, now - 86_400_000)| < 24 && a.autoSeconds >= 300;
            && (ReplyTo(a, ClaimGpu(now, id)) == Done <==> fits)
            && Answer(a, ClaimGpu(now, id)) ==
                 if !fits then a
                 else a.(gpus := a.gpus[id.value := Gpu(a.gpus[id.value].releasedAt, Some(now))],
                         autoSeconds := a.autoSeconds - 300)
  {
    ClaimsSinceIs(a.gpus, now - 86_400_000);
  }

  /** A video claim is accepted exactly for a video, with a credit of at least 60 and room for 3 H/s within 1440 in
      the last 24 hours; it then adds a row of 3 H/s and takes 60. */
  lemma VideoClaimIff(a: Account, now: int, createdAt: int, hasVideo: bool)
    ensures var fits := hasVideo && a.ytSeconds >= 60 && GrantedSince(a.grants, now - 86_400_000) + 3.0 <= 1440.0;
            && (ReplyTo(a, ClaimVideo(now, createdAt, hasVideo)) == Done <==> fits)
            && Answer(a, ClaimVideo(now, createdAt, hasVideo)) ==
                 if fits then a.(grants := a.grants + [Grant(createdAt, 3.0)], ytSeconds := a.ytSeconds - 60) else a
  {
  }

  // ---------- runs ----------

  function Latest(start: int, run: seq<Event>): int {
    if run == [] then start
    else
      var ev := run[|run| - 1];
      if ev.ClaimVideo? then ev.createdAt else ev.now
  }

  /** The clock does not run backwards. */
  ghost predicate Timely(start: int, run: seq<Event>) {
    run == [] ||
    (var before, ev := run[..|run| - 1], run[|run| - 1];
     Timely(start, before) && Latest(start, before) <= ev.now && (ev.ClaimVideo? ==> ev.now <= ev.createdAt))
  }

  ghost function After(a: Account, run: seq<Event>): Account {
    if run == [] then a else Answer(After(a, run[..|run| - 1]), run[|run| - 1])
  }

  /** The times of the accepted heartbeats of one kind, or of all. */
  ghost function Beats(a: Account, run: seq<Event>, kind: Option<Kind>): seq<int> {
    if run == [] then []
    else
      var before, ev := run[..|run| - 1], run[|run| - 1];
      Beats(a, before, kind) +
      (if ev.Heartbeat? && ReplyTo(After(a, before), ev) == Done && (kind.None? || kind == ev.kind) then [ev.now]
       else [])
  }

  /** A user as it stands at the start: nothing owed, past limits respected, no date in the future. */
  ghost predicate Fair(a: Account, latest: int) {
    && a.autoSeconds >= 0 && a.ytSeconds >= 0
    && (a.lastHeartbeatAt.Some? ==> a.lastHeartbeatAt.value <= latest)
    && (forall from :: ClaimsIn(a.gpus, from) <= GPU_DAILY_LIMIT)
    && (forall from :: GrantsIn(a.grants, from) <= VIDEO_DAILY_HASH)
    && (forall i :: 0 <= i < |a.gpus| && a.gpus[i].claimedAt.Some? ==> a.gpus[i].claimedAt.value <= latest)
    && (forall i :: 0 <= i < |a.grants| ==> a.grants[i].createdAt <= latest && a.grants[i].hashRate >= 0.0)
  }

  /** The day that starts right after `from`. */
  function ClaimsIn(gpus: seq<Gpu>, from: int): nat {
    Claims(gpus, from, from + DAY_MS)
  }

  function GrantsIn(grants: seq<Grant>, from: int): real {
    Granted(grants, from, from + DAY_MS)
  }

  /** Every request keeps the limits: no balance below zero, at most 24 GPU claims and 1440 H/s of video
      grants in any 24 hours, wherever they start. */
  lemma AnswerKeepsFair(a: Account, latest: int, ev: Event)
    requires Fair(a, latest) && latest <= ev.now && (ev.ClaimVideo? ==> ev.now <= ev.createdAt)
    ensures Fair(Answer(a, ev), if ev.ClaimVideo? then ev.createdAt else ev.now)
  {
    hide Claims, Granted, ClaimsSince, GrantedSince, AnyUnclaimed, LastRelease;
    var b := Answer(a, ev);
    if ReplyTo(a, ev) == Done {
      match ev
      case Heartbeat(now, kind, _, _) =>
      case ListGpus(now, rewardActive) =>
        if b != a {
          forall from ensures ClaimsIn(b.gpus, from) <= GPU_DAILY_LIMIT {
            ClaimsAppend(a.gpus, now, from, from + DAY_MS);
            assert ClaimsIn(a.gpus, from) <= GPU_DAILY_LIMIT;
          }
        }
      case ClaimGpu(now, id) =>
        forall from ensures ClaimsIn(b.gpus, from) <= GPU_DAILY_LIMIT {
          ClaimsUpdate(a.gpus, id.value, now, from, from + DAY_MS);
          assert ClaimsIn(a.gpus, from) <= GPU_DAILY_LIMIT;
          if from < now <= from + DAY_MS {
            ClaimsWithinQuery(a.gpus, from, from + DAY_MS, now - DAY_MS);
          }
        }
      case ClaimVideo(now, createdAt, _) =>
        forall from ensures GrantsIn(b.grants, from) <= VIDEO_DAILY_HASH {
          GrantedAppend(a.grants, Grant(createdAt, VIDEO_HASH), from, from + DAY_MS);
          assert GrantsIn(a.grants, from) <= VIDEO_DAILY_HASH;
          if from < createdAt <= from + DAY_MS {
            GrantedWithinQuery(a.grants, from, from + DAY_MS, now - DAY_MS);
          }
        }
    }
  }

  /** The books of one request. */
  lemma AnswerConserves(a: Account, ev: Event)
    ensures var b := Answer(a, ev);
            var earned := if ev.Heartbeat? && ReplyTo(a, ev) == Done then HEARTBEAT_SECONDS else 0;
            && b.autoSeconds + GPU_COST * ClaimedGpus(b.gpus) - a.autoSeconds - GPU_COST * ClaimedGpus(a.gpus)
                 == (if ev.Heartbeat? && ev.kind == Some(AutoMining) then earned else 0)
            && b.ytSeconds + VIDEO_COST * |b.grants| - a.ytSeconds - VIDEO_COST * |a.grants|
                 == (if ev.Heartbeat? && ev.kind == Some(Youtube) then earned else 0)
  {
    if ReplyTo(a, ev) == Done {
      if ev.ClaimGpu? {
        ClaimsUpdate(a.gpus, ev.id.value, ev.now, 0, 0);
      } else if ev.ListGpus? {
        ClaimsAppend(a.gpus, ev.now, 0, 0);
      }
    }
  }

  /** Time-credit conservation, at every point of every timely run from a fair start:
      - both balances stay nonnegative, and what is left of each plus what was spent is what was there
        plus ten seconds for each accepted heartbeat of its kind;
      - any 24 hours hold at most 24 GPU claims and 1440 H/s of video grants. */
  lemma {:induction false} RunConserves(a: Account, start: int, run: seq<Event>)
    requires Fair(a, start) && Timely(start, run)
    ensures var b := After(a, run);
            && Fair(b, Latest(start, run))
            && b.autoSeconds + GPU_COST * ClaimedGpus(b.gpus)
                 == a.autoSeconds + GPU_COST * ClaimedGpus(a.gpus)
                   + HEARTBEAT_SECONDS * |Beats(a, run, Some(AutoMining))|
            && b.ytSeconds + VIDEO_COST * |b.grants|
                 == a.ytSeconds + VIDEO_COST * |a.grants| + HEARTBEAT_SECONDS * |Beats(a, run, Some(Youtube))|
  {
    hide Fair;
    if run == [] {
    } else {
      var before, ev := run[..|run| - 1], run[|run| - 1];
      RunConserves(a, start, before);
      AnswerKeepsFair(After(a, before), Latest(start, before), ev);
      AnswerConserves(After(a, before), ev);
    }
  }

  // ---------- heartbeats ----------

  ghost predicate Spaced(times: seq<int>) {
    forall i :: 0 <= i < |times| - 1 ==> times[i] + HEARTBEAT_MS <= times[i + 1]
  }

  lemma {:induction false} BeatsAreSpaced(a: Account, start: int, run: seq<Event>)
    requires Fair(a, start) && Timely(start, run)
    ensures var times := Beats(a, run, None);
            && Spaced(times)
            && (times != [] ==> After(a, run).lastHeartbeatAt == Some(times[|times| - 1]))
  {
    hide Fair, Spaced, Answer, ReplyTo;
    if run == [] {
      NoneIsSpaced();
    } else {
      var before, ev := run[..|run| - 1], run[|run| - 1];
      BeatsAreSpaced(a, start, before);
      var times := Beats(a, before, None);
      OneMoreBeat(After(a, before), ev, times);
      assert times + [] == times;
    }
  }

  lemma NoneIsSpaced()
    ensures Spaced([])
  {
  }

  /** The next accepted heartbeat comes at least eight seconds after the last one. */
  lemma OneMoreBeat(a: Account, ev: Event, times: seq<int>)
    requires Spaced(times) && (times != [] ==> a.lastHeartbeatAt == Some(times[|times| - 1]))
    ensures var b := Answer(a, ev);
            if ev.Heartbeat? && ReplyTo(a, ev) == Done
            then Spaced(times + [ev.now]) && b.lastHeartbeatAt == Some(ev.now)
            else b.lastHeartbeatAt == a.lastHeartbeatAt
  {
    hide ClaimGpuReply, ClaimVideoReply, Releases;
  }

  lemma {:induction false} SpacedIsSparse(times: seq<int>, i: nat, j: nat)
    requires Spaced(times) && i <= j < |times|
    ensures times[i] + HEARTBEAT_MS * (j - i) <= times[j]
  {
    if i == j {
    } else {
      SpacedIsSparse(times, i, j - 1);
      assert times[j - 1] + HEARTBEAT_MS <= times[j - 1 + 1];
    }
  }

  /** How many of some times lie in a stretch, its ends included. */
  function Within(times: seq<int>, from: int, to: int): nat {
    if times == [] then 0
    else Within(times[..|times| - 1], from, to) + (if from <= times[|times| - 1] <= to then 1 else 0)
  }

  /** Cutting off what is later than all times, or beginning after them, changes nothing or leaves none. */
  lemma {:induction false} WithinUpTo(times: seq<int>, from: int, to: int, last: int)
    requires last <= to && forall i :: 0 <= i < |times| ==> times[i] <= last
    ensures Within(times, from, to) == Within(times, from, last)
    ensures last < from ==> Within(times, from, to) == 0
  {
    if times == [] {
    } else {
      WithinUpTo(times[..|times| - 1], from, to, last);
    }
  }

  lemma {:induction false} SpacedIsSparseWithin(times: seq<int>, from: int, to: int)
    requires Spaced(times) && from <= to
    ensures Within(times, from, to) <= (to - from) / HEARTBEAT_MS + 1
  {
    if times == [] {
    } else {
      var rest, last := times[..|times| - 1], times[|times| - 1];
      if from <= last <= to {
        var before := last - HEARTBEAT_MS;
        forall i | 0 <= i < |rest| ensures rest[i] <= before {
          SpacedIsSparse(times, i, |times| - 1);
        }
        WithinUpTo(rest, from, to, before);
        if from <= before {
          SpacedIsSparseWithin(rest, from, before);
        }
      } else {
        SpacedIsSparseWithin(rest, from, to);
      }
    }
  }

  /** Any stretch of T milliseconds, wherever it begins, sees at most T / 8000 + 1 accepted heartbeats, in
      every timely run. */
  lemma HeartbeatRate(a: Account, start: int, run: seq<Event>, from: int, T: nat)
    requires Fair(a, start) && Timely(start, run)
    ensures Within(Beats(a, run, None), from, from + T) <= T / HEARTBEAT_MS + 1
  {
    BeatsAreSpaced(a, start, run);
    SpacedIsSparseWithin(Beats(a, run, None), from, from + T);
  }

  // ---------- from the start ----------

  /** A user before the first request. */
  function NewUser(): Account {
    Account(None, 0, 0, [], [])
  }

  /** Every reachable account: what was earned is what is left plus what was spent, and the limits hold. */
  lemma FromStart(start: int, run: seq<Event>)
    requires Timely(start, run)
    ensures var b := After(NewUser(), run);
            && Fair(b, Latest(start, run))
            && b.autoSeconds + GPU_COST * ClaimedGpus(b.gpus)
               == HEARTBEAT_SECONDS * |Beats(NewUser(), run, Some(AutoMining))|
            && b.ytSeconds + VIDEO_COST * |b.grants| == HEARTBEAT_SECONDS * |Beats(NewUser(), run, Some(Youtube))|
  {
    assert Fair(NewUser(), start);
    RunConserves(NewUser(), start, run);
  }

  // ---------- requests that overlap ----------

  /** A row that is claimed already gets a new date and is counted once, as before. */
  lemma {:induction false} ClaimedAgain(gpus: seq<Gpu>, id: nat, now: int)
    requires id < |gpus|
    ensures ClaimedGpus(gpus[id := gpus[id].(claimedAt := Some(now))]) ==
              ClaimedGpus(gpus) + (if gpus[id].claimedAt.None? then 1 else 0)
  {
    var after := gpus[id := gpus[id].(claimedAt := Some(now))];
    var rest := gpus[..|gpus| - 1];
    if id == |gpus| - 1 {
      assert after[..|gpus| - 1] == rest;
    } else {
      ClaimedAgain(rest, id, now);
      assert after[..|gpus| - 1] == rest[id := rest[id].(claimedAt := Some(now))];
    }
  }

  /** The writes of a GPU claim do not look again. On whatever the account has become they keep its credit
      from going negative exactly if it still covers the cost, what is left plus what was spent exactly if
      the row is still unclaimed, and then the daily limit exactly if no day around the claim is full. */
  lemma GpuWriteIff(a: Account, now: int, id: nat)
    requires id < |a.gpus|
    ensures var b := GpuClaimed(a, now, id);
            && (b.autoSeconds >= 0 <==> a.autoSeconds >= GPU_COST)
            && (b.autoSeconds + GPU_COST * ClaimedGpus(b.gpus) == a.autoSeconds + GPU_COST * ClaimedGpus(a.gpus)
                <==> a.gpus[id].claimedAt.None?)
            && (a.gpus[id].claimedAt.None? && (forall from :: ClaimsIn(a.gpus, from) <= GPU_DAILY_LIMIT) ==>
                 ((forall from :: ClaimsIn(b.gpus, from) <= GPU_DAILY_LIMIT) <==>
                  (forall from :: from < now <= from + DAY_MS ==> ClaimsIn(a.gpus, from) < GPU_DAILY_LIMIT)))
  {
    hide ClaimedGpus, Claims;
    var b := GpuClaimed(a, now, id);
    ClaimedAgain(a.gpus, id, now);
    if a.gpus[id].claimedAt.None? {
      forall from
        ensures ClaimsIn(b.gpus, from) == ClaimsIn(a.gpus, from) + (if from < now <= from + DAY_MS then 1 else 0)
      {
        ClaimsUpdate(a.gpus, id, now, from, from + DAY_MS);
      }
    }
  }

  /** Nor do those of a video claim. */
  lemma VideoWriteIff(a: Account, createdAt: int)
    ensures var b := VideoGranted(a, createdAt);
            && (b.ytSeconds >= 0 <==> a.ytSeconds >= VIDEO_COST)
            && b.ytSeconds + VIDEO_COST * |b.grants| == a.ytSeconds + VIDEO_COST * |a.grants|
            && ((forall from :: GrantsIn(a.grants, from) <= VIDEO_DAILY_HASH) ==>
                 ((forall from :: GrantsIn(b.grants, from) <= VIDEO_DAILY_HASH) <==>
                  (forall from :: from < createdAt <= from + DAY_MS ==>
                     GrantsIn(a.grants, from) + VIDEO_HASH <= VIDEO_DAILY_HASH)))
  {
    hide Granted;
    forall from
      ensures GrantsIn(VideoGranted(a, createdAt).grants, from) ==
                GrantsIn(a.grants, from) + (if from < createdAt <= from + DAY_MS then VIDEO_HASH else 0.0)
    {
      GrantedAppend(a.grants, Grant(createdAt, VIDEO_HASH), from, from + DAY_MS);
    }
  }

  /** Two overlapping claims of one GPU, each accepted on a credit that covers one: the credit ends at minus
      the cost, and one GPU has been claimed. */
  lemma OverlappingClaimsOverdraw(a: Account, now: int, later: int, id: nat)
    requires ClaimGpuReply(a, now, Some(id)) == ClaimGpuReply(a, later, Some(id)) == Done && a.autoSeconds == GPU_COST
    ensures var b := GpuClaimed(GpuClaimed(a, now, id), later, id);
            b.autoSeconds == -GPU_COST && ClaimedGpus(b.gpus) == ClaimedGpus(a.gpus) + 1
  {
    ClaimedAgain(a.gpus, id, now);
    ClaimedAgain(GpuClaimed(a, now, id).gpus, id, later);
  }
}
