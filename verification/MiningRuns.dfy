/** Whole runs of the mining engine: what is conserved, how fast it can emit, what its block
    history holds and what its work counters mean, after any sequence of operations. */
module MiningRuns {
  import opened Common
  import opened JsMaps
  import opened MiningState
  import opened MiningLaws

  /** One operation on the engine, with the answers it gets from outside. */
  datatype Event =
    | JoinEvent(id: MinerId, userId: nat, profile: Option<Profile>)
    | ReloadEvent(userId: nat, profile: Option<Profile>)
    | ActiveEvent(id: MinerId, active: bool)
    | BoostEvent(id: MinerId, now: int)
    | UpgradeEvent(id: MinerId)
    | DeltaEvent(userId: nat, delta: real)
    | PersistedEvent(id: MinerId)
    | TickEvent(clock: Clock)

  /** persistMinerProfile has finished: the balance now counts as persisted. */
  function MarkPersisted(m: MinerState): MinerState {
    m.(lastPersistedBalance := m.balance)
  }

  ghost function Apply(e: Engine, ev: Event): Engine {
    match ev
    case JoinEvent(id, userId, profile) => Join(e, id, userId, profile)
    case ReloadEvent(userId, profile) => Reload(e, userId, profile)
    case ActiveEvent(id, active) => SetActive(e, id, active)
    case BoostEvent(id, now) => ApplyBoost(e, id, now)
    case UpgradeEvent(id) => UpgradeRig(e, id)
    case DeltaEvent(userId, delta) => ApplyDelta(e, userId, delta)
    case PersistedEvent(id) => if id in e.miners.m then Put(e, id, MarkPersisted(e.miners.m[id])) else e
    case TickEvent(c) => Ticked(e, c)
  }

  ghost function After(start: int, run: seq<Event>): Engine {
    if run == [] then NewEngine(start) else Apply(After(start, run[..|run| - 1]), run[|run| - 1])
  }

  /** The latest reading of the clock. */
  ghost function Latest(start: int, run: seq<Event>): int {
    if run == [] then start
    else
      var ev := run[|run| - 1];
      if ev.TickEvent? then ev.clock.closed else Latest(start, run[..|run| - 1])
  }

  predicate ProfileFits(profile: Option<Profile>) {
    profile.Some? ==> profile.value.baseHashRate >= 0.0
  }

  /** What the world guarantees of one event: identifiers are fresh, hash rates read from the
      database are not negative, and the clock does not run backwards. */
  ghost predicate Fits(e: Engine, latest: int, ev: Event) {
    match ev
    case JoinEvent(id, _, profile) => id !in e.miners.m && ProfileFits(profile)
    case ReloadEvent(_, profile) => ProfileFits(profile)
    case TickEvent(c) => latest <= c.now <= c.recorded <= c.closed
    case _ => true
  }

  ghost predicate Legal(start: int, run: seq<Event>) {
    run == [] ||
    (var before := run[..|run| - 1];
     Legal(start, before) && Fits(After(start, before), Latest(start, before), run[|run| - 1]))
  }

  // ---------- what a run has done so far ----------

  /** An event that closes a block with work in it. */
  ghost predicate Pays(e: Engine, ev: Event) {
    ev.TickEvent? && Closes(e, ev.clock.now) && Total(Worked(e, ev.clock.now).roundWork) > 0.0
  }

  ghost function PayingBlocks(start: int, run: seq<Event>): nat {
    if run == [] then 0
    else PayingBlocks(start, run[..|run| - 1]) + (if Pays(After(start, run[..|run| - 1]), run[|run| - 1]) then 1 else 0)
  }

  /** What miners had mined before they joined this engine. */
  ghost function MinedBefore(start: int, run: seq<Event>): real {
    if run == [] then 0.0
    else
      var before, ev := run[..|run| - 1], run[|run| - 1];
      MinedBefore(start, before) +
      (if ev.JoinEvent? && FindMiner(After(start, before), ev.userId).None?
       then NewMiner(ev.userId, ev.profile).lifetimeMined else 0.0)
  }

  ghost function Lifetimes(miners: map<MinerId, MinerState>): map<MinerId, real> {
    map id | id in miners :: miners[id].lifetimeMined
  }

  ghost function LifetimeMined(e: Engine): real {
    Sum(e.miners.keys, Lifetimes(e.miners.m))
  }

  // ---------- invariants ----------

  ghost predicate MinerFits(m: MinerState) {
    m.baseHashRate >= 0.0 && m.boostMultiplier > 0.0
  }

  /** The engine's own consistency, whatever it has been used for. */
  ghost predicate Consistent(e: Engine) {
    && InStep(e)
    && NoNegative(e.roundWork.m)
    && (forall id :: id in e.miners.m ==> MinerFits(e.miners.m[id]))
    && e.nextBlockAt == e.blockStartedAt + BLOCK_DURATION_MS
    && e.blockNumber >= 1
  }

  lemma HashRateNotNegative(m: MinerState)
    requires MinerFits(m)
    ensures HashRate(m) >= 0.0
  {
  }

  /** Changing a known miner within its range keeps the engine consistent; keeping its lifetime
      total keeps everyone's. */
  lemma PutKeeps(e: Engine, id: MinerId, m: MinerState)
    requires Consistent(e) && id in e.miners.m && MinerFits(m)
    ensures Consistent(Put(e, id, m))
    ensures m.lifetimeMined == e.miners.m[id].lifetimeMined ==> LifetimeMined(Put(e, id, m)) == LifetimeMined(e)
  {
    ListsSame(e.miners.keys, e.miners.m, Put(e, id, m).miners.m);
    if m.lifetimeMined == e.miners.m[id].lifetimeMined {
      SumDependsOnValues(e.miners.keys, Lifetimes(e.miners.m), Lifetimes(Put(e, id, m).miners.m));
    }
  }

  lemma AddKeeps(e: Engine, id: MinerId, userId: nat, profile: Option<Profile>)
    requires Consistent(e) && id !in e.miners.m && ProfileFits(profile)
    ensures Consistent(AddMiner(e, id, userId, profile))
    ensures LifetimeMined(AddMiner(e, id, userId, profile)) == LifetimeMined(e)
            + NewMiner(userId, profile).lifetimeMined
  {
    hide Sum;
    NewKeyIsNew(e, id);
    e.miners.SetKeepsValid(id, NewMiner(userId, profile));
    e.roundWork.SetKeepsValid(id, 0.0);
    AddLifetime(e, id, NewMiner(userId, profile));
  }

  lemma NewKeyIsNew(e: Engine, id: MinerId)
    requires InStep(e) && id !in e.miners.m
    ensures id !in e.roundWork.m
  {
    assert id in e.roundWork.keys <==> id in e.miners.keys;
  }

  lemma AddLifetime(e: Engine, id: MinerId, m: MinerState)
    requires id !in e.miners.m && e.miners.Valid()
    ensures LifetimeMined(Put(e, id, m)) == LifetimeMined(e) + m.lifetimeMined
  {
    var keys := e.miners.keys + [id];
    assert keys[..|keys| - 1] == e.miners.keys;
    SumDependsOnValues(e.miners.keys, Lifetimes(e.miners.m), Lifetimes(Put(e, id, m).miners.m));
  }

  lemma WorkedKeeps(e: Engine, now: int)
    requires Consistent(e)
    ensures Consistent(Worked(e, now))
    ensures LifetimeMined(Worked(e, now)) == LifetimeMined(e)
  {
    var w := Worked(e, now);
    WorkedStaysInStep(e, now);
    forall id | id in w.roundWork.m ensures w.roundWork.m[id] >= 0.0 {
      if id in e.miners.m {
        HashRateNotNegative(BoostExpired(e.miners.m[id], now));
      }
    }
    SumDependsOnValues(e.miners.keys, Lifetimes(e.miners.m), Lifetimes(w.miners.m));
  }

  lemma {:induction false} SumsAdd(keys: seq<MinerId>, a: map<MinerId, real>, b: map<MinerId, real>,
                                   c: map<MinerId, real>)
    requires forall id :: id in keys ==> Amount(c, id) == Amount(a, id) + Amount(b, id)
    ensures Sum(keys, c) == Sum(keys, a) + Sum(keys, b)
  {
    if keys == [] {
    } else {
      SumsAdd(keys[..|keys| - 1], a, b, c);
    }
  }

  /** Closing a block credits to lifetimes exactly what it mints: the reward if there was work, else nothing. */
  lemma DistributedKeeps(e: Engine, c: Clock)
    requires Consistent(e)
    ensures Consistent(Distributed(e, c))
    ensures Distributed(e, c).totalMinted == e.totalMinted + (if Total(e.roundWork) > 0.0 then REWARD_BASE else 0.0)
    ensures LifetimeMined(Distributed(e, c)) - LifetimeMined(e) == Distributed(e, c).totalMinted - e.totalMinted
  {
    DistributedStaysInStep(e, c);
    var d := Distributed(e, c);
    if Total(e.roundWork) > 0.0 {
      PayoutIff(e, c);
      assert forall id :: id in e.roundWork.m <==> id in e.roundWork.keys;
      SumsAdd(e.miners.keys, Lifetimes(e.miners.m), Shares(e.roundWork.m, Total(e.roundWork)), Lifetimes(d.miners.m));
    }
  }

  lemma TickedKeeps(e: Engine, c: Clock)
    requires Consistent(e)
    ensures Consistent(Ticked(e, c))
    ensures Ticked(e, c).totalMinted == e.totalMinted + (if Pays(e, TickEvent(c)) then REWARD_BASE else 0.0)
    ensures LifetimeMined(Ticked(e, c)) - LifetimeMined(e) == Ticked(e, c).totalMinted - e.totalMinted
    ensures Ticked(e, c).blockNumber == e.blockNumber + (if Closes(e, c.now) then 1 else 0)
    ensures Ticked(e, c).blockStartedAt == if Closes(e, c.now) then c.closed else e.blockStartedAt
  {
    hide Worked, Distributed, LifetimeMined, Total;
    WorkedKeeps(e, c.now);
    WorkedBlock(e, c.now);
    if Closes(e, c.now) {
      DistributedKeeps(Worked(e, c.now), c);
      DistributedBlock(Worked(e, c.now), c);
    }
    TickedFields(e, c);
  }

  /** Working leaves the block bookkeeping alone; distributing opens the next block. */
  lemma WorkedBlock(e: Engine, now: int)
    ensures var w := Worked(e, now);
            w.blockNumber == e.blockNumber && w.blockStartedAt == e.blockStartedAt && w.totalMinted == e.totalMinted &&
            w.blockHistory == e.blockHistory
  {
  }

  lemma DistributedBlock(e: Engine, c: Clock)
    ensures var d := Distributed(e, c);
            d.blockNumber == e.blockNumber + 1 && d.blockStartedAt == c.closed &&
              d.nextBlockAt == c.closed + BLOCK_DURATION_MS
  {
  }

  lemma TickedFields(e: Engine, c: Clock)
    ensures var after := if Closes(e, c.now) then Distributed(Worked(e, c.now), c) else Worked(e, c.now);
            && Ticked(e, c) == after.(blockProgress := Ticked(e, c).blockProgress)
            && LifetimeMined(Ticked(e, c)) == LifetimeMined(after)
            && (Consistent(after) ==> Consistent(Ticked(e, c)))
  {
    hide Worked, Distributed;
  }

  /** What every operation other than a tick keeps. */
  lemma OtherKeeps(e: Engine, ev: Event, latest: int)
    requires Consistent(e) && Fits(e, latest, ev) && !ev.TickEvent?
    ensures Consistent(Apply(e, ev))
    ensures LifetimeMined(Apply(e, ev)) == LifetimeMined(e) +
              (if ev.JoinEvent? && FindMiner(e, ev.userId).None? then NewMiner(ev.userId, ev.profile).lifetimeMined
               else 0.0)
    ensures var a := Apply(e, ev);
            a.totalMinted == e.totalMinted && a.blockNumber == e.blockNumber && a.blockStartedAt == e.blockStartedAt &&
            a.blockHistory == e.blockHistory
  {
    hide LifetimeMined, Consistent;
    ConsistentMiners(e);
    match ev
    case JoinEvent(id, userId, profile) =>
      match FindMiner(e, userId) {
        case Some(known) =>
          if profile.Some? {
            PutKeeps(e, known, MergeProfile(e.miners.m[known], profile.value));
          }
        case None => AddKeeps(e, id, userId, profile);
      }
    case ReloadEvent(userId, profile) =>
      if FindMiner(e, userId).Some? && profile.Some? {
        var id := FindMiner(e, userId).value;
        PutKeeps(e, id, MergeProfile(e.miners.m[id], profile.value));
      }
    case ActiveEvent(id, active) => if id in e.miners.m { PutKeeps(e, id, e.miners.m[id].(active := active)); }
    case BoostEvent(id, now) => if id in e.miners.m { PutKeeps(e, id, Boosted(e.miners.m[id], now)); }
    case UpgradeEvent(id) => if id in e.miners.m { PutKeeps(e, id, Upgraded(e.miners.m[id])); }
    case DeltaEvent(userId, delta) =>
      if FindMiner(e, userId).Some? {
        var id := FindMiner(e, userId).value;
        PutKeeps(e, id, Credited(e.miners.m[id], delta));
      }
    case PersistedEvent(id) => if id in e.miners.m { PutKeeps(e, id, MarkPersisted(e.miners.m[id])); }
  }

  lemma ConsistentMiners(e: Engine)
    requires Consistent(e)
    ensures forall id :: id in e.miners.m ==> MinerFits(e.miners.m[id])
  {
  }

  // ---------- the main results ----------

  /** Reward conservation and emission, at every point of every legal run:
      - the two maps stay in step and no work is negative;
      - the total minted is the block reward times the number of blocks closed with work, and what
        all miners have mined is that plus what they had mined before they joined;
      - blocks take at least their duration, so the number of blocks ever closed is bounded by time. */
  lemma {:induction false} RunConserves(start: int, run: seq<Event>)
    requires Legal(start, run)
    ensures var e := After(start, run);
            && Consistent(e)
            && e.totalMinted == REWARD_BASE * (PayingBlocks(start, run) as real)
            && LifetimeMined(e) == e.totalMinted + MinedBefore(start, run)
            && PayingBlocks(start, run) <= e.blockNumber - 1
            && (e.blockNumber - 1) * BLOCK_DURATION_MS <= e.blockStartedAt - start
            && e.blockStartedAt <= Latest(start, run)
  {
    hide Consistent, LifetimeMined, Apply, Pays, FindMiner, NewMiner;
    if run == [] {
      NewIsConsistent(start);
    } else {
      var before, ev := run[..|run| - 1], run[|run| - 1];
      RunConserves(start, before);
      EventKeeps(After(start, before), ev, Latest(start, before));
      OneMorePaid(PayingBlocks(start, before));
    }
  }

  lemma OneMorePaid(blocks: nat)
    ensures REWARD_BASE * ((blocks + 1) as real) == REWARD_BASE * (blocks as real) + REWARD_BASE
  {
  }

  /** What one event does to everything a run conserves. */
  lemma EventKeeps(e: Engine, ev: Event, latest: int)
    requires Consistent(e) && Fits(e, latest, ev)
    ensures var a := Apply(e, ev);
            && Consistent(a)
            && a.totalMinted == e.totalMinted + (if Pays(e, ev) then REWARD_BASE else 0.0)
            && LifetimeMined(a) - LifetimeMined(e) == a.totalMinted - e.totalMinted +
                 (if ev.JoinEvent? && FindMiner(e, ev.userId).None? then NewMiner(ev.userId, ev.profile).lifetimeMined
                  else 0.0)
            && (Pays(e, ev) ==> a.blockNumber == e.blockNumber + 1)
            && ((a.blockNumber == e.blockNumber && a.blockStartedAt == e.blockStartedAt) ||
                (ev.TickEvent? && a.blockNumber == e.blockNumber + 1 &&
                 e.blockStartedAt + BLOCK_DURATION_MS <= a.blockStartedAt == ev.clock.closed))
  {
    hide Consistent, LifetimeMined, Ticked, Pays;
    NextBlockIsDue(e);
    if ev.TickEvent? {
      TickedKeeps(e, ev.clock);
      PaysOnlyOnClose(e, ev.clock);
    } else {
      OtherKeeps(e, ev, latest);
      PaysNeedsTick(e, ev);
    }
  }

  lemma NewIsConsistent(start: int)
    ensures Consistent(NewEngine(start)) && LifetimeMined(NewEngine(start)) == 0.0
  {
  }

  lemma NextBlockIsDue(e: Engine)
    requires Consistent(e)
    ensures e.nextBlockAt == e.blockStartedAt + BLOCK_DURATION_MS
  {
  }

  lemma PaysOnlyOnClose(e: Engine, c: Clock)
    ensures Pays(e, TickEvent(c)) ==> Closes(e, c.now)
  {
  }

  lemma PaysNeedsTick(e: Engine, ev: Event)
    ensures Pays(e, ev) ==> ev.TickEvent?
  {
  }

  /** The emission bound: at any time `t` not before the last clock reading, no more has been minted
      than one block reward for every full block duration since the start. */
  lemma EmissionBound(start: int, run: seq<Event>, t: int)
    requires Legal(start, run) && Latest(start, run) <= t
    ensures After(start, run).totalMinted <= 0.30 * (((t - start) / 600_000) as real)
  {
    hide Consistent, LifetimeMined, After, Legal, Latest, PayingBlocks, MinedBefore;
    RunConserves(start, run);
    RoundDown(PayingBlocks(start, run), t - start);
  }

  lemma RoundDown(blocks: nat, elapsed: int)
    requires blocks * BLOCK_DURATION_MS <= elapsed
    ensures REWARD_BASE * (blocks as real) <= REWARD_BASE * ((elapsed / BLOCK_DURATION_MS) as real)
  {
    assert blocks <= elapsed / BLOCK_DURATION_MS;
  }

  // ---------- a failed persistence, in any state ----------

  /** Undoing one line of a payload takes as much from the total minted as from the lifetime totals exactly
      when its miner has mined nothing since; a reward of a later block is lost from its lifetime total. */
  lemma RollBackConservesIff(e: Engine, r: MinerReward)
    requires e.miners.Valid()
    ensures var undone := RollBackLine(e, r);
            LifetimeMined(undone) - undone.totalMinted == LifetimeMined(e) - e.totalMinted
            <==> (r.minerId in e.miners.m ==> e.miners.m[r.minerId].lifetimeMined == r.lifetimeMined)
  {
    if r.minerId in e.miners.m {
      var lifetimes, left := Lifetimes(e.miners.m), r.lifetimeMined - r.rewardAmount;
      SumAfterChange(e.miners.keys, lifetimes, r.minerId, left);
      assert Lifetimes(RollBackLine(e, r).miners.m) == lifetimes[r.minerId := left];
    }
  }

  // ---------- when a block closes ----------

  lemma {:induction false} PositiveIff(keys: seq<MinerId>, m: map<MinerId, real>)
    requires forall id :: id in keys ==> Amount(m, id) >= 0.0
    ensures Sum(keys, m) >= 0.0
    ensures Sum(keys, m) > 0.0 <==> exists id :: id in keys && Amount(m, id) > 0.0
  {
    if keys == [] {
    } else {
      var rest, id := keys[..|keys| - 1], keys[|keys| - 1];
      assert keys == rest + [id];
      PositiveIff(rest, m);
    }
  }

  /** The work a miner has once this tick has counted. */
  ghost function WorkAt(e: Engine, id: MinerId, now: int): real {
    Amount(e.roundWork.m, id) + RateAt(e, id, now)
  }

  /** A tick closes the block exactly when its ten minutes are over; it then mints 0.30 exactly when some
      miner has worked, and otherwise nothing. */
  lemma TickClosesIff(e: Engine, c: Clock)
    requires Consistent(e)
    ensures var r, due := Ticked(e, c), c.now - e.blockStartedAt >= 600_000;
            && r.blockNumber == (if due then e.blockNumber + 1 else e.blockNumber)
            && r.totalMinted == e.totalMinted +
                 (if due && exists id :: id in e.miners.m && WorkAt(e, id, c.now) > 0.0 then 0.30 else 0.0)
  {
    hide Sum, Ticked, LifetimeMined;
    TickedKeeps(e, c);
    WorkedKeeps(e, c.now);
    var w := Worked(e, c.now);
    forall id ensures id in w.roundWork.keys <==> id in e.miners.m {
      assert id in e.miners.keys <==> id in e.miners.m;
    }
    forall id | id in e.miners.m ensures Amount(w.roundWork.m, id) == WorkAt(e, id, c.now) >= 0.0 {
      WorkIsKnown(e, id);
      WorkedWork(e, c.now, id);
    }
    PositiveIff(w.roundWork.keys, w.roundWork.m);
  }

  /** The record of a closed block: its number, the clock, how many miners had a hash rate, and the reward if
      there was work; the older records follow. */
  lemma ClosedBlockRecord(e: Engine, c: Clock)
    requires Closes(e, c.now)
    ensures var history := Ticked(e, c).blockHistory;
            && |history| == (if |e.blockHistory| >= 12 then 12 else |e.blockHistory| + 1)
            && history[0].blockNumber == e.blockNumber && history[0].timestamp == c.recorded
            && history[0].minerCount == CountPositive(e.miners.keys, Rates(e.miners.m, c.now))
            && history[0].reward == (if Total(Worked(e, c.now).roundWork) > 0.0 then 0.30 else 0.0)
            && (forall i :: 0 < i < |history| ==> i - 1 < |e.blockHistory| && history[i] == e.blockHistory[i - 1])
  {
    hide Sum, Total, CountPositive, UserRewards, Rates;
  }

  // ---------- block history ----------

  /** Every user that joins is a real one: id 0 is the falsy id that is never found again. */
  predicate NamedUsers(run: seq<Event>) {
    forall i :: 0 <= i < |run| && run[i].JoinEvent? ==> run[i].userId != 0
  }

  /** Each miner is the one the user index finds for its user. */
  ghost predicate OnePerUser(e: Engine) {
    forall id :: id in e.miners.m ==>
      e.miners.m[id].userId != 0 && e.miners.m[id].userId in e.minersByUserId &&
        e.minersByUserId[e.miners.m[id].userId] == id
  }

  /** The last twelve closed blocks, newest first, numbered without gaps, each with rewards by user
      that add up to what the block paid. */
  ghost predicate GoodHistory(e: Engine) {
    && e.blockNumber >= 1
    && |e.blockHistory| == (if e.blockNumber - 1 < HISTORY_LENGTH then e.blockNumber - 1 else HISTORY_LENGTH)
    && (forall i :: 0 <= i < |e.blockHistory| ==>
          && e.blockHistory[i].blockNumber == e.blockNumber - 1 - i
          && Total(e.blockHistory[i].userRewards) == e.blockHistory[i].reward)
  }

  lemma OnePerUserEarnersDiffer(e: Engine)
    requires Consistent(e) && OnePerUser(e)
    ensures EarnersDiffer(e.miners.keys, e.miners.m, e.roundWork.m)
  {
  }

  /** Closing a block records it with rewards that add up. */
  lemma DistributedHistory(e: Engine, c: Clock)
    requires Consistent(e) && OnePerUser(e) && GoodHistory(e)
    ensures GoodHistory(Distributed(e, c)) && OnePerUser(Distributed(e, c))
  {
    var d := Distributed(e, c);
    if Total(e.roundWork) > 0.0 {
      DistributedKeeps(e, c);
      OnePerUserEarnersDiffer(e);
      RecordAddsUp(e);
    }
    RecordedHistory(e, d);
  }

  lemma RecordAddsUp(e: Engine)
    requires Consistent(e) && Total(e.roundWork) > 0.0 && EarnersDiffer(e.miners.keys, e.miners.m, e.roundWork.m)
    ensures Total(UserRewards(e.miners.keys, e.miners.m, e.roundWork.m, Total(e.roundWork))) == REWARD_BASE
  {
    var c := Clock(0, 0, 0);
    DistributedKeeps(e, c);
    UserRewardsIff(e.miners.keys, e.miners.m, e.roundWork.m, Total(e.roundWork));
  }

  lemma RecordedHistory(e: Engine, d: Engine)
    requires GoodHistory(e) && d.blockNumber == e.blockNumber + 1
    requires |d.blockHistory| > 0 && d.blockHistory == Truncated([d.blockHistory[0]] + e.blockHistory)
    requires d.blockHistory[0].blockNumber == e.blockNumber
    requires Total(d.blockHistory[0].userRewards) == d.blockHistory[0].reward
    ensures GoodHistory(d)
  {
    hide Total;
  }

  lemma TickedHistory(e: Engine, c: Clock)
    requires Consistent(e) && OnePerUser(e) && GoodHistory(e)
    ensures GoodHistory(Ticked(e, c)) && OnePerUser(Ticked(e, c))
  {
    hide Total, Distributed, Consistent;
    var w := Worked(e, c.now);
    WorkedKeeps(e, c.now);
    assert OnePerUser(w) && GoodHistory(w);
    if Closes(e, c.now) {
      DistributedHistory(w, c);
    }
  }

  lemma PutOnePerUser(e: Engine, id: MinerId, m: MinerState)
    requires OnePerUser(e) && id in e.miners.m && m.userId == e.miners.m[id].userId
    ensures OnePerUser(Put(e, id, m))
  {
  }

  lemma AddOnePerUser(e: Engine, id: MinerId, userId: nat, profile: Option<Profile>)
    requires OnePerUser(e) && id !in e.miners.m && userId != 0 && FindMiner(e, userId).None?
    ensures OnePerUser(AddMiner(e, id, userId, profile))
  {
  }

  lemma OtherHistory(e: Engine, ev: Event, latest: int)
    requires Consistent(e) && Fits(e, latest, ev) && !ev.TickEvent? && OnePerUser(e) && GoodHistory(e)
    requires ev.JoinEvent? ==> ev.userId != 0
    ensures GoodHistory(Apply(e, ev)) && OnePerUser(Apply(e, ev))
  {
    hide Total, Consistent, OnePerUser;
    OtherKeeps(e, ev, latest);
    match ev
    case JoinEvent(id, userId, profile) =>
      match FindMiner(e, userId) {
        case Some(known) =>
          if profile.Some? {
            PutOnePerUser(e, known, MergeProfile(e.miners.m[known], profile.value));
          }
        case None => AddOnePerUser(e, id, userId, profile);
      }
    case ReloadEvent(userId, profile) =>
      if FindMiner(e, userId).Some? && profile.Some? {
        var id := FindMiner(e, userId).value;
        PutOnePerUser(e, id, MergeProfile(e.miners.m[id], profile.value));
      }
    case ActiveEvent(id, active) => if id in e.miners.m { PutOnePerUser(e, id, e.miners.m[id].(active := active)); }
    case BoostEvent(id, now) => if id in e.miners.m { PutOnePerUser(e, id, Boosted(e.miners.m[id], now)); }
    case UpgradeEvent(id) => if id in e.miners.m { PutOnePerUser(e, id, Upgraded(e.miners.m[id])); }
    case DeltaEvent(userId, delta) =>
      if FindMiner(e, userId).Some? {
        var id := FindMiner(e, userId).value;
        PutOnePerUser(e, id, Credited(e.miners.m[id], delta));
      }
    case PersistedEvent(id) => if id in e.miners.m { PutOnePerUser(e, id, MarkPersisted(e.miners.m[id])); }
  }

  /** The block history, at every point of every legal run in which all users have an id. */
  lemma {:induction false} RunHistory(start: int, run: seq<Event>)
    requires Legal(start, run) && NamedUsers(run)
    ensures GoodHistory(After(start, run)) && OnePerUser(After(start, run))
  {
    hide Consistent, Ticked, GoodHistory, OnePerUser;
    if run == [] {
      NewHistory(start);
    } else {
      var before, ev := run[..|run| - 1], run[|run| - 1];
      RunHistory(start, before);
      RunConserves(start, before);
      if ev.TickEvent? {
        TickedHistory(After(start, before), ev.clock);
      } else {
        OtherHistory(After(start, before), ev, Latest(start, before));
      }
    }
  }

  lemma NewHistory(start: int)
    ensures GoodHistory(NewEngine(start)) && OnePerUser(NewEngine(start))
  {
  }

  // ---------- what work means ----------

  /** The hash rate a tick at `now` reads off a miner. */
  ghost function RateAt(e: Engine, id: MinerId, now: int): real {
    if id in e.miners.m then HashRate(BoostExpired(e.miners.m[id], now)) else 0.0
  }

  /** The hash rates read off a miner at the ticks since the running block was opened, added up. */
  ghost function RatesSinceBlock(start: int, run: seq<Event>, id: MinerId): real {
    if run == [] then 0.0
    else
      var before, ev := run[..|run| - 1], run[|run| - 1];
      if !ev.TickEvent? then RatesSinceBlock(start, before, id)
      else if Closes(After(start, before), ev.clock.now) then 0.0
      else RatesSinceBlock(start, before, id) + RateAt(After(start, before), id, ev.clock.now)
  }

  lemma TickedWork(e: Engine, c: Clock, id: MinerId)
    requires Consistent(e)
    ensures Amount(Ticked(e, c).roundWork.m, id) ==
            if Closes(e, c.now) then 0.0 else Amount(e.roundWork.m, id) + RateAt(e, id, c.now)
  {
    hide Total, UserRewards;
    WorkIsKnown(e, id);
  }

  lemma WorkIsKnown(e: Engine, id: MinerId)
    requires InStep(e)
    ensures id in e.roundWork.m <==> id in e.miners.m
  {
    assert id in e.roundWork.keys <==> id in e.miners.keys;
  }

  lemma OtherWork(e: Engine, ev: Event, latest: int, id: MinerId)
    requires Consistent(e) && Fits(e, latest, ev) && !ev.TickEvent?
    ensures Amount(Apply(e, ev).roundWork.m, id) == Amount(e.roundWork.m, id)
  {
    WorkIsKnown(e, id);
  }

  /** The work counter of every miner is exactly what its hash rates of the running block add up to. */
  lemma {:induction false} WorkIsRatesSinceBlock(start: int, run: seq<Event>, id: MinerId)
    requires Legal(start, run)
    ensures Amount(After(start, run).roundWork.m, id) == RatesSinceBlock(start, run, id)
  {
    hide Consistent, Ticked;
    if run == [] {
    } else {
      var before, ev := run[..|run| - 1], run[|run| - 1];
      WorkIsRatesSinceBlock(start, before, id);
      RunConserves(start, before);
      if ev.TickEvent? {
        TickedWork(After(start, before), ev.clock, id);
      } else {
        OtherWork(After(start, before), ev, Latest(start, before), id);
      }
    }
  }

  /** The part of the block reward that goes with a part of the work. */
  ghost function Portion(part: real, total: real): real {
    if total == 0.0 then 0.0 else REWARD_BASE * (part / total)
  }

  /** All hash rates read off each miner since the running block was opened, a tick at `now` included. */
  ghost function RoundRates(start: int, run: seq<Event>, now: int): map<MinerId, real> {
    var e := After(start, run);
    map id | id in e.miners.m :: RatesSinceBlock(start, run, id) + RateAt(e, id, now)
  }

  /** The work a closing tick divides by is the sum of all those rates over all miners. */
  lemma TotalIsAllRates(start: int, run: seq<Event>, now: int)
    requires Legal(start, run)
    ensures var e := After(start, run);
            Total(Worked(e, now).roundWork) == Sum(e.miners.keys, RoundRates(start, run, now))
  {
    hide Sum, RatesSinceBlock, RateAt, After, Legal, HashRate, BoostExpired;
    var e := After(start, run);
    RunConserves(start, run);
    WorkedKeeps(e, now);
    assert InStep(e);
    forall id | id in e.miners.keys
      ensures Amount(Worked(e, now).roundWork.m, id) == Amount(RoundRates(start, run, now), id)
    {
      WorkIsRatesSinceBlock(start, run, id);
      WorkIsKnown(e, id);
      WorkedWork(e, now, id);
    }
    SumDependsOnValues(e.miners.keys, Worked(e, now).roundWork.m, RoundRates(start, run, now));
  }

  lemma WorkedWork(e: Engine, now: int, id: MinerId)
    requires id in e.miners.m && id in e.roundWork.m
    ensures Amount(Worked(e, now).roundWork.m, id) == Amount(e.roundWork.m, id) + RateAt(e, id, now)
  {
    hide Sum, CountPositive;
  }

  /** A tick that closes a block with work pays every miner the reward times its part of all hash rates read
      off all miners since the block was opened, this tick's included, to its balance and its lifetime total alike. */
  lemma PaysByAccumulatedRate(start: int, run: seq<Event>, c: Clock, id: MinerId)
    requires Legal(start, run) && id in After(start, run).miners.m && Pays(After(start, run), TickEvent(c))
    ensures var e := After(start, run);
            var rates := RoundRates(start, run, c.now);
            && id in Ticked(e, c).miners.m
            && Ticked(e, c).miners.m[id] ==
                 Rewarded(BoostExpired(e.miners.m[id], c.now), Portion(rates[id], Sum(e.miners.keys, rates)))
  {
    hide Ticked, Pays, Total, Sum, RatesSinceBlock, LifetimeMined, Portion, Legal, Consistent, BoostExpired, HashRate,
         RateAt, Rewarded, Amount, After, Worked;
    AmountOfKnown(After(start, run).roundWork.m, id);
    var e := After(start, run);
    RunConserves(start, run);
    WorkIsRatesSinceBlock(start, run, id);
    RateNotNegative(e, id, c.now);
    PaidTick(e, c, id);
    TotalIsAllRates(start, run, c.now);
  }

  lemma AmountOfKnown(m: map<MinerId, real>, id: MinerId)
    ensures id in m ==> Amount(m, id) == m[id]
  {
  }

  lemma RateNotNegative(e: Engine, id: MinerId, now: int)
    requires Consistent(e) && id in e.miners.m
    ensures id in e.roundWork.m && e.roundWork.m[id] + RateAt(e, id, now) >= 0.0
  {
    WorkIsKnown(e, id);
    HashRateNotNegative(BoostExpired(e.miners.m[id], now));
  }

  lemma PaidTick(e: Engine, c: Clock, id: MinerId)
    requires id in e.miners.m && id in e.roundWork.m && Pays(e, TickEvent(c))
    requires e.roundWork.m[id] + RateAt(e, id, c.now) >= 0.0
    ensures var total := Total(Worked(e, c.now).roundWork);
            && id in Ticked(e, c).miners.m
            && Ticked(e, c).miners.m[id] ==
                 Rewarded(BoostExpired(e.miners.m[id], c.now), Portion(e.roundWork.m[id] + RateAt(e, id, c.now), total))
  {
    hide Total, Sum, UserRewards;
    ZeroShare(Total(Worked(e, c.now).roundWork));
  }

  lemma ZeroShare(total: real)
    requires total > 0.0
    ensures REWARD_BASE * (0.0 / total) == 0.0
  {
  }
}
