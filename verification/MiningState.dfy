/** The values the mining engine works on (server/src/miningEngine.js), what each of its
    operations makes of them, and what holds over whole runs. */
module MiningState {
  import opened Common
  import opened JsMaps

  type MinerId = nat

  const REWARD_BASE := 0.30
  const BLOCK_TARGET := 100.0
  const BLOCK_DURATION_MS := 600_000
  const HISTORY_LENGTH := 12
  const BOOST_COST := 0.35
  const BOOST_MULTIPLIER := 1.25
  const BOOST_MS := 30_000
  const RIG_HASH_RATE := 18.0

  datatype MinerState = MinerState(
    userId: nat, rigs: nat, baseHashRate: real, active: bool,
    boostMultiplier: real, boostEndsAt: int,
    balance: real, lastPersistedBalance: real, lifetimeMined: real)

  /** What the profile loader reads from the database. */
  datatype Profile = Profile(rigs: nat, baseHashRate: real, balance: real, lifetimeMined: real)

  datatype Block = Block(blockNumber: nat, reward: real, minerCount: nat, timestamp: int, userRewards: JsMap<nat, real>)

  /** The engine's fields; minersByUserId names the miner object by its id. */
  datatype Engine = Engine(
    blockNumber: nat, blockProgress: real, blockStartedAt: int, nextBlockAt: int,
    totalMinted: real, lastReward: real,
    roundWork: JsMap<MinerId, real>, miners: JsMap<MinerId, MinerState>, minersByUserId: map<nat, MinerId>,
    activeMiners: nat, networkHashRate: real, blockHistory: seq<Block>)

  /** The readings of the clock during one tick: at its start, when the block is recorded, when it is closed. */
  datatype Clock = Clock(now: int, recorded: int, closed: int)

  // ---------- operations ----------

  function NewEngine(now: int): Engine {
    Engine(1, 0.0, now, now + BLOCK_DURATION_MS, 0.0, 0.0, Empty(), Empty(), map[], 0, 0.0, [])
  }

  /** findMinerByUserId: the falsy user id 0 is never found. */
  function FindMiner(e: Engine, userId: nat): Option<MinerId> {
    if userId != 0 && userId in e.minersByUserId && e.minersByUserId[userId] in e.miners.m
    then Some(e.minersByUserId[userId]) else None
  }

  function OrOne(rigs: nat): nat {
    if rigs == 0 then 1 else rigs
  }

  /** Taking over a profile: the larger of the two balances wins, and then counts as persisted. */
  function MergeProfile(m: MinerState, p: Profile): MinerState {
    var m := m.(rigs := OrOne(p.rigs), baseHashRate := p.baseHashRate);
    if p.balance > m.balance then m.(balance := p.balance, lastPersistedBalance := p.balance) else m
  }

  function NewMiner(userId: nat, profile: Option<Profile>): MinerState {
    var p := if profile.Some? then profile.value else Profile(1, 0.0, 0.0, 0.0);
    MinerState(userId, OrOne(p.rigs), p.baseHashRate, true, 1.0, 0, p.balance, p.balance, p.lifetimeMined)
  }

  function Put(e: Engine, id: MinerId, m: MinerState): Engine {
    e.(miners := e.miners.Set(id, m))
  }

  /** A new miner under a fresh id, indexed by its user and with no work yet. */
  function AddMiner(e: Engine, id: MinerId, userId: nat, profile: Option<Profile>): Engine {
    e.(miners := e.miners.Set(id, NewMiner(userId, profile)),
       minersByUserId := e.minersByUserId[userId := id],
       roundWork := e.roundWork.Set(id, 0.0))
  }

  /** createOrGetMiner; `id` is the fresh identifier a new miner would get. */
  function Join(e: Engine, id: MinerId, userId: nat, profile: Option<Profile>): Engine
  {
    match FindMiner(e, userId)
    case Some(known) =>
      if profile.None? then e else Put(e, known, MergeProfile(e.miners.m[known], profile.value))
    case None => AddMiner(e, id, userId, profile)
  }

  /** reloadMinerProfile, once the loader has answered. */
  function Reload(e: Engine, userId: nat, profile: Option<Profile>): Engine
  {
    match FindMiner(e, userId)
    case Some(id) => if profile.None? then e else Put(e, id, MergeProfile(e.miners.m[id], profile.value))
    case None => e
  }

  function RigCost(m: MinerState): real {
    2.0 + ((m.rigs as int - 1) as real) * 0.8
  }

  function Boosted(m: MinerState, now: int): MinerState {
    if m.balance < BOOST_COST then m
    else m.(balance := m.balance - BOOST_COST, boostMultiplier := BOOST_MULTIPLIER, boostEndsAt := now + BOOST_MS)
  }

  function Upgraded(m: MinerState): MinerState {
    if m.balance < RigCost(m) then m
    else m.(balance := m.balance - RigCost(m), rigs := m.rigs + 1, baseHashRate := m.baseHashRate + RIG_HASH_RATE)
  }

  /** applyUserBalanceDelta on the miner found: the mirror of a change the database already has. */
  function Credited(m: MinerState, delta: real): MinerState {
    m.(balance := m.balance + delta, lastPersistedBalance := m.lastPersistedBalance + delta)
  }

  function SetActive(e: Engine, id: MinerId, active: bool): Engine {
    if id in e.miners.m then Put(e, id, e.miners.m[id].(active := active)) else e
  }

  function ApplyBoost(e: Engine, id: MinerId, now: int): Engine {
    if id in e.miners.m then Put(e, id, Boosted(e.miners.m[id], now)) else e
  }

  function UpgradeRig(e: Engine, id: MinerId): Engine {
    if id in e.miners.m then Put(e, id, Upgraded(e.miners.m[id])) else e
  }

  function ApplyDelta(e: Engine, userId: nat, delta: real): Engine
  {
    match FindMiner(e, userId)
    case Some(id) => Put(e, id, Credited(e.miners.m[id], delta))
    case None => e
  }

  function HashRate(m: MinerState): real {
    if m.active then m.baseHashRate * m.boostMultiplier else 0.0
  }

  function BoostExpired(m: MinerState, now: int): MinerState {
    if m.boostEndsAt > 0 && now >= m.boostEndsAt then m.(boostMultiplier := 1.0, boostEndsAt := 0) else m
  }

  /** Same keys in the same order, and sums over them make sense. */
  ghost predicate InStep(e: Engine) {
    && e.miners.Valid() && e.roundWork.Valid()
    && e.roundWork.keys == e.miners.keys
  }

  /** The hash rate every miner has at `now`, expired boosts aside. */
  ghost function Rates(miners: map<MinerId, MinerState>, now: int): map<MinerId, real> {
    map id | id in miners :: HashRate(BoostExpired(miners[id], now))
  }

  /** The counting part of a tick: expired boosts end, and every miner's work grows by its hash rate. */
  ghost function Worked(e: Engine, now: int): Engine
  {
    var rates := Rates(e.miners.m, now);
    e.(miners := e.miners.(m := map id | id in e.miners.m :: BoostExpired(e.miners.m[id], now)),
       roundWork := e.roundWork.(m := map id | id in e.roundWork.m :: e.roundWork.m[id] + Amount(rates, id)),
       networkHashRate := Sum(e.miners.keys, rates),
       activeMiners := CountPositive(e.miners.keys, rates))
  }

  /** How far the loop of tick has come: the first `n` miners are done, the others untouched. */
  ghost predicate WorkedUpTo(keys: seq<MinerId>, n: nat, before: map<MinerId, MinerState>, work: map<MinerId, real>,
                             after: map<MinerId, MinerState>, work': map<MinerId, real>, now: int)
  {
    && n <= |keys| && Lists(keys, before)
    && before.Keys == work.Keys == after.Keys == work'.Keys
    && (forall j :: 0 <= j < |keys| ==>
          after[keys[j]] == (if j < n then BoostExpired(before[keys[j]], now) else before[keys[j]]))
    && (forall j :: 0 <= j < |keys| ==>
          work'[keys[j]] == (if j < n then work[keys[j]] + Rates(before, now)[keys[j]] else work[keys[j]]))
  }

  lemma WorkedOneMore(keys: seq<MinerId>, n: nat, before: map<MinerId, MinerState>, work: map<MinerId, real>,
                      after: map<MinerId, MinerState>, work': map<MinerId, real>, now: int)
    requires WorkedUpTo(keys, n, before, work, after, work', now) && n < |keys|
    ensures var id := keys[n];
            && id in before && id in after && id in work && id in work'
            && after[id] == before[id] && work'[id] == work[id]
            && Amount(Rates(before, now), id) == HashRate(BoostExpired(before[id], now))
            && WorkedUpTo(keys, n + 1, before, work, after[id := BoostExpired(after[id], now)],
                          work'[id := work'[id] + HashRate(BoostExpired(after[id], now))], now)
  {
    assert keys[n] in keys;
  }

  lemma SameStep(e: Engine, e': Engine)
    requires InStep(e) && e'.miners == e.miners && e'.roundWork == e.roundWork
    ensures InStep(e')
  {
  }

  lemma WorkedNone(e: Engine, now: int)
    requires InStep(e)
    ensures e.roundWork.keys == e.miners.keys
    ensures WorkedUpTo(e.miners.keys, 0, e.miners.m, e.roundWork.m, e.miners.m, e.roundWork.m, now)
  {
    forall id ensures id in e.roundWork.m <==> id in e.miners.m {
      assert id in e.miners.keys <==> id in e.roundWork.keys;
    }
  }

  /** Once the loop is through, its results are those of the worked state. */
  lemma WorkedAll(e: Engine, after: map<MinerId, MinerState>, work': map<MinerId, real>, now: int)
    requires InStep(e)
    requires WorkedUpTo(e.miners.keys, |e.miners.keys|, e.miners.m, e.roundWork.m, after, work', now)
    ensures Worked(e, now) == e.(miners := JsMap(e.miners.keys, after), roundWork := JsMap(e.miners.keys, work'),
                                 networkHashRate := Sum(e.miners.keys, Rates(e.miners.m, now)),
                                 activeMiners := CountPositive(e.miners.keys, Rates(e.miners.m, now)))
    ensures InStep(Worked(e, now))
  {
    hide Sum, CountPositive;
    assert after == Worked(e, now).miners.m;
    assert work' == Worked(e, now).roundWork.m;
    WorkedStaysInStep(e, now);
  }

  lemma WorkedStaysInStep(e: Engine, now: int)
    requires InStep(e)
    ensures InStep(Worked(e, now))
  {
    hide Sum, CountPositive;
    ListsSame(e.miners.keys, e.miners.m, Worked(e, now).miners.m);
    ListsSame(e.roundWork.keys, e.roundWork.m, Worked(e, now).roundWork.m);
  }

  /** What a miner with work `w` out of `total` earns from a block; no work, no share. */
  function Share(w: real, total: real): real
    requires total > 0.0
  {
    if w > 0.0 then REWARD_BASE * (w / total) else 0.0
  }

  function Rewarded(m: MinerState, reward: real): MinerState {
    m.(balance := m.balance + reward, lastPersistedBalance := m.lastPersistedBalance + reward,
       lifetimeMined := m.lifetimeMined + reward)
  }

  function Zeroed(work: JsMap<MinerId, real>): JsMap<MinerId, real> {
    work.(m := map id | id in work.m :: 0.0)
  }

  /** The rewards of a block by user, as the loop records them: a later miner of the same user overwrites. */
  ghost function UserRewards(keys: seq<MinerId>, miners: map<MinerId, MinerState>, work: map<MinerId, real>,
                             total: real): JsMap<nat, real>
    requires total > 0.0
  {
    if keys == [] then Empty()
    else
      var rest, id := UserRewards(keys[..|keys| - 1], miners, work, total), keys[|keys| - 1];
      if id in miners && Amount(work, id) > 0.0 then rest.Set(miners[id].userId, Share(Amount(work, id), total))
      else rest
  }

  /** One line of the payload given to the persistence callback. */
  datatype MinerReward = MinerReward(minerId: MinerId, userId: nat, workAccumulated: real, rewardAmount: real,
                                     balanceAfter: real, lifetimeMined: real)

  function RewardLine(id: MinerId, m: MinerState, w: real, total: real): MinerReward
    requires total > 0.0
  {
    MinerReward(id, m.userId, w, Share(w, total), m.balance + Share(w, total), m.lifetimeMined + Share(w, total))
  }

  /** The lines for the miners with work, in iteration order. */
  ghost function Payload(keys: seq<MinerId>, miners: map<MinerId, MinerState>, work: map<MinerId, real>,
                         total: real): seq<MinerReward>
    requires total > 0.0
  {
    if keys == [] then []
    else
      var rest, id := Payload(keys[..|keys| - 1], miners, work, total), keys[|keys| - 1];
      if id in miners && Amount(work, id) > 0.0 then rest + [RewardLine(id, miners[id], Amount(work, id), total)]
      else rest
  }

  ghost function Shares(work: map<MinerId, real>, total: real): map<MinerId, real>
    requires total > 0.0
  {
    map id | id in work :: Share(work[id], total)
  }

  function Truncated(history: seq<Block>): seq<Block> {
    if |history| > HISTORY_LENGTH then history[..HISTORY_LENGTH] else history
  }

  /** Recording the block just mined and opening the next one (finalizeBlockDistribution). */
  function Closed(e: Engine, c: Clock, minerCount: nat, userRewards: JsMap<nat, real>): Engine {
    e.(blockHistory := Truncated([Block(e.blockNumber, e.lastReward, minerCount, c.recorded, userRewards)]
                                 + e.blockHistory),
       blockNumber := e.blockNumber + 1,
       blockProgress := 0.0,
       blockStartedAt := c.closed,
       nextBlockAt := c.closed + BLOCK_DURATION_MS)
  }

  /** distributeRewards: a block without work pays nothing, any other splits the reward. */
  ghost function Distributed(e: Engine, c: Clock): Engine
  {
    var total := Total(e.roundWork);
    if total <= 0.0 then
      Closed(e.(lastReward := 0.0, roundWork := Zeroed(e.roundWork)), c, e.activeMiners, Empty())
    else
      Closed(e.(lastReward := REWARD_BASE,
                totalMinted := e.totalMinted + Sum(e.miners.keys, Shares(e.roundWork.m, total)),
                miners := e.miners.(m := map id | id in e.miners.m ::
                            Rewarded(e.miners.m[id], Share(Amount(e.roundWork.m, id), total))),
                roundWork := Zeroed(e.roundWork)),
             c, e.activeMiners, UserRewards(e.miners.keys, e.miners.m, e.roundWork.m, total))
  }

  /** How far the loop of distributeRewards has come: the first `n` miners are paid, their work is
      spent, and the three running results cover exactly those miners. */
  ghost predicate PaidUpTo(keys: seq<MinerId>, n: nat, before: map<MinerId, MinerState>, work: map<MinerId, real>,
                           total: real,
                           after: map<MinerId, MinerState>, work': map<MinerId, real>,
                           minted: real, userRewards: JsMap<nat, real>, payload: seq<MinerReward>)
  {
    && n <= |keys| && Lists(keys, before) && total > 0.0
    && before.Keys == work.Keys == after.Keys == work'.Keys
    && (forall j :: 0 <= j < |keys| ==>
          after[keys[j]] == (if j < n then Rewarded(before[keys[j]], Share(work[keys[j]], total)) else before[keys[j]]))
    && (forall j :: 0 <= j < |keys| ==> work'[keys[j]] == (if j < n then 0.0 else work[keys[j]]))
    && minted == Sum(keys[..n], Shares(work, total))
    && userRewards == UserRewards(keys[..n], before, work, total)
    && payload == Payload(keys[..n], before, work, total)
  }

  lemma PaidNone(e: Engine)
    requires InStep(e) && Total(e.roundWork) > 0.0
    ensures e.roundWork.keys == e.miners.keys
    ensures PaidUpTo(e.miners.keys, 0, e.miners.m, e.roundWork.m, Total(e.roundWork), e.miners.m, e.roundWork.m, 0.0,
                     Empty(), [])
  {
    hide Total;
    forall id ensures id in e.roundWork.m <==> id in e.miners.m {
      assert id in e.miners.keys <==> id in e.roundWork.keys;
    }
  }

  lemma PaidOneMore(keys: seq<MinerId>, n: nat, before: map<MinerId, MinerState>, work: map<MinerId, real>, total: real,
                    after: map<MinerId, MinerState>, work': map<MinerId, real>,
                    minted: real, userRewards: JsMap<nat, real>, payload: seq<MinerReward>)
    requires PaidUpTo(keys, n, before, work, total, after, work', minted, userRewards, payload) && n < |keys|
    ensures var id := keys[n];
            && id in after && id in work'
            && var w, reward := work'[id], Share(work'[id], total);
            && (w <= 0.0 ==>
                PaidUpTo(keys, n + 1, before, work, total, after, work'[id := 0.0], minted, userRewards, payload))
            && (w > 0.0 ==>
                PaidUpTo(keys, n + 1, before, work, total, after[id := Rewarded(after[id], reward)], work'[id := 0.0],
                                     minted + reward, userRewards.Set(after[id].userId, reward),
                                     payload + [RewardLine(id, after[id], w, total)]))
  {
    var id := keys[n];
    assert id in keys;
    assert keys[..n + 1][..n] == keys[..n];
    assert Rewarded(before[id], 0.0) == before[id];
  }

  /** Once the loop is through, its results are those of the distributed state. */
  lemma PaidAll(e: Engine, c: Clock, after: map<MinerId, MinerState>, work': map<MinerId, real>,
                minted: real, userRewards: JsMap<nat, real>, payload: seq<MinerReward>)
    requires InStep(e)
    requires PaidUpTo(e.miners.keys, |e.miners.keys|, e.miners.m, e.roundWork.m, Total(e.roundWork), after, work',
                      minted, userRewards, payload)
    ensures Total(e.roundWork) > 0.0
    ensures Distributed(e, c) == Closed(
              e.(lastReward := REWARD_BASE, totalMinted := e.totalMinted + minted,
                 miners := JsMap(e.miners.keys, after), roundWork := JsMap(e.miners.keys, work')), c, e.activeMiners,
                   userRewards)
    ensures payload == PayloadOf(e)
  {
    hide Sum, Total, UserRewards, Payload, Share;
    var total := Total(e.roundWork);
    assert e.miners.keys[..|e.miners.keys|] == e.miners.keys;
    assert after == (map id | id in e.miners.m :: Rewarded(e.miners.m[id], Share(Amount(e.roundWork.m, id), total)));
    assert work' == Zeroed(e.roundWork).m;
  }

  /** The handler of a failed persistence, for one line: balance and lifetime total are put back to the
      snapshot taken before the reward, and the reward is no longer counted as minted. The mark of what
      is persisted is left as it is. */
  function RollBackLine(e: Engine, r: MinerReward): Engine {
    if r.minerId in e.miners.m then
      Put(e, r.minerId, Restored(e.miners.m[r.minerId], r)).(totalMinted := e.totalMinted - r.rewardAmount)
    else e
  }

  function Restored(m: MinerState, r: MinerReward): MinerState {
    m.(balance := r.balanceAfter - r.rewardAmount, lifetimeMined := r.lifetimeMined - r.rewardAmount)
  }

  function RollBackLines(e: Engine, lines: seq<MinerReward>): Engine {
    if lines == [] then e else RollBackLine(RollBackLines(e, lines[..|lines| - 1]), lines[|lines| - 1])
  }

  /** What distributeRewards hands to the persistence callback. */
  ghost function PayloadOf(e: Engine): seq<MinerReward> {
    if Total(e.roundWork) <= 0.0 then []
    else Payload(e.miners.keys, e.miners.m, e.roundWork.m, Total(e.roundWork))
  }

  lemma NothingPaid(e: Engine, c: Clock)
    requires Total(e.roundWork) <= 0.0
    ensures PayloadOf(e) == []
    ensures Distributed(e, c)
            == Closed(e.(lastReward := 0.0, roundWork := Zeroed(e.roundWork)), c, e.activeMiners, Empty())
  {
  }

  lemma DistributedStaysInStep(e: Engine, c: Clock)
    requires InStep(e)
    ensures InStep(Distributed(e, c))
  {
    hide Sum, Total, UserRewards, Share;
    ListsSame(e.miners.keys, e.miners.m, Distributed(e, c).miners.m);
    ListsSame(e.roundWork.keys, e.roundWork.m, Distributed(e, c).roundWork.m);
  }

  function Progress(now: int, startedAt: int): real {
    var elapsed := if now >= startedAt then now - startedAt else 0;
    var p := (elapsed as real) / (BLOCK_DURATION_MS as real) * BLOCK_TARGET;
    if p < BLOCK_TARGET then p else BLOCK_TARGET
  }

  predicate Closes(e: Engine, now: int) {
    now >= e.nextBlockAt
  }

  /** tick */
  ghost function Ticked(e: Engine, c: Clock): Engine
  {
    var worked := Worked(e, c.now);
    var after := if Closes(e, c.now) then Distributed(worked, c) else worked;
    after.(blockProgress := Progress(c.now, after.blockStartedAt))
  }
}
