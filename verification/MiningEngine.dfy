/** The mining engine as the source has it: one object per miner, updated in place, reachable by
    its id and by its user. Every method is tied to the operation on values it performs. */
module MiningEngine {
  import opened Common
  import opened JsMaps
  import opened MiningState

  class Miner {
    const id: MinerId
    const userId: nat
    var rigs: nat
    var baseHashRate: real
    var active: bool
    var boostMultiplier: real
    var boostEndsAt: int
    var balance: real
    var lastPersistedBalance: real
    var lifetimeMined: real

    ghost function State(): MinerState
      reads this
    {
      MinerState(userId, rigs, baseHashRate, active, boostMultiplier, boostEndsAt,
                 balance, lastPersistedBalance, lifetimeMined)
    }

    constructor (id: MinerId, userId: nat, profile: Option<Profile>)
      ensures this.id == id && State() == NewMiner(userId, profile)
    {
      var m := NewMiner(userId, profile);
      this.id, this.userId := id, userId;
      rigs, baseHashRate, active := m.rigs, m.baseHashRate, m.active;
      boostMultiplier, boostEndsAt := m.boostMultiplier, m.boostEndsAt;
      balance, lastPersistedBalance, lifetimeMined := m.balance, m.lastPersistedBalance, m.lifetimeMined;
    }

    /** getMinerHashRate */
    method CurrentHashRate() returns (rate: real)
      ensures rate == HashRate(State())
    {
      if !active {
        return 0.0;
      }
      rate := baseHashRate * boostMultiplier;
    }

    /** The part of a tick that looks at one miner: end an expired boost, then read the hash rate. */
    method TickHashRate(now: int) returns (rate: real)
      modifies this
      ensures State() == BoostExpired(old(State()), now) && rate == HashRate(State())
    {
      if boostEndsAt > 0 && now >= boostEndsAt {
        boostMultiplier := 1.0;
        boostEndsAt := 0;
      }
      rate := CurrentHashRate();
    }

    method Merge(profile: Profile)
      modifies this
      ensures State() == MergeProfile(old(State()), profile)
    {
      rigs := if profile.rigs == 0 then 1 else profile.rigs;
      baseHashRate := profile.baseHashRate;
      var dbBalance := profile.balance;
      if dbBalance > balance {
        balance := dbBalance;
        lastPersistedBalance := dbBalance;
      }
    }

    method Boost(now: int) returns (ok: bool)
      modifies this
      ensures State() == Boosted(old(State()), now)
      ensures ok <==> old(balance) >= BOOST_COST
    {
      if balance < BOOST_COST {
        return false;
      }
      balance := balance - BOOST_COST;
      boostMultiplier := BOOST_MULTIPLIER;
      boostEndsAt := now + BOOST_MS;
      ok := true;
    }

    method Upgrade() returns (ok: bool)
      modifies this
      ensures State() == Upgraded(old(State()))
      ensures ok <==> old(balance) >= RigCost(old(State()))
    {
      var rigCost := 2.0 + ((rigs as int - 1) as real) * 0.8;
      if balance < rigCost {
        return false;
      }
      balance := balance - rigCost;
      rigs := rigs + 1;
      baseHashRate := baseHashRate + RIG_HASH_RATE;
      ok := true;
    }

    method Reward(reward: real)
      modifies this
      ensures State() == Rewarded(old(State()), reward)
    {
      balance := balance + reward;
      lastPersistedBalance := lastPersistedBalance + reward;
      lifetimeMined := lifetimeMined + reward;
    }

    method Restore(r: MinerReward)
      modifies this
      ensures State() == Restored(old(State()), r)
    {
      balance := r.balanceAfter - r.rewardAmount;
      lifetimeMined := r.lifetimeMined - r.rewardAmount;
    }

    method Credit(delta: real)
      modifies this
      ensures State() == Credited(old(State()), delta)
    {
      balance := balance + delta;
      lastPersistedBalance := lastPersistedBalance + delta;
    }
  }

  class MiningEngine {
    var blockNumber: nat
    var blockProgress: real
    var blockStartedAt: int
    var nextBlockAt: int
    var totalMinted: real
    var lastReward: real
    var roundWork: JsMap<MinerId, real>
    var miners: JsMap<MinerId, Miner>
    var minersByUserId: map<nat, Miner>
    var activeMiners: nat
    var networkHashRate: real
    var blockHistory: seq<Block>

    ghost function Objects(): set<Miner>
      reads this`miners
    {
      set id | id in miners.m :: miners.m[id]
    }

    ghost function MinerStates(): (m: map<MinerId, MinerState>)
      reads this`miners, Objects()
      ensures m.Keys == miners.m.Keys
    {
      map id | id in miners.m :: miners.m[id].State()
    }

    ghost function UserIndex(): map<nat, MinerId>
      reads this`minersByUserId
    {
      map u | u in minersByUserId :: minersByUserId[u].id
    }

    ghost function State(): Engine
      reads this, Objects()
    {
      Engine(blockNumber, blockProgress, blockStartedAt, nextBlockAt, totalMinted, lastReward, roundWork,
             JsMap(miners.keys, MinerStates()), UserIndex(), activeMiners, networkHashRate, blockHistory)
    }

    /** Each object sits under its own id, and the user index points at those same objects. */
    ghost predicate Linked()
      reads this`miners, this`minersByUserId
    {
      && miners.Valid()
      && (forall id :: id in miners.m ==> miners.m[id].id == id)
      && (forall u :: u in minersByUserId ==>
            minersByUserId[u].id in miners.m && miners.m[minersByUserId[u].id] == minersByUserId[u] &&
              minersByUserId[u].userId == u)
    }

    ghost predicate Valid()
      reads this, Objects()
    {
      Linked() && InStep(State())
    }

    constructor (now: int)
      ensures Valid() && State() == NewEngine(now)
      ensures blockNumber == 1 && blockProgress == totalMinted == lastReward == networkHashRate == 0.0
      ensures blockStartedAt == now && nextBlockAt == now + 600_000 && activeMiners == 0
      ensures miners.keys == [] && roundWork.keys == [] && minersByUserId == map[] && blockHistory == []
    {
      blockNumber, blockProgress := 1, 0.0;
      blockStartedAt, nextBlockAt := now, now + BLOCK_DURATION_MS;
      totalMinted, lastReward := 0.0, 0.0;
      roundWork, miners, minersByUserId := Empty(), Empty(), map[];
      activeMiners, networkHashRate, blockHistory := 0, 0.0, [];
    }

    method FindMinerByUserId(userId: nat) returns (miner: Miner?)
      requires Valid()
      ensures miner == null <==> FindMiner(State(), userId).None?
      ensures miner != null ==> miner in Objects() && FindMiner(State(), userId) == Some(miner.id) &&
                                miner.id in miners.m && miner.State() == State().miners.m[miner.id]
    {
      if userId == 0 || userId !in minersByUserId {
        return null;
      }
      miner := minersByUserId[userId];
    }

    /** Changing one miner object changes that miner's entry of the state and nothing else. */
    twostate lemma OneStateChanged(miner: Miner)
      requires old(Linked()) && miner in old(Objects()) && miners == old(miners) &&
               minersByUserId == old(minersByUserId)
      requires forall o :: o in old(Objects()) && o != miner ==> unchanged(o)
      ensures miner.id in miners.m && Linked()
      ensures MinerStates() == old(MinerStates())[miner.id := miner.State()]
    {
      assert miners.m[miner.id] == miner;
      forall id | id in miners.m && id != miner.id
        ensures miners.m[id].State() == old(miners.m[id].State())
      {
        assert miners.m[id] in old(Objects()) && miners.m[id] != miner;
      }
    }

    twostate lemma OneChanged(miner: Miner)
      requires old(Valid()) && miner in old(Objects()) && unchanged(this)
      requires forall o :: o in old(Objects()) && o != miner ==> unchanged(o)
      ensures Valid() && State() == Put(old(State()), miner.id, miner.State())
    {
      OneStateChanged(miner);
    }

    /** Take a profile, if there is one, into a miner of this engine. */
    method MergeInto(miner: Miner, profile: Option<Profile>)
      requires Valid() && miner in Objects()
      modifies miner
      ensures Valid() && Objects() == old(Objects())
      ensures State() == if profile.None? then old(State())
                         else Put(old(State()), miner.id, MergeProfile(old(miner.State()), profile.value))
    {
      if profile.Some? {
        miner.Merge(profile.value);
        OneChanged(miner);
      }
    }

    method ReloadMinerProfile(userId: nat, profile: Option<Profile>)
      requires Valid()
      modifies Objects()
      ensures Valid() && State() == Reload(old(State()), userId, profile)
    {
      var miner := FindMinerByUserId(userId);
      if miner != null {
        MergeInto(miner, profile);
      }
    }

    method CreateOrGetMiner(freshId: MinerId, userId: nat, profile: Option<Profile>) returns (miner: Miner)
      requires Valid() && freshId !in miners.m
      modifies this, Objects()
      ensures Valid() && State() == Join(old(State()), freshId, userId, profile)
      ensures miner in Objects()
    {
      var existing := FindMinerByUserId(userId);
      if existing != null {
        MergeInto(existing, profile);
        miner := existing;
      } else {
        miner := Add(freshId, userId, profile);
      }
    }

    method Add(freshId: MinerId, userId: nat, profile: Option<Profile>) returns (miner: Miner)
      requires Valid() && freshId !in miners.m
      modifies this
      ensures Valid() && miner in Objects() && fresh(miner) && Objects() == old(Objects()) + {miner}
      ensures State() == AddMiner(old(State()), freshId, userId, profile)
    {
      miner := new Miner(freshId, userId, profile);
      miners.SetKeepsValid(freshId, miner);
      roundWork.SetKeepsValid(freshId, 0.0);
      miners := miners.Set(freshId, miner);
      minersByUserId := minersByUserId[userId := miner];
      roundWork := roundWork.Set(freshId, 0.0);
      OneAdded(miner);
    }

    twostate lemma OneAdded(new miner: Miner)
      requires old(Linked()) && miner.id !in old(miners.m) && fresh(miner)
      requires miners == old(miners).Set(miner.id, miner) &&
               minersByUserId == old(minersByUserId)[miner.userId := miner]
      requires forall o :: o in old(Objects()) ==> unchanged(o)
      ensures Linked() && Objects() == old(Objects()) + {miner}
      ensures MinerStates() == old(MinerStates())[miner.id := miner.State()]
      ensures UserIndex() == old(UserIndex())[miner.userId := miner.id]
    {
      assert miners.Valid() by {
        old(miners).SetKeepsValid(miner.id, miner);
      }
      ObjectsGrow(miner);
      StatesGrow(miner);
      IndexGrows(miner);
    }

    twostate lemma ObjectsGrow(new miner: Miner)
      requires miner.id !in old(miners.m) && miners.m == old(miners.m)[miner.id := miner]
      ensures Objects() == old(Objects()) + {miner}
    {
      assert miners.m[miner.id] == miner;
      forall id | id in old(miners.m) ensures miners.m[id] in Objects() {
      }
    }

    twostate lemma StatesGrow(new miner: Miner)
      requires miner.id !in old(miners.m) && miners.m == old(miners.m)[miner.id := miner]
      requires forall o :: o in old(Objects()) ==> unchanged(o)
      ensures MinerStates() == old(MinerStates())[miner.id := miner.State()]
    {
      forall id | id in old(miners.m)
        ensures miners.m[id].State() == old(miners.m[id].State())
      {
        assert old(miners.m)[id] in old(Objects());
      }
    }

    twostate lemma IndexGrows(new miner: Miner)
      requires old(Linked()) && miner.id !in old(miners.m) && miners.m == old(miners.m)[miner.id := miner]
      requires minersByUserId == old(minersByUserId)[miner.userId := miner]
      ensures UserIndex() == old(UserIndex())[miner.userId := miner.id]
      ensures forall u :: u in minersByUserId ==>
                minersByUserId[u].id in miners.m && miners.m[minersByUserId[u].id] == minersByUserId[u] &&
                  minersByUserId[u].userId == u
    {
    }

    method SetActive(minerId: MinerId, active: bool) returns (found: bool)
      requires Valid()
      modifies Objects()
      ensures Valid() && found == (minerId in miners.m)
      ensures State() == MiningState.SetActive(old(State()), minerId, active)
    {
      if minerId !in miners.m {
        return false;
      }
      var miner := miners.m[minerId];
      miner.active := active;
      OneChanged(miner);
      found := true;
    }

    method ApplyBoost(minerId: MinerId, now: int) returns (ok: bool)
      requires Valid()
      modifies Objects()
      ensures Valid()
      ensures ok <==> minerId in miners.m && old(MinerStates())[minerId].balance >= BOOST_COST
      ensures State() == MiningState.ApplyBoost(old(State()), minerId, now)
    {
      if minerId !in miners.m {
        return false;
      }
      var miner := miners.m[minerId];
      ok := miner.Boost(now);
      OneChanged(miner);
    }

    method UpgradeRig(minerId: MinerId) returns (ok: bool)
      requires Valid()
      modifies Objects()
      ensures Valid()
      ensures ok <==> minerId in miners.m && old(MinerStates())[minerId].balance >= RigCost(old(MinerStates())[minerId])
      ensures State() == MiningState.UpgradeRig(old(State()), minerId)
    {
      if minerId !in miners.m {
        return false;
      }
      var miner := miners.m[minerId];
      ok := miner.Upgrade();
      OneChanged(miner);
    }

    /** applyUserBalanceDelta (server/src/runtime/miningRuntime.js) */
    method ApplyUserBalanceDelta(userId: nat, delta: real)
      requires Valid()
      modifies Objects()
      ensures Valid() && State() == ApplyDelta(old(State()), userId, delta)
    {
      var miner := FindMinerByUserId(userId);
      if miner != null {
        miner.Credit(delta);
        OneChanged(miner);
      }
    }

    /** The counting part of tick. */
    method AccumulateWork(now: int)
      requires Valid()
      modifies this`roundWork, this`activeMiners, this`networkHashRate, Objects()
      ensures Valid() && State() == Worked(old(State()), now)
    {
      hide Sum, CountPositive, WorkedUpTo, Linked, InStep, Worked, Rates, BoostExpired, HashRate, Amount;
      ghost var before := State();
      WorkedNone(before, now);
      var totalHashRate, active := VisitMiners(now);
      networkHashRate := totalHashRate;
      activeMiners := active;
      WorkedAll(before, MinerStates(), roundWork.m, now);
    }

    /** The loop of tick: end expired boosts, add every miner's hash rate to its work, and count. */
    method VisitMiners(now: int) returns (totalHashRate: real, active: nat)
      requires Linked() && roundWork.keys == miners.keys
      requires WorkedUpTo(miners.keys, 0, MinerStates(), roundWork.m, MinerStates(), roundWork.m, now)
      modifies this`roundWork, Objects()
      ensures Linked() && roundWork.keys == miners.keys
      ensures WorkedUpTo(miners.keys, |miners.keys|, old(MinerStates()), old(roundWork.m), MinerStates(), roundWork.m,
                         now)
      ensures totalHashRate == Sum(miners.keys, Rates(old(MinerStates()), now))
      ensures active == CountPositive(miners.keys, Rates(old(MinerStates()), now))
    {
      hide Sum, CountPositive, WorkedUpTo, Linked, Rates, BoostExpired, HashRate, Amount;
      ghost var states, work := MinerStates(), roundWork.m;
      ghost var keys, rates := miners.keys, Rates(states, now);
      NothingYet(keys, rates);
      totalHashRate, active := 0.0, 0;
      for i := 0 to |miners.keys|
        invariant Linked() && roundWork.keys == keys
        invariant WorkedUpTo(keys, i, states, work, MinerStates(), roundWork.m, now)
        invariant totalHashRate == Sum(keys[..i], rates)
        invariant active == CountPositive(keys[..i], rates)
      {
        SumOneMore(keys, i, rates);
        CountOneMore(keys, i, rates);
        WorkedOneMore(keys, i, states, work, MinerStates(), roundWork.m, now);
        var hashRate := WorkOne(miners.keys[i], now);
        totalHashRate := totalHashRate + hashRate;
        if hashRate > 0.0 {
          active := active + 1;
        }
      }
      assert keys[..|keys|] == keys;
    }

    /** One pass of that loop. */
    method WorkOne(minerId: MinerId, now: int) returns (hashRate: real)
      requires Linked() && minerId in miners.m && minerId in roundWork.m
      modifies this`roundWork, miners.m[minerId]
      ensures Linked() && hashRate == HashRate(BoostExpired(old(MinerStates())[minerId], now))
      ensures MinerStates() == old(MinerStates())[minerId := BoostExpired(old(MinerStates())[minerId], now)]
      ensures roundWork == old(roundWork).(m := old(roundWork).m[minerId := old(roundWork).m[minerId] + hashRate])
    {
      var miner := miners.m[minerId];
      hashRate := miner.TickHashRate(now);
      OneStateChanged(miner);
      roundWork := roundWork.Set(minerId, (if minerId in roundWork.m then roundWork.m[minerId] else 0.0) + hashRate);
    }

    /** The reduce over roundWork. */
    method TotalWork() returns (total: real)
      ensures total == Total(roundWork)
    {
      hide Sum, Amount;
      NothingYet(roundWork.keys, roundWork.m);
      total := 0.0;
      for i := 0 to |roundWork.keys|
        invariant total == Sum(roundWork.keys[..i], roundWork.m)
      {
        SumOneMore(roundWork.keys, i, roundWork.m);
        total := total + Amount(roundWork.m, roundWork.keys[i]);
      }
      assert roundWork.keys[..|roundWork.keys|] == roundWork.keys;
    }

    /** distributeRewards; returns what the persistence callback is given. */
    method DistributeRewards(c: Clock) returns (minerRewards: seq<MinerReward>)
      requires Valid()
      modifies this, Objects()
      ensures Valid() && State() == Distributed(old(State()), c)
      ensures minerRewards == PayloadOf(old(State()))
    {
      hide Total, Linked, InStep, Distributed, PayloadOf;
      DistributedStaysInStep(State(), c);
      var totalWork := TotalWork();
      if totalWork <= 0.0 {
        NothingPaid(State(), c);
        roundWork := Zeroed(roundWork);
        lastReward := 0.0;
        CloseBlock(c, Empty());
        minerRewards := [];
      } else {
        minerRewards := PayBlock(totalWork, c);
      }
    }

    method PayBlock(totalWork: real, c: Clock) returns (minerRewards: seq<MinerReward>)
      requires Valid() && totalWork == Total(roundWork) > 0.0
      modifies this, Objects()
      ensures Linked() && State() == Distributed(old(State()), c)
      ensures minerRewards == PayloadOf(old(State()))
    {
      hide Total, Linked, InStep, Distributed, PaidUpTo, PayloadOf;
      ghost var before := State();
      PaidNone(before);
      var minted, userRewards;
      minted, userRewards, minerRewards := PayMiners(totalWork);
      totalMinted := totalMinted + minted;
      lastReward := REWARD_BASE;
      PaidAll(before, c, MinerStates(), roundWork.m, minted, userRewards, minerRewards);
      CloseBlock(c, userRewards);
    }

    /** Record the mined block and open the next one. */
    method CloseBlock(c: Clock, userRewards: JsMap<nat, real>)
      requires Linked()
      modifies this`blockHistory, this`blockNumber, this`blockProgress, this`blockStartedAt, this`nextBlockAt
      ensures Linked() && State() == Closed(old(State()), c, activeMiners, userRewards)
    {
      hide Linked;
      blockHistory := Truncated([Block(blockNumber, lastReward, activeMiners, c.recorded, userRewards)] + blockHistory);
      blockNumber := blockNumber + 1;
      blockProgress := 0.0;
      blockStartedAt := c.closed;
      nextBlockAt := blockStartedAt + BLOCK_DURATION_MS;
    }

    /** The loop of distributeRewards. The running total it adds to totalMinted is returned. */
    method PayMiners(totalWork: real)
      returns (minted: real, userRewards: JsMap<nat, real>, minerRewards: seq<MinerReward>)
      requires Linked() && roundWork.keys == miners.keys
      requires PaidUpTo(miners.keys, 0, MinerStates(), roundWork.m, totalWork, MinerStates(), roundWork.m, 0.0, Empty(),
                        [])
      modifies this`roundWork, Objects()
      ensures Linked() && roundWork.keys == miners.keys
      ensures PaidUpTo(miners.keys, |miners.keys|, old(MinerStates()), old(roundWork.m), totalWork, MinerStates(),
                       roundWork.m,
                       minted, userRewards, minerRewards)
    {
      hide PaidUpTo, Linked, Share, Rewarded;
      ghost var states, work := MinerStates(), roundWork.m;
      ghost var keys := miners.keys;
      minted, userRewards, minerRewards := 0.0, Empty(), [];
      for i := 0 to |roundWork.keys|
        invariant Linked() && roundWork.keys == keys
        invariant PaidUpTo(keys, i, states, work, totalWork, MinerStates(), roundWork.m, minted, userRewards,
                           minerRewards)
      {
        PaidOneMore(keys, i, states, work, totalWork, MinerStates(), roundWork.m, minted, userRewards, minerRewards);
        minted, userRewards, minerRewards := PayOne(roundWork.keys[i], totalWork, minted, userRewards, minerRewards);
      }
    }

    /** One pass of that loop. */
    method PayOne(minerId: MinerId, totalWork: real, minted: real, userRewards: JsMap<nat, real>,
                  minerRewards: seq<MinerReward>)
      returns (minted': real, userRewards': JsMap<nat, real>, minerRewards': seq<MinerReward>)
      requires Linked() && minerId in miners.m && minerId in roundWork.m && totalWork > 0.0
      modifies this`roundWork, miners.m[minerId]
      ensures Linked() && roundWork == old(roundWork).(m := old(roundWork).m[minerId := 0.0])
      ensures var m, w := old(MinerStates())[minerId], old(roundWork).m[minerId];
              if w <= 0.0 then
                && MinerStates() == old(MinerStates())
                && (minted', userRewards', minerRewards') == (minted, userRewards, minerRewards)
              else
                && MinerStates() == old(MinerStates())[minerId := Rewarded(m, Share(w, totalWork))]
                && minted' == minted + Share(w, totalWork)
                && userRewards' == userRewards.Set(m.userId, Share(w, totalWork))
                && minerRewards' == minerRewards + [RewardLine(minerId, m, w, totalWork)]
    {
      hide Linked;
      minted', userRewards', minerRewards' := minted, userRewards, minerRewards;
      var work := roundWork.m[minerId];
      if minerId !in miners.m || work <= 0.0 {
        roundWork := roundWork.Set(minerId, 0.0);
        return;
      }
      var miner := miners.m[minerId];
      assert miner.id == minerId by {
        OwnId(minerId);
      }
      var share := work / totalWork;
      var reward := REWARD_BASE * share;
      miner.Reward(reward);
      OneStateChanged(miner);
      minted' := minted + reward;
      roundWork := roundWork.Set(minerId, 0.0);
      userRewards' := userRewards.Set(miner.userId, reward);
      minerRewards' := minerRewards
        + [MinerReward(minerId, miner.userId, work, reward, miner.balance, miner.lifetimeMined)];
    }

    lemma OwnId(minerId: MinerId)
      requires Linked() && minerId in miners.m
      ensures miners.m[minerId].id == minerId
    {
    }

    method Tick(c: Clock) returns (minerRewards: seq<MinerReward>)
      requires Valid()
      modifies this, Objects()
      ensures Valid() && State() == Ticked(old(State()), c)
      ensures minerRewards == if Closes(old(State()), c.now) then PayloadOf(Worked(old(State()), c.now)) else []
    {
      hide Worked, Distributed, Linked, InStep, PayloadOf;
      AccumulateWork(c.now);
      minerRewards := [];
      if c.now >= nextBlockAt {
        minerRewards := DistributeRewards(c);
      }
      UpdateProgress(c.now);
    }

    method UpdateProgress(now: int)
      requires Valid()
      modifies this`blockProgress
      ensures Valid() && State() == old(State()).(blockProgress := Progress(now, blockStartedAt))
    {
      hide Linked, InStep;
      ghost var before := State();
      blockProgress := Progress(now, blockStartedAt);
      SameStep(before, State());
    }

    /** The catch of a failed persistence. The snapshot of a miner is its line less the reward. */
    method RollBack(minerRewards: seq<MinerReward>)
      requires Valid()
      modifies this`totalMinted, Objects()
      ensures Valid() && State() == RollBackLines(old(State()), minerRewards)
    {
      hide Linked, InStep;
      ghost var before := State();
      for i := 0 to |minerRewards|
        invariant Valid() && State() == RollBackLines(before, minerRewards[..i])
      {
        assert minerRewards[..i + 1][..i] == minerRewards[..i];
        RollBackOne(minerRewards[i]);
      }
      assert minerRewards[..|minerRewards|] == minerRewards;
    }

    method RollBackOne(r: MinerReward)
      requires Valid()
      modifies this`totalMinted, Objects()
      ensures Valid() && State() == RollBackLine(old(State()), r)
    {
      hide InStep, Linked;
      if r.minerId in miners.m {
        var miner := miners.m[r.minerId];
        assert miner.id == r.minerId by {
          OwnId(r.minerId);
        }
        miner.Restore(r);
        OneChanged(miner);
        ghost var changed := State();
        totalMinted := totalMinted - r.rewardAmount;
        SameStep(changed, State());
      }
    }
  }
}
