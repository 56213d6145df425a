/** What the mining engine conserves: block by block, and over every run of its operations. */
module MiningLaws {
  import opened Common
  import opened JsMaps
  import opened MiningState

  // ---------- one block ----------

  /** Work counted only where it is positive, which is what the shares are taken of. */
  ghost function Positive(work: map<MinerId, real>): map<MinerId, real> {
    map id | id in work :: if work[id] > 0.0 then work[id] else 0.0
  }

  ghost predicate NoNegative(work: map<MinerId, real>) {
    forall id :: id in work ==> work[id] >= 0.0
  }

  /** The shares of a block add up to the reward times positive work over all work. */
  lemma {:induction false} SharesAddUp(keys: seq<MinerId>, work: map<MinerId, real>, total: real)
    requires total > 0.0
    ensures Sum(keys, Shares(work, total)) == REWARD_BASE * (Sum(keys, Positive(work)) / total)
  {
    if keys == [] {
    } else {
      var rest, id := keys[..|keys| - 1], keys[|keys| - 1];
      SharesAddUp(rest, work, total);
      var a, b := Sum(rest, Positive(work)), Amount(Positive(work), id);
      assert Amount(Shares(work, total), id) == REWARD_BASE * (b / total);
      ScaledSum(a, b, total);
    }
  }

  lemma ScaledSum(a: real, b: real, total: real)
    requires total > 0.0
    ensures REWARD_BASE * (a / total) + REWARD_BASE * (b / total) == REWARD_BASE * ((a + b) / total)
  {
    assert a / total + b / total == (a + b) / total;
  }

  /** Dropping negative work never lowers the sum, and keeps it exactly when there was none. */
  lemma {:induction false} PositiveExceeds(keys: seq<MinerId>, work: map<MinerId, real>)
    ensures Sum(keys, Positive(work)) >= Sum(keys, work)
    ensures Sum(keys, Positive(work)) == Sum(keys, work) <==> forall id :: id in keys ==> Amount(work, id) >= 0.0
  {
    if keys == [] {
    } else {
      var rest := keys[..|keys| - 1];
      PositiveExceeds(rest, work);
      assert keys == rest + [keys[|keys| - 1]];
    }
  }

  lemma RatioIsOne(a: real, total: real)
    requires total > 0.0
    ensures REWARD_BASE * (a / total) == REWARD_BASE <==> a == total
  {
    assert a / total == 1.0 <==> a == total;
  }

  /** A block with work pays out exactly the block reward, for every state of the engine in which
      no miner's work is negative, and for no other. */
  lemma PayoutIff(e: Engine, c: Clock)
    requires InStep(e) && Total(e.roundWork) > 0.0
    ensures Distributed(e, c).totalMinted - e.totalMinted == REWARD_BASE <==> NoNegative(e.roundWork.m)
  {
    var keys, work, total := e.miners.keys, e.roundWork.m, Total(e.roundWork);
    SharesAddUp(keys, work, total);
    PositiveExceeds(keys, work);
    RatioIsOne(Sum(keys, Positive(work)), total);
    assert forall id :: id in keys <==> id in work;
  }

  // ---------- rewards by user ----------

  ghost predicate Earns(id: MinerId, miners: map<MinerId, MinerState>, work: map<MinerId, real>) {
    id in miners && Amount(work, id) > 0.0
  }

  /** No two miners with work belong to the same user. */
  ghost predicate EarnersDiffer(keys: seq<MinerId>, miners: map<MinerId, MinerState>, work: map<MinerId, real>) {
    forall i, j :: 0 <= i < j < |keys| && Earns(keys[i], miners, work) && Earns(keys[j], miners, work) ==>
      miners[keys[i]].userId != miners[keys[j]].userId
  }

  /** The record by user holds a positive reward for the users of earning miners and for no one else. */
  lemma {:induction false} UserRewardsShape(keys: seq<MinerId>, miners: map<MinerId, MinerState>,
                                            work: map<MinerId, real>, total: real)
    requires total > 0.0
    ensures var r := UserRewards(keys, miners, work, total);
            && r.Valid()
            && (forall u :: u in r.m ==> r.m[u] > 0.0)
            && (forall u :: u in r.m <==>
                exists i :: 0 <= i < |keys| && Earns(keys[i], miners, work) && miners[keys[i]].userId == u)
  {
    if keys == [] {
    } else {
      var rest, id := keys[..|keys| - 1], keys[|keys| - 1];
      UserRewardsShape(rest, miners, work, total);
      var r := UserRewards(rest, miners, work, total);
      if Earns(id, miners, work) {
        SharePositive(Amount(work, id), total);
        r.SetKeepsValid(miners[id].userId, Share(Amount(work, id), total));
      }
      forall u | u in UserRewards(keys, miners, work, total).m
        ensures exists i :: 0 <= i < |keys| && Earns(keys[i], miners, work) && miners[keys[i]].userId == u
      {
        if u in r.m {
          var i :| 0 <= i < |rest| && Earns(rest[i], miners, work) && miners[rest[i]].userId == u;
          assert keys[i] == rest[i];
        } else {
          assert keys[|keys| - 1] == id;
        }
      }
    }
  }

  lemma SharePositive(w: real, total: real)
    requires w > 0.0 && total > 0.0
    ensures Share(w, total) > 0.0
  {
    assert w / total > 0.0;
  }

  /** The record by user misses what an overwritten entry held, and so adds up to the whole payout
      exactly when no two earning miners share a user. */
  lemma {:induction false} UserRewardsIff(keys: seq<MinerId>, miners: map<MinerId, MinerState>,
                                          work: map<MinerId, real>, total: real)
    requires total > 0.0 && forall id :: id in keys ==> id in miners
    ensures var paid := Sum(keys, Shares(work, total));
            && Total(UserRewards(keys, miners, work, total)) <= paid
            && (Total(UserRewards(keys, miners, work, total)) == paid <==> EarnersDiffer(keys, miners, work))
  {
    if keys == [] {
    } else {
      var rest, id := keys[..|keys| - 1], keys[|keys| - 1];
      UserRewardsIff(rest, miners, work, total);
      UserRewardsShape(rest, miners, work, total);
      var r, w := UserRewards(rest, miners, work, total), Amount(work, id);
      assert Amount(Shares(work, total), id) == Share(w, total);
      if Earns(id, miners, work) {
        TotalAfterSet(r, miners[id].userId, Share(w, total));
        if miners[id].userId in r.m {
          var i :| 0 <= i < |rest| && Earns(rest[i], miners, work) && miners[rest[i]].userId == miners[id].userId;
          assert keys[i] == rest[i] && keys[|keys| - 1] == id;
        }
      }
      DifferOneMore(keys, miners, work);
    }
  }

  /** Earners of a longer list differ exactly when those before do and the last is not among their users. */
  lemma DifferOneMore(keys: seq<MinerId>, miners: map<MinerId, MinerState>, work: map<MinerId, real>)
    requires keys != [] && forall id :: id in keys ==> id in miners
    ensures var rest, id := keys[..|keys| - 1], keys[|keys| - 1];
            EarnersDiffer(keys, miners, work) <==>
              EarnersDiffer(rest, miners, work) &&
              (Earns(id, miners, work) ==>
                forall i :: 0 <= i < |rest| && Earns(rest[i], miners, work) ==>
                    miners[rest[i]].userId != miners[id].userId)
  {
    var rest, id := keys[..|keys| - 1], keys[|keys| - 1];
    if EarnersDiffer(keys, miners, work) {
      forall i, j | 0 <= i < j < |rest| && Earns(rest[i], miners, work) && Earns(rest[j], miners, work)
        ensures miners[rest[i]].userId != miners[rest[j]].userId
      {
        assert keys[i] == rest[i] && keys[j] == rest[j];
      }
      forall i | 0 <= i < |rest| && Earns(rest[i], miners, work) && Earns(id, miners, work)
        ensures miners[rest[i]].userId != miners[id].userId
      {
        assert keys[i] == rest[i] && keys[|keys| - 1] == id;
      }
    }
  }

  /** When no two earning miners share a user, the record holds for each of their users what its miner earned. */
  lemma {:induction false} RecordIsEarned(keys: seq<MinerId>, miners: map<MinerId, MinerState>,
                                          work: map<MinerId, real>, total: real, i: nat)
    requires total > 0.0 && (forall id :: id in keys ==> id in miners) && EarnersDiffer(keys, miners, work)
    requires i < |keys| && Earns(keys[i], miners, work)
    ensures var r := UserRewards(keys, miners, work, total);
            var u := miners[keys[i]].userId;
            u in r.m && r.m[u] == REWARD_BASE * (Amount(work, keys[i]) / total)
  {
    var rest, id := keys[..|keys| - 1], keys[|keys| - 1];
    DifferOneMore(keys, miners, work);
    if i == |keys| - 1 {
    } else {
      assert rest[i] == keys[i];
      RecordIsEarned(rest, miners, work, total, i);
    }
  }

  // ---------- what the persistence callback is given ----------

  /** What the lines credit to a user. */
  function Credits(lines: seq<MinerReward>, userId: nat): real {
    if lines == [] then 0.0
    else
      var last := lines[|lines| - 1];
      Credits(lines[..|lines| - 1], userId) + (if last.userId == userId then last.rewardAmount else 0.0)
  }

  /** What the balances of a user's miners gain from one state of the miners to another. */
  function Gains(keys: seq<MinerId>, before: map<MinerId, MinerState>, after: map<MinerId, MinerState>,
                 userId: nat): real
    requires forall id :: id in keys ==> id in before && id in after
  {
    if keys == [] then 0.0
    else
      var id := keys[|keys| - 1];
      Gains(keys[..|keys| - 1], before, after, userId)
      + (if before[id].userId == userId then after[id].balance - before[id].balance else 0.0)
  }

  /** Every miner's share of the block, paid out. */
  ghost predicate Paid(keys: seq<MinerId>, before: map<MinerId, MinerState>, work: map<MinerId, real>, total: real,
                       after: map<MinerId, MinerState>)
    requires total > 0.0
  {
    forall id :: id in keys ==>
      id in before && id in after && after[id] == Rewarded(before[id], Share(Amount(work, id), total))
  }

  lemma {:induction false} LinesCredit(keys: seq<MinerId>, before: map<MinerId, MinerState>,
                                       work: map<MinerId, real>, total: real, after: map<MinerId, MinerState>,
                                       userId: nat)
    requires total > 0.0 && Paid(keys, before, work, total, after)
    ensures Credits(Payload(keys, before, work, total), userId) == Gains(keys, before, after, userId)
  {
    if keys == [] {
    } else {
      var rest, id := keys[..|keys| - 1], keys[|keys| - 1];
      LinesCredit(rest, before, work, total, after, userId);
      var lines, all := Payload(rest, before, work, total), Payload(keys, before, work, total);
      assert all != lines ==> all[..|all| - 1] == lines;
    }
  }

  /** A line names the user, the work and the new totals of the miner it is for, and its gain. */
  predicate LineOf(r: MinerReward, before: map<MinerId, MinerState>, work: map<MinerId, real>,
                   after: map<MinerId, MinerState>)
  {
    && r.minerId in before && r.minerId in work && r.minerId in after
    && r.userId == before[r.minerId].userId
    && r.workAccumulated == work[r.minerId] > 0.0
    && r.rewardAmount == after[r.minerId].balance - before[r.minerId].balance
    && r.balanceAfter == after[r.minerId].balance
    && r.lifetimeMined == after[r.minerId].lifetimeMined
  }

  ghost predicate HasLine(lines: seq<MinerReward>, id: MinerId) {
    exists j :: 0 <= j < |lines| && lines[j].minerId == id
  }

  lemma {:induction false} LinesFit(keys: seq<MinerId>, before: map<MinerId, MinerState>, work: map<MinerId, real>,
                                    total: real, after: map<MinerId, MinerState>)
    requires total > 0.0 && Paid(keys, before, work, total, after) && forall id :: id in keys ==> id in work
    ensures var lines := Payload(keys, before, work, total);
            && (forall j :: 0 <= j < |lines| ==> LineOf(lines[j], before, work, after) && lines[j].minerId in keys)
            && (forall id :: id in keys && work[id] > 0.0 ==> HasLine(lines, id))
  {
    hide LineOf, HasLine, RewardLine;
    if keys == [] {
    } else {
      var rest, id := keys[..|keys| - 1], keys[|keys| - 1];
      LinesFit(rest, before, work, total, after);
      assert keys == rest + [id] && Amount(work, id) == work[id];
      if work[id] > 0.0 {
        LineFits(id, before, work, total, after);
        LineAdded(Payload(rest, before, work, total), RewardLine(id, before[id], work[id], total));
      }
    }
  }

  lemma LineFits(id: MinerId, before: map<MinerId, MinerState>, work: map<MinerId, real>, total: real,
                 after: map<MinerId, MinerState>)
    requires total > 0.0 && id in work && work[id] > 0.0 && Paid([id], before, work, total, after)
    ensures var r := RewardLine(id, before[id], work[id], total); LineOf(r, before, work, after) && r.minerId == id
  {
    assert id in [id];
  }

  lemma LineAdded(lines: seq<MinerReward>, r: MinerReward)
    ensures HasLine(lines + [r], r.minerId) && forall id :: HasLine(lines, id) ==> HasLine(lines + [r], id)
  {
    assert (lines + [r])[|lines|] == r;
    forall id | HasLine(lines, id) ensures HasLine(lines + [r], id) {
      var j :| 0 <= j < |lines| && lines[j].minerId == id;
      assert (lines + [r])[j].minerId == id;
    }
  }

  /** No miner has two lines, and only the given ones have any. */
  ghost predicate OneLineEach(lines: seq<MinerReward>, keys: seq<MinerId>) {
    && (forall j :: 0 <= j < |lines| ==> lines[j].minerId in keys)
    && (forall i, j :: 0 <= i < j < |lines| ==> lines[i].minerId != lines[j].minerId)
  }

  lemma {:induction false} LinesDiffer(keys: seq<MinerId>, before: map<MinerId, MinerState>, work: map<MinerId, real>,
                                       total: real)
    requires total > 0.0 && forall i, j :: 0 <= i < j < |keys| ==> keys[i] != keys[j]
    ensures OneLineEach(Payload(keys, before, work, total), keys)
  {
    if keys == [] {
    } else {
      var rest, id := keys[..|keys| - 1], keys[|keys| - 1];
      LinesDiffer(rest, before, work, total);
      var lines := Payload(rest, before, work, total);
      assert OneLineEach(lines, rest) && id !in rest && keys == rest + [id];
      forall r: MinerReward | r.minerId == id ensures OneLineEach(lines + [r], keys) {
      }
    }
  }

  /** The callback is given, for each miner with work and no other, one line with that miner's user, work, gain
      and new totals; and for every user the lines add up to what the balances of its miners gain. */
  lemma PayloadCredits(e: Engine, c: Clock, userId: nat)
    requires InStep(e) && Total(e.roundWork) > 0.0
    ensures var lines, after := PayloadOf(e), Distributed(e, c).miners.m;
            && after.Keys == e.miners.m.Keys
            && (forall id :: id in e.miners.keys ==> id in e.miners.m && id in after)
            && Credits(lines, userId) == Gains(e.miners.keys, e.miners.m, after, userId)
            && (forall j :: 0 <= j < |lines| ==> LineOf(lines[j], e.miners.m, e.roundWork.m, after))
            && (forall i, j :: 0 <= i < j < |lines| ==> lines[i].minerId != lines[j].minerId)
            && (forall id :: id in e.miners.m && Amount(e.roundWork.m, id) > 0.0 ==> HasLine(lines, id))
  {
    hide Total, Sum, UserRewards, Payload, Credits, Gains, LineOf, HasLine, Share, Rewarded, Closed, Distributed;
    var keys, work, total := e.miners.keys, e.roundWork.m, Total(e.roundWork);
    var after := Distributed(e, c).miners.m;
    DistributedPays(e, c);
    assert forall id :: id in keys <==> id in e.roundWork.keys;
    LinesCredit(keys, e.miners.m, work, total, after, userId);
    LinesFit(keys, e.miners.m, work, total, after);
    LinesDiffer(keys, e.miners.m, work, total);
    forall id | id in e.miners.m && Amount(work, id) > 0.0 ensures HasLine(PayloadOf(e), id) {
      KnownWork(e, id);
    }
  }

  lemma DistributedPays(e: Engine, c: Clock)
    requires InStep(e) && Total(e.roundWork) > 0.0
    ensures var after := Distributed(e, c).miners.m;
            after.Keys == e.miners.m.Keys &&
            Paid(e.miners.keys, e.miners.m, e.roundWork.m, Total(e.roundWork), after)
  {
    hide Total, Sum, UserRewards, Share, Rewarded, Closed;
    ClosingKeepsMiners(e, c);
  }

  lemma ClosingKeepsMiners(e: Engine, c: Clock)
    ensures forall n, r :: Closed(e, c, n, r).miners == e.miners
    ensures Total(e.roundWork) > 0.0 ==>
              Distributed(e, c).miners.m == map id | id in e.miners.m ::
                Rewarded(e.miners.m[id], Share(Amount(e.roundWork.m, id), Total(e.roundWork)))
  {
    hide Total, Sum, UserRewards, Share, Rewarded;
  }

  // ---------- profiles and miners ----------

  /** Taking over a profile: at least one rig, the profile's hash rate, the larger balance, which counts as
      persisted only if it came from the profile; all else stays. */
  lemma ProfileTakenOver(m: MinerState, p: Profile)
    ensures var r := MergeProfile(m, p);
            && r.rigs == (if p.rigs >= 1 then p.rigs else 1) && r.baseHashRate == p.baseHashRate
            && r.balance >= m.balance && r.balance >= p.balance && (r.balance == m.balance || r.balance == p.balance)
            && (p.balance > m.balance ==> r.lastPersistedBalance == p.balance)
            && (p.balance <= m.balance ==> r.lastPersistedBalance == m.lastPersistedBalance)
            && r.userId == m.userId && r.active == m.active && r.lifetimeMined == m.lifetimeMined
            && r.boostMultiplier == m.boostMultiplier && r.boostEndsAt == m.boostEndsAt
  {
  }

  /** A new miner is active, without a boost, owes nothing to the database and has at least one rig; without a
      profile it has nothing else. */
  lemma NewMinerStarts(userId: nat, profile: Option<Profile>)
    ensures var r := NewMiner(userId, profile);
            && r.userId == userId && r.active && r.boostMultiplier == 1.0 && r.boostEndsAt == 0
            && r.balance == r.lastPersistedBalance
            && (profile.None? ==> r.rigs == 1 && r.baseHashRate == 0.0 && r.balance == 0.0 && r.lifetimeMined == 0.0)
            && (profile.Some? ==>
                 && r.rigs == (if profile.value.rigs >= 1 then profile.value.rigs else 1)
                 && r.baseHashRate == profile.value.baseHashRate
                 && r.balance == profile.value.balance && r.lifetimeMined == profile.value.lifetimeMined)
  {
  }

  /** After joining a user with an id is found again, under the miner it had or else under the new one; every
      other miner, and whom every other user is found under, is as before. */
  lemma JoinFinds(e: Engine, id: MinerId, userId: nat, profile: Option<Profile>)
    requires userId != 0 && id !in e.miners.m && id !in e.roundWork.m
    requires forall u :: u in e.minersByUserId ==> e.minersByUserId[u] in e.miners.m
    ensures var r := Join(e, id, userId, profile);
            var found := FindMiner(r, userId);
            && found == (if FindMiner(e, userId).Some? then FindMiner(e, userId) else Some(id))
            && (FindMiner(e, userId).None? ==>
                 id in r.miners.m && r.miners.m[id].userId == userId && Amount(r.roundWork.m, id) == 0.0)
            && (FindMiner(e, userId).Some? ==>
                 found.value in r.miners.m &&
                 r.miners.m[found.value] == if profile.None? then e.miners.m[found.value]
                                            else MergeProfile(e.miners.m[found.value], profile.value))
            && (forall o :: o in e.miners.m && found != Some(o) ==> o in r.miners.m && r.miners.m[o] == e.miners.m[o])
            && (forall u :: u != userId ==> FindMiner(r, u) == FindMiner(e, u))
            && (forall o :: o in e.roundWork.m ==> o in r.roundWork.m && r.roundWork.m[o] == e.roundWork.m[o])
  {
  }

  /** Only one miner's state is different. */
  ghost predicate OnlyMiner(e: Engine, r: Engine, id: MinerId) {
    && r == e.(miners := r.miners) && r.miners.keys == e.miners.keys && r.miners.m.Keys == e.miners.m.Keys
    && (forall o :: o in e.miners.m && o != id ==> r.miners.m[o] == e.miners.m[o])
  }

  /** The operations on one miner touch that miner and nothing else. */
  lemma OnlyThatMiner(e: Engine, id: MinerId, active: bool, now: int)
    requires id in e.miners.m
    ensures OnlyMiner(e, SetActive(e, id, active), id) && OnlyMiner(e, ApplyBoost(e, id, now), id)
    ensures OnlyMiner(e, UpgradeRig(e, id), id)
    ensures SetActive(e, id, active).miners.m[id] == e.miners.m[id].(active := active)
  {
  }

  lemma OnlyThatUser(e: Engine, userId: nat, delta: real, profile: Option<Profile>)
    ensures match FindMiner(e, userId)
            case Some(id) =>
              && OnlyMiner(e, ApplyDelta(e, userId, delta), id)
              && OnlyMiner(e, Reload(e, userId, profile), id)
              && ApplyDelta(e, userId, delta).miners.m[id].balance == e.miners.m[id].balance + delta
              && ApplyDelta(e, userId, delta).miners.m[id].lastPersistedBalance ==
                   e.miners.m[id].lastPersistedBalance + delta
              && Reload(e, userId, profile).miners.m[id] ==
                   if profile.None? then e.miners.m[id] else MergeProfile(e.miners.m[id], profile.value)
            case None => ApplyDelta(e, userId, delta) == e && Reload(e, userId, profile) == e
    ensures userId == 0 || userId !in e.minersByUserId ==> FindMiner(e, userId).None?
    ensures userId != 0 && userId in e.minersByUserId && e.minersByUserId[userId] in e.miners.m ==>
              FindMiner(e, userId) == Some(e.minersByUserId[userId])
  {
  }

  /** A miner that is switched off gains no work at a tick. */
  lemma SwitchedOffRests(e: Engine, id: MinerId, now: int)
    requires InStep(e) && id in e.miners.m && !e.miners.m[id].active
    ensures Amount(Worked(e, now).roundWork.m, id) == Amount(e.roundWork.m, id)
  {
    hide Sum, CountPositive;
    assert id in e.miners.keys;
    KnownWork(e, id);
  }

  /** How far a block has come: nothing before it starts, everything once its ten minutes are over, and in
      proportion in between. */
  lemma ProgressIs(now: int, startedAt: int)
    ensures var p := Progress(now, startedAt);
            && (now <= startedAt ==> p == 0.0) && (now >= startedAt + 600_000 ==> p == 100.0)
            && (startedAt <= now <= startedAt + 600_000 ==> p * 600_000.0 == ((now - startedAt) as real) * 100.0)
  {
  }

  // ---------- purchases from memory ----------

  /** What a number of rigs has cost, the first one being free. */
  function RigsCost(rigs: nat): real {
    var bought := (rigs as int - 1) as real;
    2.0 * bought + 0.4 * bought * (bought - 1.0)
  }

  /** However often rigs are bought, balance and rigs at their cost add up to the same, each rig adds the
      same hash rate, and no balance is overdrawn. */
  lemma {:induction false} UpgradesTradeEvenly(m: MinerState, times: nat)
    ensures var r := UpgradedTimes(m, times);
            && r.balance + RigsCost(r.rigs) == m.balance + RigsCost(m.rigs)
            && r.baseHashRate - 18.0 * (r.rigs as real) == m.baseHashRate - 18.0 * (m.rigs as real)
            && m.rigs <= r.rigs <= m.rigs + times
            && (m.rigs >= 1 && m.balance >= 0.0 ==> r.balance >= 0.0)
  {
    if times == 0 {
    } else {
      UpgradesTradeEvenly(m, times - 1);
      NextRigCost(UpgradedTimes(m, times - 1).rigs);
    }
  }

  function UpgradedTimes(m: MinerState, times: nat): MinerState {
    if times == 0 then m else Upgraded(UpgradedTimes(m, times - 1))
  }

  lemma NextRigCost(rigs: nat)
    ensures RigsCost(rigs + 1) == RigsCost(rigs) + 2.0 + ((rigs as int - 1) as real) * 0.8
  {
    var bought := (rigs as int - 1) as real;
    assert ((rigs + 1) as int - 1) as real == bought + 1.0;
    assert 0.4 * (bought + 1.0) * bought == 0.4 * bought * (bought - 1.0) + 0.8 * bought;
  }

  /** A boost that could be paid multiplies the hash rate at every tick for exactly thirty seconds, and
      from then on the rate is the plain one again. */
  lemma BoostLasts(m: MinerState, now: int, tick: int)
    requires m.active && now > 0
    ensures HashRate(BoostExpired(Boosted(m, now), tick)) ==
              if m.balance < 0.35 then HashRate(BoostExpired(m, tick))
              else if tick < now + 30_000 then m.baseHashRate * 1.25 else m.baseHashRate
    ensures Boosted(m, now).balance == if m.balance < 0.35 then m.balance else m.balance - 0.35
  {
  }

  // ---------- a failed persistence ----------

  /** A miner as a failed persistence leaves it: as before the block, but marked as if the reward were persisted. */
  function Unpaid(m: MinerState, reward: real): MinerState {
    m.(lastPersistedBalance := m.lastPersistedBalance + reward)
  }

  /** How far the rollback has come: the miners of the first keys are undone, the others still rewarded. */
  ghost predicate RolledBackUpTo(before: Engine, now: Engine, n: nat) {
    var keys, work, total := before.miners.keys, before.roundWork.m, Total(before.roundWork);
    && total > 0.0 && n <= |keys| && now.miners.keys == keys && now.miners.m.Keys == before.miners.m.Keys
    && now.totalMinted == before.totalMinted + Sum(keys, Shares(work, total)) - Sum(keys[..n], Shares(work, total))
    && (forall j :: 0 <= j < |keys| && keys[j] in before.miners.m ==>
          var m, reward := before.miners.m[keys[j]], Share(Amount(work, keys[j]), total);
          now.miners.m[keys[j]] == if j < n then Unpaid(m, reward) else Rewarded(m, reward))
  }

  lemma RollBackOneKey(before: Engine, now: Engine, n: nat)
    requires InStep(before) && RolledBackUpTo(before, now, n) && n < |before.miners.keys|
    ensures var id, total := before.miners.keys[n], Total(before.roundWork);
            && id in before.miners.m
            && (Amount(before.roundWork.m, id) <= 0.0 ==> RolledBackUpTo(before, now, n + 1))
            && (Amount(before.roundWork.m, id) > 0.0 ==>
                 var line := RewardLine(id, before.miners.m[id], Amount(before.roundWork.m, id), total);
                 RolledBackUpTo(before, RollBackLine(now, line), n + 1))
  {
    hide Total, Sum;
    var keys, work, total := before.miners.keys, before.roundWork.m, Total(before.roundWork);
    var id := keys[n];
    assert id in keys;
    SumOneMore(keys, n, Shares(work, total));
    KnownWork(before, id);
    assert Amount(Shares(work, total), id) == Share(Amount(work, id), total);
  }

  lemma KnownWork(e: Engine, id: MinerId)
    requires InStep(e) && id in e.miners.keys
    ensures id in e.miners.m && id in e.roundWork.m
  {
    assert id in e.roundWork.keys;
  }

  lemma {:induction false} RollBackPayload(before: Engine, c: Clock, n: nat)
    requires InStep(before) && Total(before.roundWork) > 0.0 && n <= |before.miners.keys|
    ensures var lines := Payload(before.miners.keys[..n], before.miners.m, before.roundWork.m, Total(before.roundWork));
            RolledBackUpTo(before, RollBackLines(Distributed(before, c), lines), n)
  {
    hide RolledBackUpTo, Total, Distributed, RollBackLine, RewardLine, InStep;
    var keys, total := before.miners.keys, Total(before.roundWork);
    if n == 0 {
      NothingRolledBack(before, c);
      assert keys[..0] == [];
    } else {
      RollBackPayload(before, c, n - 1);
      var lines := Payload(keys[..n - 1], before.miners.m, before.roundWork.m, total);
      RollBackOneKey(before, RollBackLines(Distributed(before, c), lines), n - 1);
      assert keys[..n][..n - 1] == keys[..n - 1];
      var all := Payload(keys[..n], before.miners.m, before.roundWork.m, total);
      assert all != lines ==> all[..|all| - 1] == lines;
    }
  }

  lemma NothingRolledBack(before: Engine, c: Clock)
    requires InStep(before) && Total(before.roundWork) > 0.0
    ensures RolledBackUpTo(before, Distributed(before, c), 0)
  {
    hide Total, UserRewards;
    assert before.miners.keys[..0] == [];
  }

  /** When persisting a block fails and nothing happened in between, the rollback restores the total minted
      and every balance and lifetime total, but every paid miner keeps its reward marked as persisted. */
  lemma RollbackLeavesMark(before: Engine, c: Clock, id: MinerId)
    requires InStep(before) && Total(before.roundWork) > 0.0 && id in before.miners.m
    ensures var r := RollBackLines(Distributed(before, c), PayloadOf(before));
            && r.totalMinted == before.totalMinted
            && id in r.miners.m
            && r.miners.m[id]
               == Unpaid(before.miners.m[id], Share(Amount(before.roundWork.m, id), Total(before.roundWork)))
  {
    hide Total, Sum, Distributed, RollBackLines, Payload;
    var keys := before.miners.keys;
    RollBackPayload(before, c, |keys|);
    assert keys[..|keys|] == keys;
    assert id in keys;
  }
}
