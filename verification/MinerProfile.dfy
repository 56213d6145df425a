/** persistMinerProfile on the engine's miner objects (server/models/minerProfileModel.js), and the
    steps of the balance cache that the engine's operations are. */
module MinerProfile {
  import opened Common
  import opened MiningState
  import opened MiningEngine
  import Cache = BalanceCache

  /** The users' rows, as far as the POL balance goes. */
  class Database {
    var polBalance: map<nat, real>
  }

  /** A miner's cached balance and its user's row, with nothing under way. */
  function View(m: MinerState, db: real, unmerged: real): Cache.Account {
    Cache.Account(m.balance, m.lastPersistedBalance, db, unmerged, [], [], [], [])
  }

  /** `ok` is false when the update finds no row, which the source reports by throwing. */
  method PersistMinerProfile(miner: Miner?, db: Database) returns (ok: bool)
    modifies if miner == null then {} else {miner}, db
    ensures db.polBalance.Keys == old(db.polBalance.Keys)
    ensures miner == null || miner.userId == 0 ==> ok && unchanged(db)
    ensures forall u :: u in db.polBalance && (miner == null || u != miner.userId) ==>
              db.polBalance[u] == old(db.polBalance)[u]
    ensures miner != null ==> miner.State() == old(miner.State()).(lastPersistedBalance := miner.lastPersistedBalance)
    ensures miner != null && miner.userId != 0 && miner.userId in db.polBalance ==>
              ok && View(miner.State(), db.polBalance[miner.userId], 0.0)
                    == Cache.PersistWhole(old(View(miner.State(), db.polBalance[miner.userId], 0.0)))
    ensures !ok ==> unchanged(db) && miner != null && unchanged(miner)
    ensures !ok <==> miner != null && miner.userId != 0 && miner.userId !in db.polBalance &&
                     !(-Cache.DEAD_BAND < old(miner.balance - miner.lastPersistedBalance) < Cache.DEAD_BAND)
  {
    if miner == null || miner.userId == 0 {
      return true;
    }
    var delta := miner.balance - miner.lastPersistedBalance;
    if -Cache.DEAD_BAND < delta < Cache.DEAD_BAND {
      return true;
    }
    if miner.userId !in db.polBalance {
      return false;
    }
    var row := db.polBalance[miner.userId];
    db.polBalance := db.polBalance[miner.userId := if delta > 0.0 then row + delta else row - (-delta)];
    miner.lastPersistedBalance := miner.balance;
    ok := true;
  }

  /** What the engine does to a miner is what the cache's steps do to its view: purchases from memory, */
  lemma PurchasesAreSpending(m: MinerState, db: real, unmerged: real, now: int)
    ensures View(Boosted(m, now), db, unmerged) ==
              if m.balance < BOOST_COST then View(m, db, unmerged)
              else Cache.Apply(View(m, db, unmerged), Cache.Spend(BOOST_COST))
    ensures View(Upgraded(m), db, unmerged) ==
              if m.balance < RigCost(m) then View(m, db, unmerged)
              else Cache.Apply(View(m, db, unmerged), Cache.Spend(RigCost(m)))
  {
  }

  /** changes made on both sides, */
  lemma MirrorsAreWhole(m: MinerState, db: real, unmerged: real, amount: real)
    ensures View(Credited(m, amount), db + amount, unmerged) == Cache.Do(View(m, db, unmerged), Cache.Paired(amount))
    ensures View(Rewarded(m, amount), db + amount, unmerged)
            == Cache.Do(View(m, db, unmerged), Cache.BlockReward(amount))
  {
    assert RemoveAt([amount], 0) == [];
  }

  /** and profiles taken over. */
  lemma MergesAreReloads(m: MinerState, db: real, unmerged: real, p: Profile)
    requires p.balance == db
    ensures View(MiningState.MergeProfile(m, p), db, if db > m.balance then 0.0 else unmerged) ==
              Cache.Do(View(m, db, unmerged), Cache.ReloadProfile)
    ensures View(NewMiner(1, Some(p)), db, 0.0) == Cache.Created(db)
  {
    var read := Cache.Apply(View(m, db, unmerged), Cache.ReadProfile);
    assert RemoveAt(read.reloads, 0) == [];
  }
}
