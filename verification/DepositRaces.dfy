/** What overlapping requests and verifications of deposits can do (server/services/depositVerifier.js,
    server/controllers/walletController.js). */
module DepositRaces {
  import opened Common
  import opened DepositBooks
  import opened DepositSafety

  /** Two overlapping verifications of one row credit it twice. */
  lemma OverlapCreditsTwice(b: Books, id: RowId, amount: real)
    requires id < |b.rows| && b.rows[id].status == PendingVerification && b.rows[id].verifyAttempts < MAX_ATTEMPTS
    requires b.tasks == [] && b.rows[id].userId in b.credits && amount >= DUST && !Duplicate(b.rows, id)
    ensures var b1 := Apply(Apply(b, Fetch(id)), Fetch(id));
            var b2 := Apply(Apply(b1, Resolve(0, Value(amount))), Resolve(1, Value(amount)));
            var b3 := Apply(b2, CreditNow(0));
            var b4 := Apply(b3, CreditNow(0));
            && b4.credits[b.rows[id].userId] == b.credits[b.rows[id].userId] + amount + amount
            && b4.rows[id].amount == amount && !Exclusive(Apply(b, Fetch(id)), Fetch(id)) && !Harmless(b3, CreditNow(0))
  {
  }

  /** The states a run goes through. */
  ghost predicate Follows(run: seq<Step>, states: seq<Books>) {
    && |states| == |run| + 1
    && (forall i :: 0 <= i < |run| ==> Enabled(states[i], run[i]))
    && (forall i :: 0 <= i < |run| ==> Apply(states[i], run[i]) == states[i + 1])
  }

  /** A run with known states, seen step by step. */
  lemma {:induction false} FollowedRun(run: seq<Step>, states: seq<Books>)
    requires Follows(run, states)
    ensures CanRun(states[0], run) && After(states[0], run) == states[|run|]
    ensures AllExclusive(states[0], run) <==> forall i :: 0 <= i < |run| ==> Exclusive(states[i], run[i])
    ensures AllHarmless(states[0], run) <==> forall i :: 0 <= i < |run| ==> Harmless(states[i], run[i])
    ensures AllUnclaimed(states[0], run) <==> forall i :: 0 <= i < |run| ==> Unclaimed(states[i], run[i])
    decreases |run|
  {
    hide Enabled, Apply, Exclusive, Harmless, Unclaimed;
    if run == [] {
    } else {
      FollowedRun(run[1..], states[1..]);
      FirstAndRest(run, states);
    }
  }

  /** What holds of every step holds of the first and of the others. */
  lemma FirstAndRest(run: seq<Step>, states: seq<Books>)
    requires Follows(run, states) && run != []
    ensures Enabled(states[0], run[0]) && Apply(states[0], run[0]) == states[1]
    ensures (forall i :: 0 <= i < |run| ==> Exclusive(states[i], run[i])) <==>
              Exclusive(states[0], run[0]) && forall i :: 0 <= i < |run[1..]| ==> Exclusive(states[1..][i], run[1..][i])
    ensures (forall i :: 0 <= i < |run| ==> Harmless(states[i], run[i])) <==>
              Harmless(states[0], run[0]) && forall i :: 0 <= i < |run[1..]| ==> Harmless(states[1..][i], run[1..][i])
    ensures (forall i :: 0 <= i < |run| ==> Unclaimed(states[i], run[i])) <==>
              Unclaimed(states[0], run[0]) && forall i :: 0 <= i < |run[1..]| ==> Unclaimed(states[1..][i], run[1..][i])
  {
    hide Enabled, Apply, Exclusive, Harmless, Unclaimed;
    assert forall i :: 0 < i < |run| ==> run[i] == run[1..][i - 1] && states[i] == states[1..][i - 1];
  }

  /** A slow verification writes back the count it started from: what other passes have added to the
      attempts of its row in the meantime is lost. */
  lemma SlowVerificationLosesAttempts(b: Books, id: RowId)
    requires b.tasks == [] && id < |b.rows| && b.rows[id].status == PendingVerification
    requires b.rows[id].verifyAttempts + 2 <= MAX_ATTEMPTS
    ensures var b1 := Apply(Apply(Apply(b, Fetch(id)), Fetch(id)), Resolve(1, NoReceipt));
            var b2 := Apply(Apply(b1, Fetch(id)), Resolve(1, NoReceipt));
            var b3 := Apply(b2, Resolve(0, NoReceipt));
            && b2.rows[id].verifyAttempts == b.rows[id].verifyAttempts + 2
            && b3.rows[id].verifyAttempts == b.rows[id].verifyAttempts + 1
            && b3.rows[id].status == PendingVerification
  {
  }

  /** Two submissions of one hash, by whomever, that both read before either creates its row, */
  ghost function Race(u: UserId, v: UserId, hash: Hash): seq<Step> {
    [LookOwn(u, hash, 0.0), LookOwn(v, hash, 0.0), LookOthers(0), LookOthers(1), Insert(0), Insert(0)]
  }

  ghost function RaceStates(b: Books, u: UserId, v: UserId, hash: Hash): seq<Books> {
    var e, f := Entry(u, hash, 0.0, OwnClear), Entry(v, hash, 0.0, OwnClear);
    var e', f' := e.(stage := AllClear), f.(stage := AllClear);
    [b, b.(entries := [e]), b.(entries := [e, f]), b.(entries := [e', f]), b.(entries := [e', f']),
     b.(entries := [f'], rows := [RowOf(e')]), b.(rows := [RowOf(e'), RowOf(f')])]
  }

  /** and one pass over both rows. */
  ghost function PassOverBoth(amount: real): seq<Step> {
    [Fetch(0), Fetch(1), Resolve(0, Value(amount)), Resolve(1, Value(amount)), CreditNow(0), CreditNow(0)]
  }

  ghost function PassStates(b: Books, amount: real): seq<Books>
    requires |b.rows| == 2 && b.rows[0].userId in b.credits && b.rows[1].userId in b.credits
  {
    var credited := b.credits[b.rows[0].userId := b.credits[b.rows[0].userId] + amount];
    var done := (d: Deposit) => d.(status := Completed, amount := amount, verifyAttempts := 1);
    var first := b.(rows := [done(b.rows[0]), b.rows[1]], credits := credited, tasks := [Task(1, 1, Some(amount))]);
    [b, b.(tasks := [Task(0, 1, None)]), b.(tasks := [Task(0, 1, None), Task(1, 1, None)]),
     b.(tasks := [Task(0, 1, Some(amount)), Task(1, 1, None)]),
     b.(tasks := [Task(0, 1, Some(amount)), Task(1, 1, Some(amount))]),
     first,
     b.(rows := [done(b.rows[0]), done(b.rows[1])],
        credits := credited[b.rows[1].userId := credited[b.rows[1].userId] + amount])]
  }

  predicate Untouched(b: Books) {
    b.rows == [] && b.entries == [] && b.tasks == []
  }

  lemma RaceFollows(b: Books, u: UserId, v: UserId, hash: Hash)
    requires Untouched(b) && u in b.credits && v in b.credits
    ensures Follows(Race(u, v, hash), RaceStates(b, u, v, hash))
  {
    hide OwnRow, OthersClaim, RemoveAt;
    var run, states := Race(u, v, hash), RaceStates(b, u, v, hash);
    NothingRead(u, hash);
    NothingRead(v, hash);
    forall i | 0 <= i < 6 ensures Enabled(states[i], run[i]) && Apply(states[i], run[i]) == states[i + 1] {
      LastOut(states[4].entries);
      if i == 0 {
      } else if i == 1 {
      } else if i == 2 {
      } else if i == 3 {
      } else if i == 4 {
      } else {
      }
    }
  }

  lemma RaceIsUnnoticed(b: Books, u: UserId, v: UserId, hash: Hash)
    requires Follows(Race(u, v, hash), RaceStates(b, u, v, hash))
    ensures var states := RaceStates(b, u, v, hash);
            forall i :: 0 <= i < 6 ==>
                Exclusive(states[i], Race(u, v, hash)[i]) && Harmless(states[i], Race(u, v, hash)[i])
    ensures !Unclaimed(RaceStates(b, u, v, hash)[5], Race(u, v, hash)[5])
  {
    hide Apply, Enabled, Claimed;
    NowClaimed(RowOf(RaceStates(b, u, v, hash)[4].entries[0]));
  }

  lemma NothingRead(u: UserId, hash: Hash)
    ensures !OwnRow([], hash, u) && !OthersClaim([], hash, u)
  {
  }

  lemma NowClaimed(d: Deposit)
    ensures d.status != Failed ==> Claimed([d], d.txHash)
  {
    assert [d][0] == d;
  }

  lemma LastOut<T>(s: seq<T>)
    ensures |s| == 2 ==> RemoveAt(s, 0) == [s[1]] && RemoveAt([s[1]], 0) == []
  {
  }

  predicate BothWait(b: Books) {
    && |b.rows| == 2 && b.rows[0].userId in b.credits && b.rows[1].userId in b.credits && b.tasks == []
    && (forall i :: 0 <= i < 2 ==> b.rows[i].status == PendingVerification && b.rows[i].verifyAttempts == 0)
  }

  lemma PassFollows(b: Books, amount: real)
    requires BothWait(b) && amount >= DUST
    ensures Follows(PassOverBoth(amount), PassStates(b, amount))
  {
    hide Judge, Duplicate, RemoveAt;
    var run, states := PassOverBoth(amount), PassStates(b, amount);
    NoneCompleted(b.rows, amount);
    forall i | 0 <= i < 6 ensures Enabled(states[i], run[i]) && Apply(states[i], run[i]) == states[i + 1] {
      LastOut(states[4].tasks);
      if i == 0 {
      } else if i == 1 {
      } else if i == 2 {
      } else if i == 3 {
      } else if i == 4 {
      } else {
      }
    }
  }

  lemma PassIsUnnoticed(b: Books, amount: real)
    requires BothWait(b) && Follows(PassOverBoth(amount), PassStates(b, amount))
    ensures forall i :: 0 <= i < 6 ==>
              Exclusive(PassStates(b, amount)[i], PassOverBoth(amount)[i]) &&
                Harmless(PassStates(b, amount)[i], PassOverBoth(amount)[i])
  {
    hide Apply, Enabled, Judge, Duplicate;
  }

  lemma NoneCompleted(rows: seq<Deposit>, amount: real)
    requires amount >= DUST && forall i :: 0 <= i < |rows| ==> rows[i].status == PendingVerification
    ensures Judge(1, Value(amount)) == Credit(amount) && forall i :: 0 <= i < |rows| ==> !Duplicate(rows, i)
  {
  }

  /** Two submissions of one hash that both read before either creates its row are both recorded; a single
      pass then credits both, since neither row is completed when the other is checked. The two users may
      be one and the same. */
  lemma RacingSubmissionsCreditTwice(u: UserId, v: UserId, hash: Hash, amount: real)
    requires amount >= DUST
    ensures var b, run := Opened({u, v}), Race(u, v, hash) + PassOverBoth(amount);
            && CanRun(b, run) && AllExclusive(b, run) && AllHarmless(b, run) && !AllUnclaimed(b, run)
            && After(b, run).rows == [Deposit(u, hash, amount, Completed, 1), Deposit(v, hash, amount, Completed, 1)]
            && After(b, run).credits == if u == v then map[u := amount + amount] else map[u := amount, v := amount]
  {
    hide Enabled, Apply, Exclusive, Harmless, Unclaimed, RaceStates, PassStates, Opened, RowOf;
    var b := Opened({u, v});
    var race := RaceStates(b, u, v, hash);
    BothRecorded(u, v, hash);
    var pass := PassStates(race[6], amount);
    RaceFollows(b, u, v, hash);
    RaceIsUnnoticed(b, u, v, hash);
    PassFollows(race[6], amount);
    PassIsUnnoticed(race[6], amount);
    BothCredited(race[6], u, v, hash, amount);
    var run, states := Race(u, v, hash) + PassOverBoth(amount), race + pass[1..];
    assert forall i :: 0 <= i < 6 ==> run[i] == Race(u, v, hash)[i] && run[i + 6] == PassOverBoth(amount)[i];
    assert forall i :: 0 <= i <= 6 ==> states[i] == race[i] && states[i + 6] == pass[i];
    assert !Unclaimed(states[5], run[5]);
    FollowedRun(run, states);
  }

  /** The race starts from nothing and ends with both rows waiting. */
  lemma BothRecorded(u: UserId, v: UserId, hash: Hash)
    ensures var b := Opened({u, v});
            var race := RaceStates(b, u, v, hash);
            && Untouched(b) && u in b.credits && v in b.credits
            && |race| == 7 && race[0] == b && BothWait(race[6])
            && race[6].rows
               == [Deposit(u, hash, 0.0, PendingVerification, 0), Deposit(v, hash, 0.0, PendingVerification, 0)]
            && race[6].credits.Keys == {u, v} && race[6].credits[u] == 0.0 && race[6].credits[v] == 0.0
  {
  }

  lemma BothCredited(b: Books, u: UserId, v: UserId, hash: Hash, amount: real)
    requires BothWait(b) && b.credits.Keys == {u, v} && b.credits[u] == 0.0 && b.credits[v] == 0.0
    requires b.rows == [Deposit(u, hash, 0.0, PendingVerification, 0), Deposit(v, hash, 0.0, PendingVerification, 0)]
    ensures var pass := PassStates(b, amount);
            && |pass| == 7 && pass[0] == b
            && pass[6].rows == [Deposit(u, hash, amount, Completed, 1), Deposit(v, hash, amount, Completed, 1)]
            && pass[6].credits == if u == v then map[u := amount + amount] else map[u := amount, v := amount]
  {
  }
}
