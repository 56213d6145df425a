/** The write-back balance cache of one user: the balance the mining engine holds in memory, how
    much of it is marked as persisted, and the balance in the database. Every operation that
    awaits is split at the await, so that a run is any interleaving of the parts.
    (server/models/minerProfileModel.js, server/src/runtime/miningRuntime.js, server/src/miningEngine.js) */
module BalanceCache {
  import opened Common

  // below this, persistMinerProfile does not write
  const DEAD_BAND := 0.0000001

  /** A call of persistMinerProfile on its way: the delta it read, and whether the database has it yet. */
  datatype Flight = Flight(delta: real, written: bool)

  /** A reload on its way: the database balance it read, and the database-only credits since. */
  datatype Reload = Reload(read: real, since: real)

  /** `balance` and `persisted` are the miner's two fields and `db` the user's row. The rest says what
      is under way: database-only credits not merged yet, changes committed but not mirrored yet,
      changes made in memory but not committed yet, and calls between their parts. */
  datatype Account = Account(
    balance: real, persisted: real, db: real,
    unmerged: real, mirrors: seq<real>, uncommitted: seq<real>, flights: seq<Flight>, reloads: seq<Reload>)

  datatype Step =
    | CreditDbOnly(amount: real)              // a change made in the database alone
    | CommitPaired(amount: real)              // the database half of a paired change
    | MirrorPaired(i: nat)                    // its other half, applyUserBalanceDelta
    | CreditMemory(amount: real)              // memory first: distributeRewards, or a mirror inside its transaction
    | CommitCredit(i: nat)                    // the database has it too
    | FailReward(i: nat, snapshot: real)      // a block's callback fails, and the engine rolls back
    | FailMirrored(i: nat)                    // a transaction fails, and its mirror stays
    | Spend(amount: real)                     // applyBoost, upgradeRig
    | ReadDelta                               // persistMinerProfile up to its await
    | WriteDelta(i: nat)                      // the database increment
    | FinishPersist(i: nat)                   // what follows the await
    | AbandonPersist(i: nat)                  // or the update throws
    | ReadProfile                             // reloadMinerProfile up to its await
    | MergeProfile(i: nat)                    // what follows the await
    | AbandonReload(i: nat)                   // or the loader returns nothing

  function Sum(s: seq<real>): real {
    if s == [] then 0.0 else Sum(s[..|s| - 1]) + s[|s| - 1]
  }

  /** The deltas that the database has but the miner's mark does not. */
  function Written(flights: seq<Flight>): real {
    if flights == [] then 0.0
    else
      var last := flights[|flights| - 1];
      Written(flights[..|flights| - 1]) + (if last.written then last.delta else 0.0)
  }

  function Pending(a: Account): real {
    a.balance - a.persisted
  }

  predicate Enabled(a: Account, s: Step) {
    match s
    case MirrorPaired(i) => i < |a.mirrors|
    case CommitCredit(i) => i < |a.uncommitted|
    case FailReward(i, _) => i < |a.uncommitted|
    case FailMirrored(i) => i < |a.uncommitted|
    case WriteDelta(i) => i < |a.flights| && !a.flights[i].written
    case FinishPersist(i) => i < |a.flights| && a.flights[i].written
    case MergeProfile(i) => i < |a.reloads|
    case AbandonPersist(i) => i < |a.flights| && !a.flights[i].written
    case AbandonReload(i) => i < |a.reloads|
    case _ => true
  }

  function CreditReloads(reloads: seq<Reload>, amount: real): seq<Reload> {
    seq(|reloads|, i requires 0 <= i < |reloads| => reloads[i].(since := reloads[i].since + amount))
  }

  function Apply(a: Account, s: Step): Account
    requires Enabled(a, s)
  {
    match s
    case CreditDbOnly(x) => a.(db := a.db + x, unmerged := a.unmerged + x, reloads := CreditReloads(a.reloads, x))
    case CommitPaired(x) => a.(db := a.db + x, mirrors := a.mirrors + [x])
    case MirrorPaired(i) =>
      a.(balance := a.balance + a.mirrors[i], persisted := a.persisted + a.mirrors[i],
         mirrors := RemoveAt(a.mirrors, i))
    case CreditMemory(x) => a.(balance := a.balance + x, persisted := a.persisted + x,
                               uncommitted := a.uncommitted + [x])
    case CommitCredit(i) => a.(db := a.db + a.uncommitted[i], uncommitted := RemoveAt(a.uncommitted, i))
    case FailReward(i, snapshot) => a.(balance := snapshot, uncommitted := RemoveAt(a.uncommitted, i))
    case FailMirrored(i) => a.(uncommitted := RemoveAt(a.uncommitted, i))
    case Spend(x) => a.(balance := a.balance - x)
    case ReadDelta =>
      if -DEAD_BAND < Pending(a) < DEAD_BAND then a else a.(flights := a.flights + [Flight(Pending(a), false)])
    case WriteDelta(i) =>
      a.(db := a.db + a.flights[i].delta, flights := a.flights[i := a.flights[i].(written := true)])
    case FinishPersist(i) => a.(persisted := a.balance, flights := RemoveAt(a.flights, i))
    case AbandonPersist(i) => a.(flights := RemoveAt(a.flights, i))
    case AbandonReload(i) => a.(reloads := RemoveAt(a.reloads, i))
    case ReadProfile => a.(reloads := a.reloads + [Reload(a.db, 0.0)])
    case MergeProfile(i) =>
      var r := a.reloads[i];
      var a := a.(reloads := RemoveAt(a.reloads, i));
      if r.read > a.balance then a.(balance := r.read, persisted := r.read, unmerged := r.since) else a
  }

  /** How far the database is ahead of what the cache believes, with everything under way settled. */
  function Gap(a: Account): real {
    a.db + Sum(a.uncommitted) - Sum(a.mirrors) - Written(a.flights) - a.persisted - a.unmerged
  }

  /** The cache agrees with what it caches. */
  predicate Agrees(a: Account) {
    Gap(a) == 0.0
  }

  /** Nothing is under way. */
  predicate Settled(a: Account) {
    a.mirrors == [] && a.uncommitted == [] && a.flights == [] && a.reloads == []
  }

  // ---------- sums over what is under way ----------

  lemma {:induction false} SumWithout(s: seq<real>, i: nat)
    requires i < |s|
    ensures Sum(RemoveAt(s, i)) == Sum(s) - s[i]
  {
    if i == |s| - 1 {
      assert RemoveAt(s, i) == s[..|s| - 1];
    } else {
      var rest := s[..|s| - 1];
      SumWithout(rest, i);
      assert RemoveAt(s, i)[..|s| - 2] == RemoveAt(rest, i);
    }
  }

  lemma SumWith(s: seq<real>, x: real)
    ensures Sum(s + [x]) == Sum(s) + x
  {
    assert (s + [x])[..|s|] == s;
  }

  lemma {:induction false} WrittenWithout(s: seq<Flight>, i: nat)
    requires i < |s|
    ensures Written(RemoveAt(s, i)) == Written(s) - (if s[i].written then s[i].delta else 0.0)
  {
    if i == |s| - 1 {
      assert RemoveAt(s, i) == s[..|s| - 1];
    } else {
      var rest := s[..|s| - 1];
      WrittenWithout(rest, i);
      assert RemoveAt(s, i)[..|s| - 2] == RemoveAt(rest, i);
    }
  }

  lemma WrittenWith(s: seq<Flight>, f: Flight)
    ensures Written(s + [f]) == Written(s) + (if f.written then f.delta else 0.0)
  {
    assert (s + [f])[..|s|] == s;
  }

  lemma {:induction false} WrittenMarked(s: seq<Flight>, i: nat)
    requires i < |s| && !s[i].written
    ensures Written(s[i := s[i].(written := true)]) == Written(s) + s[i].delta
  {
    var t := s[i := s[i].(written := true)];
    if i == |s| - 1 {
      assert t[..|s| - 1] == s[..|s| - 1];
    } else {
      WrittenMarked(s[..|s| - 1], i);
      assert t[..|s| - 1] == s[..|s| - 1][i := s[i].(written := true)];
    }
  }

  // ---------- every step ----------

  /** How much a step moves the gap: only the end of a persist, a merge that takes effect and a
      failed commit can move it at all. */
  function Shift(a: Account, s: Step): real
    requires Enabled(a, s)
  {
    match s
    case FinishPersist(i) => a.flights[i].delta - Pending(a)
    case MergeProfile(i) =>
      if a.reloads[i].read > a.balance
      then (a.persisted + a.unmerged) - (a.reloads[i].read + a.reloads[i].since) else 0.0
    case FailReward(i, _) => -a.uncommitted[i]
    case FailMirrored(i) => -a.uncommitted[i]
    case _ => 0.0
  }

  /** In any state whatever, agreeing or not, a step moves the gap by exactly its shift. */
  lemma GapMoves(a: Account, s: Step)
    requires Enabled(a, s)
    ensures Gap(Apply(a, s)) == Gap(a) + Shift(a, s)
  {
    match s
    case CommitPaired(x) => SumWith(a.mirrors, x);
    case MirrorPaired(i) => SumWithout(a.mirrors, i);
    case CreditMemory(x) => SumWith(a.uncommitted, x);
    case CommitCredit(i) => SumWithout(a.uncommitted, i);
    case FailReward(i, _) => SumWithout(a.uncommitted, i);
    case FailMirrored(i) => SumWithout(a.uncommitted, i);
    case ReadDelta => WrittenWith(a.flights, Flight(Pending(a), false));
    case WriteDelta(i) => WrittenMarked(a.flights, i);
    case FinishPersist(i) => WrittenWithout(a.flights, i);
    case AbandonPersist(i) => WrittenWithout(a.flights, i);
    case _ =>
  }

  /** What can be checked before a step to know that the cache will still agree after it. A persist may
      end if as much is pending as when it read its delta. A merge may take effect if what it read,
      with the database-only credits since, is what the miner has marked, with those not merged. What
      fails to be committed must have been nothing. */
  predicate Safe(a: Account, s: Step)
    requires Enabled(a, s)
  {
    match s
    case FinishPersist(i) => Pending(a) == a.flights[i].delta
    case MergeProfile(i) =>
      a.reloads[i].read <= a.balance || a.reloads[i].read + a.reloads[i].since == a.persisted + a.unmerged
    case FailReward(i, _) => a.uncommitted[i] == 0.0
    case FailMirrored(i) => a.uncommitted[i] == 0.0
    case _ => true
  }

  /** Every step of every interleaving keeps the agreement exactly when it is safe. */
  lemma StepKeepsIff(a: Account, s: Step)
    requires Enabled(a, s) && Agrees(a)
    ensures Agrees(Apply(a, s)) <==> Safe(a, s)
  {
    GapMoves(a, s);
  }

  // ---------- runs ----------

  ghost predicate CanRun(a: Account, run: seq<Step>)
    decreases |run|
  {
    run == [] || (Enabled(a, run[0]) && CanRun(Apply(a, run[0]), run[1..]))
  }

  ghost function After(a: Account, run: seq<Step>): Account
    requires CanRun(a, run)
    decreases |run|
  {
    if run == [] then a else After(Apply(a, run[0]), run[1..])
  }

  ghost predicate AllSafe(a: Account, run: seq<Step>)
    requires CanRun(a, run)
    decreases |run|
  {
    run == [] || (Safe(a, run[0]) && AllSafe(Apply(a, run[0]), run[1..]))
  }

  ghost predicate AgreesThroughout(a: Account, run: seq<Step>)
    requires CanRun(a, run)
    decreases |run|
  {
    Agrees(a) && (run == [] || AgreesThroughout(Apply(a, run[0]), run[1..]))
  }

  /** A miner as it is created from a profile read before: since then the database has moved by `since`, all
      of it unmirrored for want of a miner, and `mirrors` are changes committed before and mirrored after. */
  function CreatedFrom(read: real, since: real, mirrors: seq<real>): Account {
    Account(read, read, read + since, since, mirrors, [], [], [])
  }

  /** With nothing in between. */
  function Created(balance: real): Account {
    CreatedFrom(balance, 0.0, [])
  }

  /** Whatever happened between the reading and the creation, the cache agrees exactly when what is still to
      be mirrored adds up to nothing. */
  lemma CreatedAgreesIff(read: real, since: real, mirrors: seq<real>)
    ensures Agrees(CreatedFrom(read, since, mirrors)) <==> Sum(mirrors) == 0.0
  {
  }

  /** From creation on, the cache agrees at every point of a run exactly when every step was safe. */
  lemma {:induction false} RunAgreesIff(a: Account, run: seq<Step>)
    requires CanRun(a, run) && Agrees(a)
    ensures AgreesThroughout(a, run) <==> AllSafe(a, run)
    decreases |run|
  {
    if run == [] {
    } else {
      StepKeepsIff(a, run[0]);
      if Safe(a, run[0]) {
        RunAgreesIff(Apply(a, run[0]), run[1..]);
      }
    }
  }

  lemma {:induction false} AgreesAtEnd(a: Account, run: seq<Step>)
    requires CanRun(a, run) && AllSafe(a, run) && Agrees(a)
    ensures Agrees(After(a, run))
    decreases |run|
  {
    if run == [] {
    } else {
      StepKeepsIff(a, run[0]);
      AgreesAtEnd(Apply(a, run[0]), run[1..]);
    }
  }

  // ---------- what may fall into a window ----------

  /** The steps that are safe whenever they come. */
  predicate AlwaysSafe(s: Step) {
    !s.FinishPersist? && !s.MergeProfile? && !s.FailReward? && !s.FailMirrored?
  }

  /** Of these, what leaves alone how much is pending. */
  predicate InPersistWindow(s: Step) {
    AlwaysSafe(s) && !s.Spend? && !s.AbandonPersist?
  }

  /** And what leaves the mark alone: everything but the memory halves of changes. */
  predicate InReloadWindow(s: Step) {
    AlwaysSafe(s) && !s.MirrorPaired? && !s.CreditMemory? && !s.AbandonReload?
  }

  lemma {:induction false} WindowIsSafe(a: Account, window: seq<Step>)
    requires CanRun(a, window) && forall i :: 0 <= i < |window| ==> AlwaysSafe(window[i])
    ensures AllSafe(a, window)
    decreases |window|
  {
    if window == [] {
    } else {
      WindowIsSafe(Apply(a, window[0]), window[1..]);
    }
  }

  lemma {:induction false} PersistWindowKeeps(a: Account, window: seq<Step>, i: nat)
    requires i < |a.flights| && CanRun(a, window) && forall k :: 0 <= k < |window| ==> InPersistWindow(window[k])
    ensures var end := After(a, window);
            Pending(end) == Pending(a) && i < |end.flights| && end.flights[i].delta == a.flights[i].delta
    decreases |window|
  {
    if window == [] {
    } else {
      PersistWindowKeeps(Apply(a, window[0]), window[1..], i);
    }
  }

  /** A persist from an agreeing state: whatever else happens in its window, as long as there is no purchase
      from memory, no end of another persist or reload and no failed commit, it ends safely, and the cache
      agrees before and after its end. */
  lemma PersistWindow(a: Account, window: seq<Step>)
    requires Agrees(a) && (Pending(a) <= -DEAD_BAND || Pending(a) >= DEAD_BAND)
    requires CanRun(Apply(a, ReadDelta), window) && forall k :: 0 <= k < |window| ==> InPersistWindow(window[k])
    requires Enabled(After(Apply(a, ReadDelta), window), FinishPersist(|a.flights|))
    ensures var end := After(Apply(a, ReadDelta), window);
            && Agrees(end) && Safe(end, FinishPersist(|a.flights|)) && Agrees(Apply(end, FinishPersist(|a.flights|)))
  {
    hide Gap, Agrees;
    var read := Apply(a, ReadDelta);
    StepKeepsIff(a, ReadDelta);
    WindowIsSafe(read, window);
    AgreesAtEnd(read, window);
    PersistWindowKeeps(read, window, |a.flights|);
    StepKeepsIff(After(read, window), FinishPersist(|a.flights|));
  }

  /** A change that is half done: in one of the two places only, or written by a persist that has not ended. */
  function HalfDone(a: Account): real {
    Sum(a.uncommitted) - Sum(a.mirrors) - Written(a.flights)
  }

  lemma {:induction false} ReloadWindowKeeps(a: Account, window: seq<Step>, i: nat)
    requires i < |a.reloads| && CanRun(a, window) && forall k :: 0 <= k < |window| ==> InReloadWindow(window[k])
    requires a.reloads[i].read + a.reloads[i].since == a.persisted + a.unmerged
    ensures var end := After(a, window);
            i < |end.reloads| && end.reloads[i].read + end.reloads[i].since == end.persisted + end.unmerged
    decreases |window|
  {
    if window == [] {
    } else {
      ReloadWindowKeeps(Apply(a, window[0]), window[1..], i);
    }
  }

  /** A reload that reads when nothing is half done, from an agreeing state: whatever else happens in its
      window, as long as no change reaches memory, no persist or other reload ends and no commit fails, its
      merge is safe, and the cache agrees before and after it. */
  lemma ReloadWindow(a: Account, window: seq<Step>)
    requires Agrees(a) && HalfDone(a) == 0.0
    requires CanRun(Apply(a, ReadProfile), window) && forall k :: 0 <= k < |window| ==> InReloadWindow(window[k])
    ensures var end := After(Apply(a, ReadProfile), window);
            && Enabled(end, MergeProfile(|a.reloads|)) && Agrees(end)
            && Safe(end, MergeProfile(|a.reloads|)) && Agrees(Apply(end, MergeProfile(|a.reloads|)))
  {
    var read := Apply(a, ReadProfile);
    ReloadWindowKeeps(read, window, |a.reloads|);
    hide Gap, Agrees;
    StepKeepsIff(a, ReadProfile);
    WindowIsSafe(read, window);
    AgreesAtEnd(read, window);
    StepKeepsIff(After(read, window), MergeProfile(|a.reloads|));
  }

  // ---------- well-timed runs ----------

  predicate NothingHalfDone(a: Account) {
    a.mirrors == [] && a.uncommitted == [] && a.flights == []
  }

  /** What may come when, by what is under way and by nothing else: persists do not overlap with each other
      or with reloads, there is no purchase from memory while a persist is under way, a reload reads when
      nothing is half done, no change reaches memory while a reload is under way, and no commit fails. */
  predicate WellTimed(a: Account, s: Step) {
    match s
    case Spend(_) => a.flights == []
    case ReadDelta => a.flights == [] && a.reloads == []
    case ReadProfile => NothingHalfDone(a)
    case MirrorPaired(_) => a.reloads == []
    case CreditMemory(_) => a.reloads == []
    case FailReward(_, _) => false
    case FailMirrored(_) => false
    case _ => true
  }

  /** What well-timed steps keep: the cache agrees, at most one persist is under way and as much is pending
      as it read, none of them overlaps a reload, and every reading is worth what the miner has marked. */
  ghost predicate InTime(a: Account) {
    && Agrees(a)
    && |a.flights| <= 1
    && (a.flights != [] ==> a.flights[0].delta == Pending(a) && a.reloads == [])
    && ReadingsHold(a)
  }

  ghost predicate ReadingsHold(a: Account) {
    forall i :: 0 <= i < |a.reloads| ==> a.reloads[i].read + a.reloads[i].since == a.persisted + a.unmerged
  }

  lemma WellTimedIsSafe(a: Account, s: Step)
    requires Enabled(a, s) && WellTimed(a, s) && InTime(a)
    ensures Safe(a, s) && InTime(Apply(a, s))
  {
    hide Gap, Agrees, RemoveAt, CreditReloads;
    StepKeepsIff(a, s);
    if s.ReadProfile? {
      ReadingIsMark(a);
    }
    ReadingsStay(a, s);
    FlightStays(a, s);
  }

  lemma FlightStays(a: Account, s: Step)
    requires Enabled(a, s) && WellTimed(a, s) && |a.flights| <= 1
    requires a.flights != [] ==> a.flights[0].delta == Pending(a) && a.reloads == []
    ensures var r := Apply(a, s);
            |r.flights| <= 1 && (r.flights != [] ==> r.flights[0].delta == Pending(r) && r.reloads == [])
  {
    hide RemoveAt, CreditReloads;
    if s.CreditDbOnly? {
      NoReloads(s.amount);
    }
  }

  lemma NoReloads(amount: real)
    ensures CreditReloads([], amount) == []
  {
  }

  /** With nothing half done the database has what is marked and what is not merged. */
  lemma ReadingIsMark(a: Account)
    requires Agrees(a) && NothingHalfDone(a)
    ensures a.db == a.persisted + a.unmerged
  {
  }

  lemma ReadingsStay(a: Account, s: Step)
    requires Enabled(a, s) && WellTimed(a, s) && ReadingsHold(a) && (a.flights != [] ==> a.reloads == [])
    requires s.ReadProfile? ==> a.db == a.persisted + a.unmerged
    ensures ReadingsHold(Apply(a, s))
  {
  }

  ghost predicate AllWellTimed(a: Account, run: seq<Step>)
    requires CanRun(a, run)
    decreases |run|
  {
    run == [] || (WellTimed(a, run[0]) && AllWellTimed(Apply(a, run[0]), run[1..]))
  }

  lemma {:induction false} WellTimedRunIsSafe(a: Account, run: seq<Step>)
    requires InTime(a) && CanRun(a, run) && AllWellTimed(a, run)
    ensures AllSafe(a, run) && InTime(After(a, run))
    decreases |run|
  {
    hide InTime, WellTimed, Safe;
    if run == [] {
    } else {
      WellTimedIsSafe(a, run[0]);
      WellTimedRunIsSafe(Apply(a, run[0]), run[1..]);
    }
  }

  /** Cache agreement, over every well-timed run from creation on: the cache agrees at every point; and
      whenever no change is half done, the database balance is what the miner has marked as persisted plus
      the database-only credits since the last merge. */
  lemma CacheAgreement(read: real, since: real, run: seq<Step>)
    requires CanRun(CreatedFrom(read, since, []), run) && AllWellTimed(CreatedFrom(read, since, []), run)
    ensures AllSafe(CreatedFrom(read, since, []), run) && AgreesThroughout(CreatedFrom(read, since, []), run)
    ensures var a := After(CreatedFrom(read, since, []), run);
            NothingHalfDone(a) ==> a.db == a.persisted + a.unmerged
  {
    hide AllWellTimed, WellTimed, Safe;
    var created := CreatedFrom(read, since, []);
    CreatedInTime(read, since);
    WellTimedRunIsSafe(created, run);
    RunAgreesIff(created, run);
    if NothingHalfDone(After(created, run)) {
      ReadingIsMark(After(created, run));
    }
  }

  lemma CreatedInTime(read: real, since: real)
    ensures InTime(CreatedFrom(read, since, []))
  {
  }

  /** persistMinerProfile with nothing in its window. */
  function PersistWhole(a: Account): Account
    requires a.flights == []
  {
    if -DEAD_BAND < Pending(a) < DEAD_BAND then a
    else Apply(Apply(Apply(a, ReadDelta), WriteDelta(0)), FinishPersist(0))
  }

  /** Uninterrupted, it moves exactly what was pending into the database and keeps the gap as it was. */
  lemma PersistWholeWrites(a: Account)
    requires a.flights == []
    ensures var w := PersistWhole(a);
            && w.balance == a.balance && w.flights == [] && Gap(w) == Gap(a)
            && (w == a <==> -0.0000001 < Pending(a) < 0.0000001) && (w != a ==> Pending(w) == 0.0)
            && w.db - a.db == w.persisted - a.persisted
  {
    hide Sum, Written;
    PersistWholeIs(a);
  }

  lemma PersistWholeIs(a: Account)
    requires a.flights == []
    ensures PersistWhole(a) == if -DEAD_BAND < Pending(a) < DEAD_BAND then a
            else a.(db := a.db + Pending(a), persisted := a.balance)
  {
    hide Sum, Written;
    if !(-DEAD_BAND < Pending(a) < DEAD_BAND) {
      var read := Apply(a, ReadDelta);
      assert read == a.(flights := [Flight(Pending(a), false)]);
      var written := Apply(read, WriteDelta(0));
      assert written == a.(db := a.db + Pending(a), flights := [Flight(Pending(a), true)]);
    }
  }

  // ---------- whole operations ----------

  /** The operations with nothing in their windows. */
  datatype Operation = DbOnly(amount: real) | Paired(amount: real) | BlockReward(amount: real) | Purchase(amount: real)
                     | Persist | ReloadProfile

  function Do(a: Account, op: Operation): Account
    requires Settled(a)
  {
    match op
    case DbOnly(x) => Apply(a, CreditDbOnly(x))
    case Paired(x) => Apply(Apply(a, CommitPaired(x)), MirrorPaired(0))
    case BlockReward(x) => Apply(Apply(a, CreditMemory(x)), CommitCredit(0))
    case Purchase(x) => Apply(a, Spend(x))
    case Persist => PersistWhole(a)
    case ReloadProfile => Apply(Apply(a, ReadProfile), MergeProfile(0))
  }

  /** One whole operation leaves nothing under way and the cache in agreement; the database plus what
      is pending moves by exactly the amount involved, except that a reload forgives pending spending. */
  lemma WholeOperationAgrees(a: Account, op: Operation)
    requires Settled(a) && Agrees(a)
    ensures var d := Do(a, op);
            && Settled(d) && Agrees(d) && d.db == d.persisted + d.unmerged
            && Owed(d) - Owed(a) == match op
                                    case DbOnly(x) => x
                                    case Paired(x) => x
                                    case BlockReward(x) => x
                                    case Purchase(x) => -x
                                    case Persist => 0.0
                                    case ReloadProfile => if a.unmerged > Pending(a) then -Pending(a) else 0.0
  {
    hide Agrees, Gap;
    assert Agrees(a) == (a.db == a.persisted + a.unmerged) by {
      SettledGap(a);
    }
    var d := Do(a, op);
    assert Settled(d);
    SettledGap(d);
    if op == Persist {
      PersistWholeWrites(a);
    }
  }

  lemma SettledGap(a: Account)
    requires Settled(a)
    ensures Agrees(a) <==> a.db == a.persisted + a.unmerged
  {
  }

  ghost function DoAll(a: Account, ops: seq<Operation>): Account
    requires Settled(a) && Agrees(a)
    ensures Settled(DoAll(a, ops)) && Agrees(DoAll(a, ops))
    decreases |ops|
  {
    if ops == [] then a
    else
      WholeOperationAgrees(a, ops[0]);
      DoAll(Do(a, ops[0]), ops[1..])
  }

  /** Over every run of whole operations from creation the database balance is the mark plus the
      database-only credits since the last merge. */
  lemma WholeRunsAgree(balance: real, ops: seq<Operation>)
    ensures Settled(Created(balance)) && Agrees(Created(balance))
    ensures var a := DoAll(Created(balance), ops); a.db == a.persisted + a.unmerged
  {
    SettledGap(DoAll(Created(balance), ops));
  }

  // ---------- where it goes wrong ----------

  /** A reward whose commit fails: the rollback gives the balance back but not the mark, so that the next
      persist takes out of the database a reward it never received. */
  lemma RollbackTakesReward(a: Account, reward: real)
    requires Settled(a) && reward > 0.0
    requires Pending(a) - reward <= -DEAD_BAND &&
             (Pending(a) <= -DEAD_BAND || Pending(a) >= DEAD_BAND || Pending(a) == 0.0)
    ensures var failed := Apply(Apply(a, CreditMemory(reward)), FailReward(0, a.balance));
            && failed.balance == a.balance
            && Gap(failed) == Gap(a) - reward
            && PersistWhole(failed).db == PersistWhole(a).db - reward
  {
    var failed := Apply(Apply(a, CreditMemory(reward)), FailReward(0, a.balance));
    assert failed == a.(persisted := a.persisted + reward);
    PersistWholeWrites(a);
    PersistWholeWrites(failed);
  }

  /** What the database will hold once everything pending has been written. */
  function Owed(a: Account): real {
    a.db + Pending(a)
  }

  /** A reload with nothing in its window, in an agreeing account with nothing under way: it takes effect
      exactly when the merged credits outweigh what is pending; it then hands back all pending
      spending, which the database will never see; otherwise it changes nothing. */
  lemma ReloadForgivesPending(a: Account)
    requires Settled(a) && Agrees(a)
    ensures var r := Apply(Apply(a, ReadProfile), MergeProfile(0));
            && Settled(r) && Agrees(r) && r.db == a.db
            && (r == a <==> a.unmerged <= Pending(a))
            && (a.unmerged > Pending(a) ==> r.balance == r.db && r.unmerged == 0.0 && Owed(r) == Owed(a) - Pending(a))
  {
    GapMoves(a, ReadProfile);
    var read := Apply(a, ReadProfile);
    assert RemoveAt(read.reloads, 0) == [];
    GapMoves(read, MergeProfile(0));
  }

  /** The states a run goes through. */
  ghost predicate Follows(run: seq<Step>, states: seq<Account>) {
    && |states| == |run| + 1
    && (forall i :: 0 <= i < |run| ==> Enabled(states[i], run[i]))
    && (forall i :: 0 <= i < |run| ==> Apply(states[i], run[i]) == states[i + 1])
  }

  /** A run with known states, one of which leaves safely. */
  lemma {:induction false} FollowedRun(run: seq<Step>, states: seq<Account>)
    requires Follows(run, states)
    ensures CanRun(states[0], run) && After(states[0], run) == states[|run|]
    ensures forall i :: 0 <= i < |run| && !Safe(states[i], run[i]) ==> !AllSafe(states[0], run)
    decreases |run|
  {
    hide Enabled, Apply, Safe;
    if run == [] {
    } else {
      forall i | 0 <= i < |run[1..]|
        ensures Enabled(states[1..][i], run[1..][i]) && Apply(states[1..][i], run[1..][i]) == states[1..][i + 1]
      {
        assert Enabled(states[i + 1], run[i + 1]) && Apply(states[i + 1], run[i + 1]) == states[i + 2];
      }
      assert Enabled(states[0], run[0]) && Apply(states[0], run[0]) == states[1];
      FollowedRun(run[1..], states[1..]);
      forall i | 0 < i < |run| && !Safe(states[i], run[i]) ensures !AllSafe(states[0], run) {
        assert !Safe(states[1..][i - 1], run[1..][i - 1]);
      }
    }
  }

  lemma FourSteps(a: Account, run: seq<Step>, a1: Account, a2: Account, a3: Account, a4: Account)
    requires |run| == 4
    requires Enabled(a, run[0]) && Apply(a, run[0]) == a1 && Enabled(a1, run[1]) && Apply(a1, run[1]) == a2
    requires Enabled(a2, run[2]) && Apply(a2, run[2]) == a3 && Enabled(a3, run[3]) && Apply(a3, run[3]) == a4
    ensures CanRun(a, run) && After(a, run) == a4
    ensures !Safe(a2, run[2]) || !Safe(a3, run[3]) ==> !AllSafe(a, run)
  {
    hide Enabled, Apply, Safe;
    var states := [a, a1, a2, a3, a4];
    FollowedRun(run, states);
    assert states[2] == a2 && states[3] == a3;
  }

  /** An account with nothing under way, nothing pending and nothing to merge. */
  predicate AtRest(a: Account) {
    Settled(a) && a.db == a.persisted == a.balance && a.unmerged == 0.0
  }

  lemma SettledGapIs(a: Account)
    requires Settled(a)
    ensures Gap(a) == a.db - a.persisted - a.unmerged
  {
  }

  /** A merge that acts on an outdated reading: a paired withdrawal between the reading and the merge is
      undone in memory, and the cache runs ahead of the database by exactly that withdrawal. */
  lemma StaleMergeDrifts(a: Account, withdrawn: real)
    requires AtRest(a) && withdrawn > 0.0
    ensures var run := [ReadProfile, CommitPaired(-withdrawn), MirrorPaired(0), MergeProfile(0)];
            && CanRun(a, run) && After(a, run).balance == a.balance && After(a, run).db == a.db - withdrawn
            && !AllSafe(a, run) && Gap(After(a, run)) == -withdrawn
  {
    hide Gap, CanRun, After, AllSafe, Follows;
    var run := [ReadProfile, CommitPaired(-withdrawn), MirrorPaired(0), MergeProfile(0)];
    var a1 := Apply(a, run[0]);
    var a2 := Apply(a1, run[1]);
    var a3 := Apply(a2, run[2]);
    var a4 := Apply(a3, run[3]);
    FourSteps(a, run, a1, a2, a3, a4);
    assert !Safe(a3, run[3]);
    SettledGapIs(a4);
  }

  /** The same from a mirror made inside its transaction: a reload before the commit still reads the old
      database balance and hands the withdrawal back in memory. */
  lemma EarlyMirrorDrifts(a: Account, withdrawn: real)
    requires AtRest(a) && withdrawn > 0.0
    ensures var run := [CreditMemory(-withdrawn), ReadProfile, MergeProfile(0), CommitCredit(0)];
            && CanRun(a, run) && After(a, run).balance == a.balance && After(a, run).db == a.db - withdrawn
            && !AllSafe(a, run) && Gap(After(a, run)) == -withdrawn
  {
    hide Gap, CanRun, After, AllSafe, Follows;
    var run := [CreditMemory(-withdrawn), ReadProfile, MergeProfile(0), CommitCredit(0)];
    var a1 := Apply(a, run[0]);
    var a2 := Apply(a1, run[1]);
    var a3 := Apply(a2, run[2]);
    var a4 := Apply(a3, run[3]);
    FourSteps(a, run, a1, a2, a3, a4);
    assert !Safe(a2, run[2]);
    SettledGapIs(a4);
  }

  /** A purchase from memory while a persist is under way: at its end nothing is pending any more, and the
      price is never taken out of the database. */
  lemma SpendInWindowDrifts(a: Account, price: real)
    requires Settled(a) && Agrees(a) && Pending(a) >= DEAD_BAND && price > 0.0
    ensures var run := [ReadDelta, Spend(price), WriteDelta(0), FinishPersist(0)];
            && CanRun(a, run) && !AllSafe(a, run)
            && var end := After(a, run);
               Settled(end) && Pending(end) == 0.0 && end.db == end.balance + end.unmerged + price && Gap(end) == price
  {
    SettledGapIs(a);
    hide Gap, Agrees, CanRun, After, AllSafe, Follows;
    var run := [ReadDelta, Spend(price), WriteDelta(0), FinishPersist(0)];
    var a1 := Apply(a, run[0]);
    var a2 := Apply(a1, run[1]);
    var a3 := Apply(a2, run[2]);
    var a4 := Apply(a3, run[3]);
    FourSteps(a, run, a1, a2, a3, a4);
    assert !Safe(a3, run[3]);
    SettledGapIs(a4);
  }

  /** Two persists that overlap write what is pending twice. */
  lemma OverlappingPersistsDrift(a: Account)
    requires Settled(a) && Agrees(a) && (Pending(a) <= -DEAD_BAND || Pending(a) >= DEAD_BAND)
    ensures var run := [ReadDelta, ReadDelta, WriteDelta(0), WriteDelta(1)] + [FinishPersist(0), FinishPersist(0)];
            && CanRun(a, run) && !AllSafe(a, run)
            && var end := After(a, run);
               Settled(end) && end.balance == a.balance && Gap(end) == Pending(a) &&
                 end.db == a.db + Pending(a) + Pending(a)
  {
    SettledGapIs(a);
    hide Gap, Agrees, CanRun, After, AllSafe, Follows;
    var run := [ReadDelta, ReadDelta, WriteDelta(0), WriteDelta(1)] + [FinishPersist(0), FinishPersist(0)];
    var a4 := BothWritten(a);
    var a5, a6 := BothEnded(a, a4);
    TwoMore(a, run, a4, a5, a6);
    SettledGapIs(a6);
  }

  /** The second one to end finds nothing pending. */
  lemma BothEnded(a: Account, a4: Account) returns (a5: Account, a6: Account)
    requires Settled(a) && Pending(a) != 0.0
    requires var g := Flight(Pending(a), true); a4 == a.(flights := [g, g], db := a.db + Pending(a) + Pending(a))
    ensures Apply(a4, FinishPersist(0)) == a5 && Enabled(a5, FinishPersist(0)) && !Safe(a5, FinishPersist(0))
    ensures Apply(a5, FinishPersist(0)) == a6 == a.(db := a.db + Pending(a) + Pending(a), persisted := a.balance)
  {
    a5 := Apply(a4, FinishPersist(0));
    a6 := Apply(a5, FinishPersist(0));
  }

  /** Both persists have read and written the same delta. */
  lemma BothWritten(a: Account) returns (a4: Account)
    requires Settled(a) && (Pending(a) <= -DEAD_BAND || Pending(a) >= DEAD_BAND)
    ensures var run := [ReadDelta, ReadDelta, WriteDelta(0), WriteDelta(1)];
            var g := Flight(Pending(a), true);
            CanRun(a, run) && After(a, run) == a4 == a.(flights := [g, g], db := a.db + Pending(a) + Pending(a))
  {
    hide CanRun, After, AllSafe, Follows;
    var run := [ReadDelta, ReadDelta, WriteDelta(0), WriteDelta(1)];
    var a1 := Apply(a, run[0]);
    var a2 := Apply(a1, run[1]);
    var a3 := Apply(a2, run[2]);
    a4 := Apply(a3, run[3]);
    FourSteps(a, run, a1, a2, a3, a4);
  }

  lemma TwoMore(a: Account, run: seq<Step>, a4: Account, a5: Account, a6: Account)
    requires |run| == 6 && CanRun(a, run[..4]) && After(a, run[..4]) == a4
    requires Enabled(a4, run[4]) && Apply(a4, run[4]) == a5 && Enabled(a5, run[5]) && Apply(a5, run[5]) == a6
    ensures CanRun(a, run) && After(a, run) == a6
    ensures !Safe(a5, run[5]) ==> !AllSafe(a, run)
  {
    hide Enabled, Apply, Safe;
    var rest := run[4..];
    var states := [a4, a5, a6];
    assert rest[0] == run[4] && rest[1] == run[5] && states[1] == a5;
    FollowedRun(rest, states);
    RunsConcatenate(a, run[..4], rest);
    assert run[..4] + rest == run;
  }

  lemma {:induction false} RunsConcatenate(a: Account, run: seq<Step>, rest: seq<Step>)
    requires CanRun(a, run) && CanRun(After(a, run), rest)
    ensures CanRun(a, run + rest) && After(a, run + rest) == After(After(a, run), rest)
    ensures !AllSafe(After(a, run), rest) ==> !AllSafe(a, run + rest)
    decreases |run|
  {
    if run == [] {
      assert run + rest == rest;
    } else {
      assert (run + rest)[1..] == run[1..] + rest;
      RunsConcatenate(Apply(a, run[0]), run[1..], rest);
    }
  }
}
