/** What deposits keep: one claim for each hash, exactly as long as every row is created for an unclaimed
    one, and the safety of runs in which requests of one hash and verifications of one row do not overlap. */
module DepositSafety {
  import opened Common
  import opened DepositBooks

  // ---------- one claim for each hash ----------

  /** A pass lists a row only when no earlier verification of it is still under way. */
  predicate Exclusive(b: Books, s: Step) {
    s.Fetch? ==> forall k :: 0 <= k < |b.tasks| ==> b.tasks[k].id != s.id
  }

  ghost predicate TasksApart(rows: seq<Deposit>, tasks: seq<Task>) {
    && (forall k :: 0 <= k < |tasks| ==> tasks[k].id < |rows| && rows[tasks[k].id].status == PendingVerification)
    && (forall k, j :: 0 <= k < j < |tasks| ==> tasks[k].id != tasks[j].id)
  }

  /** A hash has at most one row that is pending or completed. */
  ghost predicate DistinctClaims(rows: seq<Deposit>) {
    forall i, j :: 0 <= i < j < |rows| && rows[i].status != Failed && rows[j].status != Failed ==>
        rows[i].txHash != rows[j].txHash
  }

  /** What the reads cannot promise: that the hash is still free when the row is created. */
  predicate Unclaimed(b: Books, s: Step)
    requires Enabled(b, s)
  {
    s.Insert? ==> !Claimed(b.rows, b.entries[s.entry].hash)
  }

  /** As long as verifications of one row are kept apart, a step keeps the claims distinct exactly when it
      does not create a row for a hash that is claimed at that moment. */
  lemma StepDistinctIff(b: Books, s: Step)
    requires Enabled(b, s) && Exclusive(b, s) && TasksApart(b.rows, b.tasks) && DistinctClaims(b.rows)
    ensures TasksApart(Apply(b, s).rows, Apply(b, s).tasks)
    ensures DistinctClaims(Apply(b, s).rows) <==> Unclaimed(b, s)
  {
    hide DistinctClaims;
    TasksStayApart(b, s);
    if s.Insert? {
      InsertDistinctIff(b.rows, RowOf(b.entries[s.entry]));
    } else {
      ClaimsStayDistinct(b, s);
    }
  }

  lemma InsertDistinctIff(rows: seq<Deposit>, d: Deposit)
    requires DistinctClaims(rows) && d.status != Failed
    ensures DistinctClaims(rows + [d]) <==> !Claimed(rows, d.txHash)
  {
    var all := rows + [d];
    if Claimed(rows, d.txHash) {
      var i :| 0 <= i < |rows| && rows[i].txHash == d.txHash && rows[i].status != Failed;
      assert all[i] == rows[i] && all[|rows|] == d;
    }
  }

  lemma ClaimsStayDistinct(b: Books, s: Step)
    requires Enabled(b, s) && !s.Insert? && TasksApart(b.rows, b.tasks) && DistinctClaims(b.rows)
    ensures DistinctClaims(Apply(b, s).rows)
  {
    hide Duplicate, OwnRow, OthersClaim, Known, Judge;
  }

  lemma TasksStayApart(b: Books, s: Step)
    requires Enabled(b, s) && Exclusive(b, s) && TasksApart(b.rows, b.tasks)
    ensures TasksApart(Apply(b, s).rows, Apply(b, s).tasks)
  {
    hide Judge, Duplicate, OwnRow, OthersClaim, Known, RemoveAt, TasksApart;
    var r := Apply(b, s);
    match s
    case Resolve(k, answer) =>
      TaskFinished(b.rows, b.tasks, k, r.rows);
      TaskCleared(b.rows, b.tasks, k, r.tasks);
    case CreditNow(k) => TaskFinished(b.rows, b.tasks, k, r.rows);
    case Fetch(id) => TaskAdded(b.rows, b.tasks, Task(id, b.rows[id].verifyAttempts + 1, None));
    case Insert(k) => RowsAdded(b.rows, b.tasks, r.rows);
    case _ =>
  }

  /** Once a verification has written its row it is no longer among those under way. */
  lemma TaskFinished(rows: seq<Deposit>, tasks: seq<Task>, k: nat, rows': seq<Deposit>)
    requires TasksApart(rows, tasks) && k < |tasks|
    ensures |rows'| == |rows| && (forall i :: 0 <= i < |rows| && i != tasks[k].id ==> rows'[i] == rows[i]) ==>
              TasksApart(rows', RemoveAt(tasks, k))
  {
    hide RemoveAt;
  }

  lemma TaskCleared(rows: seq<Deposit>, tasks: seq<Task>, k: nat, tasks': seq<Task>)
    requires TasksApart(rows, tasks) && k < |tasks|
    ensures |tasks'| == |tasks| && (forall j :: 0 <= j < |tasks| ==> tasks'[j].id == tasks[j].id) ==>
              TasksApart(rows, tasks')
  {
  }

  lemma TaskAdded(rows: seq<Deposit>, tasks: seq<Task>, t: Task)
    requires TasksApart(rows, tasks) && t.id < |rows| && rows[t.id].status == PendingVerification
    requires forall k :: 0 <= k < |tasks| ==> tasks[k].id != t.id
    ensures TasksApart(rows, tasks + [t])
  {
  }

  lemma RowsAdded(rows: seq<Deposit>, tasks: seq<Task>, rows': seq<Deposit>)
    requires TasksApart(rows, tasks) && rows <= rows'
    ensures TasksApart(rows', tasks)
  {
  }

  ghost predicate AllExclusive(b: Books, run: seq<Step>)
    requires CanRun(b, run)
    decreases |run|
  {
    run == [] || (Exclusive(b, run[0]) && AllExclusive(Apply(b, run[0]), run[1..]))
  }

  ghost predicate AllUnclaimed(b: Books, run: seq<Step>)
    requires CanRun(b, run)
    decreases |run|
  {
    run == [] || (Unclaimed(b, run[0]) && AllUnclaimed(Apply(b, run[0]), run[1..]))
  }

  ghost predicate DistinctThroughout(b: Books, run: seq<Step>)
    requires CanRun(b, run)
    decreases |run|
  {
    DistinctClaims(b.rows) && (run == [] || DistinctThroughout(Apply(b, run[0]), run[1..]))
  }

  /** Over every run that keeps verifications of one row apart, claims are distinct at every point exactly
      when every row was created for a hash unclaimed at that moment. */
  lemma {:induction false} RunDistinctIff(b: Books, run: seq<Step>)
    requires CanRun(b, run) && AllExclusive(b, run) && TasksApart(b.rows, b.tasks) && DistinctClaims(b.rows)
    ensures DistinctThroughout(b, run) <==> AllUnclaimed(b, run)
    decreases |run|
  {
    if run == [] {
    } else {
      StepDistinctIff(b, run[0]);
      if Unclaimed(b, run[0]) {
        RunDistinctIff(Apply(b, run[0]), run[1..]);
      }
    }
  }

  // ---------- requests that do not overlap on a hash ----------

  /** Neither two requests of one hash nor two verifications of one row are under way together. */
  predicate NoOverlap(b: Books, s: Step) {
    && Exclusive(b, s)
    && (s.LookOwn? || s.LookAny? ==> forall k :: 0 <= k < |b.entries| ==> b.entries[k].hash != s.hash)
  }

  /** What a request has read still holds, and no other request is after its hash. */
  ghost predicate EntriesHold(b: Books) {
    && (forall k, j :: 0 <= k < j < |b.entries| ==> b.entries[k].hash != b.entries[j].hash)
    && (forall k :: 0 <= k < |b.entries| ==> ReadHolds(b.rows, b.entries[k]))
  }

  ghost predicate ReadHolds(rows: seq<Deposit>, e: Entry) {
    match e.stage
    case OwnClear => !OwnRow(rows, e.hash, e.userId)
    case _ => !Claimed(rows, e.hash)
  }

  ghost predicate Orderly(b: Books) {
    TasksApart(b.rows, b.tasks) && DistinctClaims(b.rows) && EntriesHold(b)
  }

  /** Without overlap every step is harmless and inserts only for unclaimed hashes, and the order is kept. */
  lemma NoOverlapIsHarmless(b: Books, s: Step)
    requires Enabled(b, s) && NoOverlap(b, s) && Orderly(b)
    ensures Harmless(b, s) && Unclaimed(b, s) && Orderly(Apply(b, s))
  {
    hide DistinctClaims, Claimed;
    assert Unclaimed(b, s);
    StepDistinctIff(b, s);
    if s.Resolve? || s.CreditNow? || s.Fetch? {
      RowStepKeepsReads(b, s);
    } else if s.Insert? {
      InsertKeepsReads(b, s.entry);
    } else {
      LookKeepsReads(b, s);
    }
  }

  /** A verification of a pending row leaves users and hashes alone and revives no claim. */
  lemma RowStepKeepsReads(b: Books, s: Step)
    requires Enabled(b, s) && TasksApart(b.rows, b.tasks) && EntriesHold(b) && (s.Resolve? || s.CreditNow? || s.Fetch?)
    ensures EntriesHold(Apply(b, s))
  {
    hide Judge, Duplicate;
    var r := Apply(b, s);
    assert r.entries == b.entries && |r.rows| == |b.rows|;
    forall i | 0 <= i < |b.rows|
      ensures r.rows[i].txHash == b.rows[i].txHash && r.rows[i].userId == b.rows[i].userId
      ensures r.rows[i].status != Failed ==> b.rows[i].status != Failed
    {
    }
    forall k | 0 <= k < |b.entries| ensures ReadHolds(r.rows, b.entries[k]) {
      assert ReadHolds(b.rows, b.entries[k]);
    }
  }

  lemma InsertKeepsReads(b: Books, k: nat)
    requires Enabled(b, Insert(k)) && EntriesHold(b)
    ensures EntriesHold(Apply(b, Insert(k)))
  {
    var r := Apply(b, Insert(k));
    forall j | 0 <= j < |r.entries| ensures ReadHolds(r.rows, r.entries[j]) {
      assert ReadHolds(b.rows, r.entries[j]) && r.entries[j].hash != b.entries[k].hash;
    }
  }

  lemma LookKeepsReads(b: Books, s: Step)
    requires Enabled(b, s) && NoOverlap(b, s) && EntriesHold(b) &&
             (s.LookOwn? || s.LookOthers? || s.LookAny? || s.Abandon?)
    ensures EntriesHold(Apply(b, s))
  {
    hide ReadHolds, RemoveAt, OwnRow, OthersClaim, Known;
    match s
    case LookOwn(u, hash, claimed) => ReadClears(b.rows, Entry(u, hash, claimed, OwnClear));
    case LookAny(u, hash, amount) => ReadClears(b.rows, Entry(u, hash, amount, DirectClear));
    case LookOthers(k) => ReadClears(b.rows, b.entries[k]);
    case _ =>
  }

  /** What the reads find is what is to hold. */
  lemma ReadClears(rows: seq<Deposit>, e: Entry)
    ensures e.stage == OwnClear ==> (ReadHolds(rows, e) <==> !OwnRow(rows, e.hash, e.userId))
    ensures e.stage == OwnClear && ReadHolds(rows, e) && !OthersClaim(rows, e.hash, e.userId) ==>
              ReadHolds(rows, e.(stage := AllClear))
    ensures e.stage == DirectClear && !Known(rows, e.hash) ==> ReadHolds(rows, e)
  {
  }

  /** Nor does the check against double spending ever find anything. */
  lemma NoDuplicates(b: Books, k: nat)
    requires Orderly(b) && k < |b.tasks|
    ensures !Duplicate(b.rows, b.tasks[k].id)
  {
  }

  ghost predicate NeverOverlaps(b: Books, run: seq<Step>)
    requires CanRun(b, run)
    decreases |run|
  {
    run == [] || (NoOverlap(b, run[0]) && NeverOverlaps(Apply(b, run[0]), run[1..]))
  }

  lemma {:induction false} RunKeepsBooks(b: Books, run: seq<Step>)
    requires CanRun(b, run) && NeverOverlaps(b, run) && WellFormed(b) && Balanced(b) && Orderly(b)
    ensures var r := After(b, run); WellFormed(r) && Balanced(r) && Orderly(r)
    decreases |run|
  {
    hide WellFormed, Balanced, Orderly, NoOverlap;
    if run == [] {
    } else {
      StepBalancedIff(b, run[0]);
      NoOverlapIsHarmless(b, run[0]);
      RunKeepsBooks(Apply(b, run[0]), run[1..]);
    }
  }

  /** Deposits, over every interleaving of submissions, direct deposits and verifications in which neither
      two requests of one hash nor two verifications of one row overlap, whatever the chain answers:
      completed rows have pairwise different hashes, and each user was credited exactly what the user's
      completed rows are worth. */
  lemma DepositsAreSafe(users: set<UserId>, run: seq<Step>)
    requires CanRun(Opened(users), run) && NeverOverlaps(Opened(users), run)
    ensures var b := After(Opened(users), run);
            && (forall i, j :: 0 <= i < j < |b.rows| && b.rows[i].status == b.rows[j].status == Completed ==>
                  b.rows[i].txHash != b.rows[j].txHash)
            && (forall u :: u in b.credits ==> b.credits[u] == CompletedSum(b.rows, u))
  {
    RunKeepsBooks(Opened(users), run);
  }
}
