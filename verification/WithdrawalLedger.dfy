/** The withdrawal ledger (server/models/walletModel.js and the handlers in
    server/controllers/adminController.js): reserving, approving, completing, failing. A request and a
    change of status are split at their awaits, because a database transaction at the default isolation
    level does not keep what it has read from changing; so requests and changes interleave in any way. */
module WithdrawalLedger {
  import opened Common

  type UserId = nat
  type TxId = nat

  const WITHDRAW_MIN_POL := 10.0

  datatype Kind = Withdrawal | Deposit

  datatype Status = Pending | Approved | Completed | Failed

  datatype Transaction =
    Transaction(userId: UserId, kind: Kind, amount: real, status: Status, fundsReserved: bool)

  /** The rows in order of creation (a row's id is its place), the users' balances, and for each user
      the sum of the deltas mirrored to the mining engine. */
  datatype Ledger =
    Ledger(balances: map<UserId, real>, rows: seq<Transaction>, mirrored: map<UserId, real>)

  // ---------- what is written ----------

  predicate PendingAt(rows: seq<Transaction>, i: nat)
    requires i < |rows|
  {
    rows[i].kind == Withdrawal && rows[i].status == Pending
  }

  predicate HasPending(rows: seq<Transaction>, userId: UserId) {
    exists i :: 0 <= i < |rows| && rows[i].userId == userId && PendingAt(rows, i)
  }

  /** One user's balance and its mirror, moved together. */
  function Move(l: Ledger, userId: UserId, delta: real): Ledger {
    if userId in l.balances && userId in l.mirrored then
      l.(balances := l.balances[userId := l.balances[userId] + delta],
         mirrored := l.mirrored[userId := l.mirrored[userId] + delta])
    else l
  }

  /** The writes of createWithdrawal. */
  function Reserve(l: Ledger, userId: UserId, amount: real): Ledger {
    Move(l.(rows := l.rows + [Transaction(userId, Withdrawal, amount, Pending, true)]), userId, -amount)
  }

  function SetStatus(l: Ledger, id: TxId, status: Status): Ledger
    requires id < |l.rows|
  {
    l.(rows := l.rows[id := l.rows[id].(status := status)])
  }

  predicate Terminal(status: Status) {
    status == Failed || status == Completed
  }

  /** updateTransactionStatus gives money back, by the status it read before. */
  predicate Refunds(t: Transaction, before: Status, status: Status) {
    t.kind == Withdrawal && status == Failed && !Terminal(before) && t.fundsReserved
  }

  /** The writes of updateTransactionStatus, which has read the status `before`. */
  function WriteStatus(l: Ledger, id: TxId, before: Status, status: Status): Ledger
    requires id < |l.rows|
  {
    var t := l.rows[id];
    var l := SetStatus(l, id, status);
    if Refunds(t, before, status) then Move(l, t.userId, t.amount) else l
  }

  /** A whole change of status, nothing in between. */
  function UpdateStatus(l: Ledger, id: TxId, status: Status): Ledger
    requires id < |l.rows|
  {
    WriteStatus(l, id, l.rows[id].status, status)
  }

  /** A deposit, written in one go with its credit. */
  function Deposited(l: Ledger, userId: UserId, amount: real): Ledger {
    Move(l.(rows := l.rows + [Transaction(userId, Deposit, amount, Completed, false)]), userId, amount)
  }

  // ---------- steps ----------

  /** A request on its way: no pending row was found, and then the balance was found to cover it. */
  datatype Request = Request(userId: UserId, amount: real, covered: bool)

  /** A change of status on its way: the status to set, and the one that was read. */
  datatype Change = Change(id: TxId, status: Status, before: Status)

  datatype Flow = Flow(ledger: Ledger, requests: seq<Request>, changes: seq<Change>)

  datatype Step =
    | LookPending(userId: UserId, amount: real) // createWithdrawal looks for a pending row,
    | LookBalance(request: nat)                 // then at the balance,
    | ReserveNow(request: nat)                  // and writes
    | Abandon(request: nat)                     // or fails in between
    | ReadStatus(id: TxId, status: Status)      // updateTransactionStatus reads the row
    | WriteNow(change: nat)                     // and writes
    | AbandonChange(change: nat)                // or fails in between
    | Approve(id: TxId)                         // approveWithdrawal: one update, whatever the status
    | CreditDeposit(userId: UserId, amount: real)

  predicate Enabled(f: Flow, s: Step) {
    match s
    case LookPending(_, amount) => amount >= WITHDRAW_MIN_POL
    case LookBalance(k) => k < |f.requests| && !f.requests[k].covered
    case ReserveNow(k) => k < |f.requests| && f.requests[k].covered && f.requests[k].userId in f.ledger.balances
    case Abandon(k) => k < |f.requests|
    case ReadStatus(id, status) => id < |f.ledger.rows| && Terminal(status)
    case WriteNow(k) => k < |f.changes| && f.changes[k].id < |f.ledger.rows|
    case AbandonChange(k) => k < |f.changes|
    case Approve(id) => id < |f.ledger.rows|
    case CreditDeposit(u, amount) => u in f.ledger.balances && amount > 0.0
  }

  function Apply(f: Flow, s: Step): Flow
    requires Enabled(f, s)
  {
    var l := f.ledger;
    match s
    case LookPending(u, amount) =>
      if HasPending(l.rows, u) then f else f.(requests := f.requests + [Request(u, amount, false)])
    case LookBalance(k) =>
      var r := f.requests[k];
      if r.userId in l.balances && l.balances[r.userId] >= r.amount
      then f.(requests := f.requests[k := r.(covered := true)])
      else f.(requests := RemoveAt(f.requests, k))
    case ReserveNow(k) =>
      var r := f.requests[k];
      f.(ledger := Reserve(l, r.userId, r.amount), requests := RemoveAt(f.requests, k))
    case Abandon(k) => f.(requests := RemoveAt(f.requests, k))
    case ReadStatus(id, status) => f.(changes := f.changes + [Change(id, status, l.rows[id].status)])
    case WriteNow(k) =>
      var c := f.changes[k];
      f.(ledger := WriteStatus(l, c.id, c.before, c.status), changes := RemoveAt(f.changes, k))
    case AbandonChange(k) => f.(changes := RemoveAt(f.changes, k))
    case Approve(id) => f.(ledger := SetStatus(l, id, Approved))
    case CreditDeposit(u, amount) => f.(ledger := Deposited(l, u, amount))
  }

  ghost predicate CanRun(f: Flow, run: seq<Step>)
    decreases |run|
  {
    run == [] || (Enabled(f, run[0]) && CanRun(Apply(f, run[0]), run[1..]))
  }

  ghost function After(f: Flow, run: seq<Step>): Flow
    requires CanRun(f, run)
    decreases |run|
  {
    if run == [] then f else After(Apply(f, run[0]), run[1..])
  }

  /** Before the first transaction. */
  function Opened(balances: map<UserId, real>): Flow {
    Flow(Ledger(balances, [], map u | u in balances :: 0.0), [], [])
  }

  // ---------- what a user owns ----------

  /** The withdrawals of a user that have not failed. */
  function Outstanding(rows: seq<Transaction>, userId: UserId): real {
    if rows == [] then 0.0
    else Outstanding(rows[..|rows| - 1], userId) + Share(rows[|rows| - 1], userId)
  }

  function Share(t: Transaction, userId: UserId): real {
    if t.userId == userId && t.kind == Withdrawal && t.status != Failed then t.amount else 0.0
  }

  /** What is the user's, in the balance or on its way out. */
  function Wealth(l: Ledger, userId: UserId): real
    requires userId in l.balances
  {
    l.balances[userId] + Outstanding(l.rows, userId)
  }

  lemma {:induction false} OutstandingAfterUpdate(rows: seq<Transaction>, id: TxId, t: Transaction, userId: UserId)
    requires id < |rows|
    ensures Outstanding(rows[id := t], userId) == Outstanding(rows, userId) - Share(rows[id], userId) + Share(t, userId)
  {
    var rest := rows[..|rows| - 1];
    if id == |rows| - 1 {
      assert rows[id := t][..|rows| - 1] == rest;
    } else {
      OutstandingAfterUpdate(rest, id, t, userId);
      assert rows[id := t][..|rows| - 1] == rest[id := t];
    }
  }

  lemma OutstandingAfterAppend(rows: seq<Transaction>, t: Transaction, userId: UserId)
    ensures Outstanding(rows + [t], userId) == Outstanding(rows, userId) + Share(t, userId)
  {
    assert (rows + [t])[..|rows|] == rows;
  }

  /** The ledger's standing: rows belong to users with a mirror, withdrawals are positive and reserved. */
  ghost predicate Proper(l: Ledger) {
    && l.balances.Keys == l.mirrored.Keys
    && (forall i :: 0 <= i < |l.rows| ==>
          && l.rows[i].userId in l.balances
          && (l.rows[i].kind == Withdrawal ==> l.rows[i].amount > 0.0 && l.rows[i].fundsReserved))
  }

  /** And that of what is under way. */
  ghost predicate ProperFlow(f: Flow) {
    && Proper(f.ledger)
    && (forall k :: 0 <= k < |f.requests| ==> f.requests[k].amount >= WITHDRAW_MIN_POL)
    && (forall k :: 0 <= k < |f.changes| ==> f.changes[k].id < |f.ledger.rows| && Terminal(f.changes[k].status))
  }

  lemma StaysProper(f: Flow, s: Step)
    requires ProperFlow(f) && Enabled(f, s)
    ensures ProperFlow(Apply(f, s)) && Apply(f, s).ledger.balances.Keys == f.ledger.balances.Keys
  {
    hide RemoveAt, HasPending;
  }

  // ---------- conservation ----------

  /** How far a change of status moves the wealth of the row's user: by the share of the row after it less
      the share before, and by the refund. */
  function Drift(t: Transaction, before: Status, status: Status): real {
    Share(t.(status := status), t.userId) - Share(t, t.userId) + (if Refunds(t, before, status) then t.amount else 0.0)
  }

  lemma WriteDrifts(l: Ledger, id: TxId, before: Status, status: Status, userId: UserId)
    requires Proper(l) && id < |l.rows| && userId in l.balances
    ensures var r := WriteStatus(l, id, before, status);
            && userId in r.balances
            && Wealth(r, userId) ==
                 Wealth(l, userId) + (if userId == l.rows[id].userId then Drift(l.rows[id], before, status) else 0.0)
  {
    hide Outstanding;
    OutstandingAfterUpdate(l.rows, id, l.rows[id].(status := status), userId);
  }

  /** What is added from outside. */
  function Income(s: Step, userId: UserId): real {
    if s.CreditDeposit? && s.userId == userId then s.amount else 0.0
  }

  /** Nobody gains or loses anything, deposits aside. */
  ghost predicate Conserves(f: Flow, s: Step)
    requires Enabled(f, s)
  {
    var r := Apply(f, s).ledger;
    forall u :: u in f.ledger.balances ==> u in r.balances && Wealth(r, u) == Wealth(f.ledger, u) + Income(s, u)
  }

  /** What can be checked before a write to know that it conserves. A failure must refund, by the status it
      read, exactly if the withdrawal has not failed by now; a completion or an approval must not revive a
      failed one. */
  predicate Consistent(f: Flow, s: Step)
    requires Enabled(f, s)
  {
    match s
    case WriteNow(k) =>
      var c := f.changes[k];
      var t := f.ledger.rows[c.id];
      t.kind == Withdrawal ==>
        if c.status == Failed then !Terminal(c.before) <==> t.status != Failed else t.status != Failed
    case Approve(id) => f.ledger.rows[id].kind == Withdrawal ==> f.ledger.rows[id].status != Failed
    case _ => true
  }

  /** Every step of every interleaving conserves everyone's wealth exactly when it is consistent. */
  lemma StepConservesIff(f: Flow, s: Step)
    requires ProperFlow(f) && Enabled(f, s)
    ensures Conserves(f, s) <==> Consistent(f, s)
  {
    hide Outstanding, HasPending;
    var l := f.ledger;
    match s
    case WriteNow(k) => WriteConservesIff(f, k);
    case Approve(id) => ApproveConservesIff(f, id);
    case ReserveNow(k) =>
      var r := f.requests[k];
      forall u | u in l.balances ensures Wealth(Reserve(l, r.userId, r.amount), u) == Wealth(l, u) {
        OutstandingAfterAppend(l.rows, Transaction(r.userId, Withdrawal, r.amount, Pending, true), u);
      }
    case CreditDeposit(v, amount) =>
      forall u | u in l.balances ensures Wealth(Deposited(l, v, amount), u) == Wealth(l, u) + Income(s, u) {
        OutstandingAfterAppend(l.rows, Transaction(v, Deposit, amount, Completed, false), u);
      }
    case _ =>
  }

  lemma WriteConservesIff(f: Flow, k: nat)
    requires ProperFlow(f) && Enabled(f, WriteNow(k))
    ensures Conserves(f, WriteNow(k)) <==> Consistent(f, WriteNow(k))
  {
    hide Wealth, WriteStatus;
    var c, l := f.changes[k], f.ledger;
    forall u | u in l.balances
      ensures u in WriteStatus(l, c.id, c.before, c.status).balances
      ensures Wealth(WriteStatus(l, c.id, c.before, c.status), u) ==
                Wealth(l, u) + (if u == l.rows[c.id].userId then Drift(l.rows[c.id], c.before, c.status) else 0.0)
    {
      WriteDrifts(l, c.id, c.before, c.status, u);
    }
    assert Drift(l.rows[c.id], c.before, c.status) == 0.0 <==> Consistent(f, WriteNow(k));
  }

  lemma ApproveConservesIff(f: Flow, id: TxId)
    requires ProperFlow(f) && Enabled(f, Approve(id))
    ensures Conserves(f, Approve(id)) <==> Consistent(f, Approve(id))
  {
    hide Outstanding;
    var l, t := f.ledger, f.ledger.rows[id];
    forall u | u in l.balances
      ensures Wealth(SetStatus(l, id, Approved), u) == Wealth(l, u) + Share(t.(status := Approved), u) - Share(t, u)
    {
      OutstandingAfterUpdate(l.rows, id, t.(status := Approved), u);
    }
    assert t.userId in l.balances;
  }

  ghost predicate AllConsistent(f: Flow, run: seq<Step>)
    requires CanRun(f, run)
    decreases |run|
  {
    run == [] || (Consistent(f, run[0]) && AllConsistent(Apply(f, run[0]), run[1..]))
  }

  ghost predicate ConservesThroughout(f: Flow, run: seq<Step>)
    requires CanRun(f, run)
    decreases |run|
  {
    run == [] || (Conserves(f, run[0]) && ConservesThroughout(Apply(f, run[0]), run[1..]))
  }

  ghost function AllIncome(run: seq<Step>, userId: UserId): real {
    if run == [] then 0.0 else Income(run[0], userId) + AllIncome(run[1..], userId)
  }

  /** A run conserves at every point exactly when every step of it is consistent. */
  lemma {:induction false} RunConservesIff(f: Flow, run: seq<Step>)
    requires ProperFlow(f) && CanRun(f, run)
    ensures ConservesThroughout(f, run) <==> AllConsistent(f, run)
    decreases |run|
  {
    hide ProperFlow, Conserves, Consistent, Apply, Enabled;
    if run == [] {
    } else {
      StepConservesIff(f, run[0]);
      StaysProper(f, run[0]);
      RunConservesIff(Apply(f, run[0]), run[1..]);
    }
  }

  /** And then a user's balance and outstanding withdrawals add up to what they were plus what was deposited. */
  lemma {:induction false} RunConserves(f: Flow, run: seq<Step>, userId: UserId)
    requires ProperFlow(f) && CanRun(f, run) && AllConsistent(f, run) && userId in f.ledger.balances
    ensures var l := After(f, run).ledger;
            userId in l.balances && Wealth(l, userId) == Wealth(f.ledger, userId) + AllIncome(run, userId)
    decreases |run|
  {
    hide ProperFlow, Consistent, Apply, Enabled, Wealth, Income;
    if run == [] {
    } else {
      StepConservesIff(f, run[0]);
      StaysProper(f, run[0]);
      RunConserves(Apply(f, run[0]), run[1..], userId);
    }
  }

  // ---------- one pending withdrawal, and no debts ----------

  ghost predicate Solvent(l: Ledger) {
    forall u :: u in l.balances ==> l.balances[u] >= 0.0
  }

  /** No user has two pending withdrawals. */
  ghost predicate OnePending(rows: seq<Transaction>) {
    forall i, j :: 0 <= i < j < |rows| && PendingAt(rows, i) && PendingAt(rows, j) ==>
      rows[i].userId != rows[j].userId
  }

  /** What the reads cannot promise of the moment of the write: that there still is no pending row, */
  predicate StillNone(f: Flow, s: Step)
    requires Enabled(f, s)
  {
    s.ReserveNow? ==> !HasPending(f.ledger.rows, f.requests[s.request].userId)
  }

  /** and that the balance still covers the amount. */
  predicate StillCovered(f: Flow, s: Step)
    requires Enabled(f, s)
  {
    s.ReserveNow? ==> f.ledger.balances[f.requests[s.request].userId] >= f.requests[s.request].amount
  }

  /** A step keeps users to one pending row exactly when it does not reserve beside a pending row. */
  lemma StepOnePendingIff(f: Flow, s: Step)
    requires ProperFlow(f) && Enabled(f, s) && OnePending(f.ledger.rows)
    ensures OnePending(Apply(f, s).ledger.rows) <==> StillNone(f, s)
  {
    var rows, rows' := f.ledger.rows, Apply(f, s).ledger.rows;
    if s.ReserveNow? {
      var u := f.requests[s.request].userId;
      assert rows'[|rows|].userId == u && PendingAt(rows', |rows|);
      if HasPending(rows, u) {
        var i :| 0 <= i < |rows| && rows[i].userId == u && PendingAt(rows, i);
        assert PendingAt(rows', i);
      }
    } else {
      forall i | 0 <= i < |rows'| && PendingAt(rows', i) ensures i < |rows| && rows'[i] == rows[i] {
      }
    }
  }

  /** A step leaves no debts exactly when it does not reserve more than there is. */
  lemma StepSolventIff(f: Flow, s: Step)
    requires ProperFlow(f) && Enabled(f, s) && Solvent(f.ledger)
    ensures Solvent(Apply(f, s).ledger) <==> StillCovered(f, s)
  {
    hide HasPending, RemoveAt;
    if s.ReserveNow? {
      assert f.requests[s.request].userId in Apply(f, s).ledger.balances;
    }
  }

  ghost predicate AllStillNone(f: Flow, run: seq<Step>)
    requires CanRun(f, run)
    decreases |run|
  {
    run == [] || (StillNone(f, run[0]) && AllStillNone(Apply(f, run[0]), run[1..]))
  }

  ghost predicate AllStillCovered(f: Flow, run: seq<Step>)
    requires CanRun(f, run)
    decreases |run|
  {
    run == [] || (StillCovered(f, run[0]) && AllStillCovered(Apply(f, run[0]), run[1..]))
  }

  ghost predicate OnePendingThroughout(f: Flow, run: seq<Step>)
    requires CanRun(f, run)
    decreases |run|
  {
    OnePending(f.ledger.rows) && (run == [] || OnePendingThroughout(Apply(f, run[0]), run[1..]))
  }

  ghost predicate SolventThroughout(f: Flow, run: seq<Step>)
    requires CanRun(f, run)
    decreases |run|
  {
    Solvent(f.ledger) && (run == [] || SolventThroughout(Apply(f, run[0]), run[1..]))
  }

  /** Over every run users have one pending row at most, at every point, exactly when no reserve found another. */
  lemma {:induction false} RunOnePendingIff(f: Flow, run: seq<Step>)
    requires ProperFlow(f) && CanRun(f, run) && OnePending(f.ledger.rows)
    ensures OnePendingThroughout(f, run) <==> AllStillNone(f, run)
    decreases |run|
  {
    hide ProperFlow, StillNone, Apply, Enabled, OnePending;
    if run == [] {
    } else {
      StepOnePendingIff(f, run[0]);
      StaysProper(f, run[0]);
      if StillNone(f, run[0]) {
        RunOnePendingIff(Apply(f, run[0]), run[1..]);
      }
    }
  }

  /** Over every run no balance is negative at any point exactly when every reserve was covered at its moment. */
  lemma {:induction false} RunSolventIff(f: Flow, run: seq<Step>)
    requires ProperFlow(f) && CanRun(f, run) && Solvent(f.ledger)
    ensures SolventThroughout(f, run) <==> AllStillCovered(f, run)
    decreases |run|
  {
    hide ProperFlow, StillCovered, Apply, Enabled, Solvent;
    if run == [] {
    } else {
      StepSolventIff(f, run[0]);
      StaysProper(f, run[0]);
      if StillCovered(f, run[0]) {
        RunSolventIff(Apply(f, run[0]), run[1..]);
      }
    }
  }

  /** How far a user's balance is ahead of its mirror. */
  function Ahead(l: Ledger, userId: UserId): real
    requires userId in l.balances && userId in l.mirrored
  {
    l.balances[userId] - l.mirrored[userId]
  }

  /** Over every run whatever the mirror moves with the balance. */
  lemma {:induction false} MirrorKept(f: Flow, run: seq<Step>, userId: UserId)
    requires ProperFlow(f) && CanRun(f, run) && userId in f.ledger.balances
    ensures var l := After(f, run).ledger;
            && userId in f.ledger.mirrored && userId in l.balances && userId in l.mirrored
            && Ahead(l, userId) == Ahead(f.ledger, userId)
    decreases |run|
  {
    assert userId in f.ledger.mirrored by {
      assert userId in f.ledger.mirrored.Keys;
    }
    hide ProperFlow, Apply, Enabled;
    if run == [] {
    } else {
      StaysProper(f, run[0]);
      StepMirrors(f, run[0], userId);
      MirrorKept(Apply(f, run[0]), run[1..], userId);
    }
  }

  lemma StepMirrors(f: Flow, s: Step, userId: UserId)
    requires Enabled(f, s) && userId in f.ledger.balances && userId in f.ledger.mirrored
    ensures var l := Apply(f, s).ledger;
            userId in l.balances && userId in l.mirrored && Ahead(l, userId) == Ahead(f.ledger, userId)
  {
    hide HasPending, RemoveAt;
  }

  // ---------- refunds ----------

  predicate Settled(l: Ledger, id: TxId) {
    id < |l.rows| && Terminal(l.rows[id].status)
  }

  /** A step refunds the row. */
  predicate RefundsRow(f: Flow, s: Step, id: TxId)
    requires Enabled(f, s)
  {
    s.WriteNow? && f.changes[s.change].id == id &&
    Refunds(f.ledger.rows[id], f.changes[s.change].before, f.changes[s.change].status)
  }

  /** A settled row is approved, */
  predicate Reapproves(f: Flow, s: Step, id: TxId) {
    s == Approve(id) && Settled(f.ledger, id)
  }

  /** or refunded by a failure that read it before it was settled. */
  predicate RefundsStale(f: Flow, s: Step, id: TxId)
    requires Enabled(f, s)
  {
    RefundsRow(f, s, id) && Settled(f.ledger, id)
  }

  ghost function RefundCount(f: Flow, run: seq<Step>, id: TxId): nat
    requires CanRun(f, run)
    decreases |run|
  {
    if run == [] then 0
    else (if RefundsRow(f, run[0], id) then 1 else 0) + RefundCount(Apply(f, run[0]), run[1..], id)
  }

  ghost function Reapprovals(f: Flow, run: seq<Step>, id: TxId): nat
    requires CanRun(f, run)
    decreases |run|
  {
    if run == [] then 0
    else (if Reapproves(f, run[0], id) then 1 else 0) + Reapprovals(Apply(f, run[0]), run[1..], id)
  }

  ghost function StaleRefunds(f: Flow, run: seq<Step>, id: TxId): nat
    requires CanRun(f, run)
    decreases |run|
  {
    if run == [] then 0
    else (if RefundsStale(f, run[0], id) then 1 else 0) + StaleRefunds(Apply(f, run[0]), run[1..], id)
  }

  function Unsettled(f: Flow, id: TxId): nat {
    if Settled(f.ledger, id) then 0 else 1
  }

  /** Over every interleaving a reservation is refunded at most once, and once more at most for every time
      its settled row was approved again or was refunded by what had been read before it was settled. */
  lemma {:induction false} RefundedOnce(f: Flow, run: seq<Step>, id: TxId)
    requires ProperFlow(f) && CanRun(f, run)
    ensures RefundCount(f, run, id) + Unsettled(After(f, run), id) <=
              Unsettled(f, id) + Reapprovals(f, run, id) + StaleRefunds(f, run, id)
    decreases |run|
  {
    hide ProperFlow, Apply, Enabled, RefundsRow, Reapproves, RefundsStale, Unsettled;
    if run == [] {
    } else {
      StepRefunds(f, run[0], id);
      StaysProper(f, run[0]);
      RefundedOnce(Apply(f, run[0]), run[1..], id);
    }
  }

  lemma StepRefunds(f: Flow, s: Step, id: TxId)
    requires ProperFlow(f) && Enabled(f, s)
    ensures (if RefundsRow(f, s, id) then 1 else 0) + Unsettled(Apply(f, s), id) <=
              Unsettled(f, id) + (if Reapproves(f, s, id) then 1 else 0) + (if RefundsStale(f, s, id) then 1 else 0)
  {
    hide HasPending, RemoveAt;
  }

  // ---------- requests and changes that do not overlap ----------

  /** Neither two requests of one user nor two changes of one row are under way together. */
  predicate NoOverlap(f: Flow, s: Step) {
    match s
    case LookPending(u, _) => forall k :: 0 <= k < |f.requests| ==> f.requests[k].userId != u
    case ReadStatus(id, _) => forall k :: 0 <= k < |f.changes| ==> f.changes[k].id != id
    case Approve(id) => forall k :: 0 <= k < |f.changes| ==> f.changes[k].id != id
    case _ => true
  }

  /** What a request has read still holds, */
  ghost predicate RequestHolds(l: Ledger, r: Request) {
    && !HasPending(l.rows, r.userId)
    && (r.covered ==> r.userId in l.balances && l.balances[r.userId] >= r.amount)
  }

  /** and so does what a change has. */
  predicate ChangeHolds(rows: seq<Transaction>, c: Change) {
    c.id < |rows| && rows[c.id].status == c.before
  }

  ghost predicate Orderly(f: Flow) {
    && (forall k, j :: 0 <= k < j < |f.requests| ==> f.requests[k].userId != f.requests[j].userId)
    && (forall k :: 0 <= k < |f.requests| ==> RequestHolds(f.ledger, f.requests[k]))
    && (forall k, j :: 0 <= k < j < |f.changes| ==> f.changes[k].id != f.changes[j].id)
    && (forall k :: 0 <= k < |f.changes| ==> ChangeHolds(f.ledger.rows, f.changes[k]))
  }

  /** Then at every write what was read still holds. */
  lemma NoOverlapHolds(f: Flow, s: Step, id: TxId)
    requires ProperFlow(f) && Enabled(f, s) && NoOverlap(f, s) && Orderly(f)
    ensures StillNone(f, s) && StillCovered(f, s) && !RefundsStale(f, s, id)
    ensures Orderly(Apply(f, s))
  {
    hide HasPending;
    RequestsHold(f, s);
    ChangesHold(f, s);
  }

  lemma ChangesHold(f: Flow, s: Step)
    requires ProperFlow(f) && Enabled(f, s) && NoOverlap(f, s) && Orderly(f)
    ensures var r := Apply(f, s);
            && (forall k, j :: 0 <= k < j < |r.changes| ==> r.changes[k].id != r.changes[j].id)
            && (forall k :: 0 <= k < |r.changes| ==> ChangeHolds(r.ledger.rows, r.changes[k]))
  {
    hide HasPending, RequestHolds, RemoveAt;
  }

  lemma RequestsHold(f: Flow, s: Step)
    requires ProperFlow(f) && Enabled(f, s) && NoOverlap(f, s) && Orderly(f)
    ensures var r := Apply(f, s);
            && (forall k, j :: 0 <= k < j < |r.requests| ==> r.requests[k].userId != r.requests[j].userId)
            && (forall k :: 0 <= k < |r.requests| ==> RequestHolds(r.ledger, r.requests[k]))
  {
    hide RequestHolds, RemoveAt, HasPending, ProperFlow, Reserve, WriteStatus, Deposited;
    RequestsStayApart(f, s);
    var l, r := f.ledger, Apply(f, s);
    match s
    case LookPending(u, amount) => ReadsFind(l, Request(u, amount, false));
    case LookBalance(k) => ReadsFind(l, f.requests[k]);
    case ReserveNow(k) =>
      forall j | 0 <= j < |f.requests| && j != k ensures RequestHolds(r.ledger, f.requests[j]) {
        ReadsStay(f, s, f.requests[j]);
      }
    case Abandon(k) =>
    case _ =>
      forall j | 0 <= j < |f.requests| ensures RequestHolds(r.ledger, f.requests[j]) {
        ReadsStay(f, s, f.requests[j]);
      }
  }

  lemma RequestsStayApart(f: Flow, s: Step)
    requires Enabled(f, s) && NoOverlap(f, s)
    requires forall k, j :: 0 <= k < j < |f.requests| ==> f.requests[k].userId != f.requests[j].userId
    ensures var r := Apply(f, s);
            forall k, j :: 0 <= k < j < |r.requests| ==> r.requests[k].userId != r.requests[j].userId
  {
    hide RemoveAt, HasPending, Reserve, WriteStatus, Deposited;
  }

  /** What the two reads find is what is to hold. */
  lemma ReadsFind(l: Ledger, q: Request)
    ensures !q.covered && !HasPending(l.rows, q.userId) ==> RequestHolds(l, q)
    ensures RequestHolds(l, q) && q.userId in l.balances && l.balances[q.userId] >= q.amount ==>
              RequestHolds(l, q.(covered := true))
  {
  }

  /** No step but the user's own reserve makes a row pending or takes from the balance. */
  lemma ReadsStay(f: Flow, s: Step, q: Request)
    requires ProperFlow(f) && Enabled(f, s) && RequestHolds(f.ledger, q)
    requires s.ReserveNow? ==> f.requests[s.request].userId != q.userId
    ensures RequestHolds(Apply(f, s).ledger, q)
  {
    hide RemoveAt;
    var rows, rows' := f.ledger.rows, Apply(f, s).ledger.rows;
    forall i | 0 <= i < |rows'| && rows'[i].userId == q.userId ensures !PendingAt(rows', i) {
      if i < |rows| {
        assert !PendingAt(rows, i);
      }
    }
  }

  ghost predicate NeverOverlaps(f: Flow, run: seq<Step>)
    requires CanRun(f, run)
    decreases |run|
  {
    run == [] || (NoOverlap(f, run[0]) && NeverOverlaps(Apply(f, run[0]), run[1..]))
  }

  lemma {:induction false} NeverOverlapsHolds(f: Flow, run: seq<Step>, id: TxId)
    requires ProperFlow(f) && CanRun(f, run) && NeverOverlaps(f, run) && Orderly(f)
    ensures AllStillNone(f, run) && AllStillCovered(f, run) && StaleRefunds(f, run, id) == 0
    decreases |run|
  {
    hide ProperFlow, Orderly, Apply, Enabled, NoOverlap, StillNone, StillCovered, RefundsStale;
    if run == [] {
    } else {
      NoOverlapHolds(f, run[0], id);
      StaysProper(f, run[0]);
      NeverOverlapsHolds(Apply(f, run[0]), run[1..], id);
    }
  }

  /** Without approvals of the row any sequence of completions and failures refunds it at most once. */
  lemma NoApprovalsNoReapprovals(f: Flow, run: seq<Step>, id: TxId)
    requires ProperFlow(f) && CanRun(f, run) && NeverOverlaps(f, run) && Orderly(f)
    requires forall i :: 0 <= i < |run| ==> run[i] != Approve(id)
    ensures RefundCount(f, run, id) <= 1
  {
    hide ProperFlow, CanRun, After, NeverOverlaps, Orderly, RefundCount, Reapprovals, StaleRefunds;
    NeverOverlapsHolds(f, run, id);
    RefundedOnce(f, run, id);
    ReapprovalsZero(f, run, id);
  }

  lemma {:induction false} ReapprovalsZero(f: Flow, run: seq<Step>, id: TxId)
    requires CanRun(f, run) && forall i :: 0 <= i < |run| ==> run[i] != Approve(id)
    ensures Reapprovals(f, run, id) == 0
    decreases |run|
  {
    hide Apply, Enabled;
    if run == [] {
    } else {
      ReapprovalsZero(Apply(f, run[0]), run[1..], id);
    }
  }

  /** The ledger, over every run from balances that are not negative in which neither requests of one user
      nor changes of one row overlap: at every point no balance is negative and nobody has two pending
      withdrawals; the mirror has moved by exactly as much as the balance; every row was refunded at most
      once, and once more at most for every time it was approved when settled; and if all steps were
      consistent, balance and outstanding withdrawals are what there was plus what was deposited. */
  lemma FromStart(balances: map<UserId, real>, run: seq<Step>, userId: UserId, id: TxId)
    requires userId in balances && forall u :: u in balances ==> balances[u] >= 0.0
    requires CanRun(Opened(balances), run) && NeverOverlaps(Opened(balances), run)
    ensures var f := Opened(balances);
            var l := After(f, run).ledger;
            && SolventThroughout(f, run) && OnePendingThroughout(f, run)
            && userId in l.balances && userId in l.mirrored
            && l.balances[userId] == balances[userId] + l.mirrored[userId]
            && RefundCount(f, run, id) <= 1 + Reapprovals(f, run, id)
            && (AllConsistent(f, run) ==> Wealth(l, userId) == balances[userId] + AllIncome(run, userId))
  {
    hide CanRun, After, NeverOverlaps, AllConsistent, Apply, Enabled, Consistent;
    var f := Opened(balances);
    OpenedIsOrderly(balances);
    NeverOverlapsHolds(f, run, id);
    RunSolventIff(f, run);
    RunOnePendingIff(f, run);
    MirrorKept(f, run, userId);
    RefundedOnce(f, run, id);
    if AllConsistent(f, run) {
      RunConserves(f, run, userId);
    }
  }

  lemma OpenedIsOrderly(balances: map<UserId, real>)
    ensures ProperFlow(Opened(balances)) && Orderly(Opened(balances)) && OnePending(Opened(balances).ledger.rows)
    ensures forall u :: u in balances ==> Wealth(Opened(balances).ledger, u) == balances[u]
  {
  }

  // ---------- where it goes wrong ----------

  /** A run with known states, seen step by step. */
  lemma {:induction false} FollowedRun(run: seq<Step>, states: seq<Flow>, id: TxId)
    requires |states| == |run| + 1 && forall i :: 0 <= i < |run| ==> Enabled(states[i], run[i])
    requires forall i :: 0 <= i < |run| ==> Apply(states[i], run[i]) == states[i + 1]
    ensures CanRun(states[0], run) && After(states[0], run) == states[|run|]
    ensures forall i :: 0 <= i < |run| && RefundsRow(states[i], run[i], id) ==> RefundCount(states[0], run, id) >= 1
    ensures forall i, j :: 0 <= i < j < |run| ==>
              RefundsRow(states[i], run[i], id) && RefundsRow(states[j], run[j], id) ==>
                RefundCount(states[0], run, id) >= 2
    decreases |run|
  {
    hide Enabled, Apply, RefundsRow;
    if run == [] {
    } else {
      forall i | 0 <= i < |run[1..]|
        ensures Enabled(states[1..][i], run[1..][i]) && Apply(states[1..][i], run[1..][i]) == states[1..][i + 1]
      {
        assert Enabled(states[i + 1], run[i + 1]) && Apply(states[i + 1], run[i + 1]) == states[i + 2];
      }
      assert Enabled(states[0], run[0]) && Apply(states[0], run[0]) == states[1];
      FollowedRun(run[1..], states[1..], id);
      assert forall i :: 0 < i < |run| ==> run[i] == run[1..][i - 1] && states[i] == states[1..][i - 1];
    }
  }

  lemma FourSteps(f: Flow, run: seq<Step>, f1: Flow, f2: Flow, f3: Flow, f4: Flow, id: TxId)
    requires |run| == 4
    requires Enabled(f, run[0]) && Apply(f, run[0]) == f1 && Enabled(f1, run[1]) && Apply(f1, run[1]) == f2
    requires Enabled(f2, run[2]) && Apply(f2, run[2]) == f3 && Enabled(f3, run[3]) && Apply(f3, run[3]) == f4
    ensures CanRun(f, run) && After(f, run) == f4
    ensures RefundsRow(f2, run[2], id) && RefundsRow(f3, run[3], id) ==> RefundCount(f, run, id) >= 2
  {
    hide Enabled, Apply, RefundsRow;
    var states := [f, f1, f2, f3, f4];
    FollowedRun(run, states, id);
    assert states[2] == f2 && states[3] == f3;
  }

  lemma {:induction false} RunsConcatenate(f: Flow, run: seq<Step>, rest: seq<Step>)
    requires CanRun(f, run) && CanRun(After(f, run), rest)
    ensures CanRun(f, run + rest) && After(f, run + rest) == After(After(f, run), rest)
    decreases |run|
  {
    if run == [] {
      assert run + rest == rest;
    } else {
      assert (run + rest)[1..] == run[1..] + rest;
      RunsConcatenate(Apply(f, run[0]), run[1..], rest);
    }
  }

  /** Two requests of one user that both read before either writes. */
  ghost function RacingRequests(u: UserId, amount: real): seq<Step> {
    [LookPending(u, amount), LookPending(u, amount), LookBalance(0), LookBalance(1)] + [ReserveNow(0), ReserveNow(0)]
  }

  /** From a balance that covers one of them both are reserved: the user has two pending withdrawals and owes
      the difference. With 15.0, two requests of 10.0 end at -5.0. */
  lemma RacingRequestsOverdraw(balance: real, amount: real, u: UserId)
    requires WITHDRAW_MIN_POL <= amount <= balance < amount + amount
    ensures var f, run := Opened(map[u := balance]), RacingRequests(u, amount);
            && CanRun(f, run)
            && var l := After(f, run).ledger;
               && l.balances == map[u := balance - amount - amount] && !Solvent(l) && !OnePending(l.rows)
  {
    hide CanRun, After;
    var f := Opened(map[u := balance]);
    var run := [LookPending(u, amount), LookPending(u, amount), LookBalance(0), LookBalance(1)];
    var f1 := Apply(f, run[0]);
    var f2 := Apply(f1, run[1]);
    var f3 := Apply(f2, run[2]);
    var f4 := Apply(f3, run[3]);
    FourSteps(f, run, f1, f2, f3, f4, 0);
    var q := Request(u, amount, true);
    assert f4 == f.(requests := [q, q]);
    var f6 := BothReserved(f, f4, q);
    RunsConcatenate(f, run, [ReserveNow(0), ReserveNow(0)]);
    assert PendingAt(f6.ledger.rows, 0) && PendingAt(f6.ledger.rows, 1);
  }

  lemma BothReserved(f: Flow, f4: Flow, q: Request) returns (f6: Flow)
    requires f.ledger.rows == [] && f.ledger.balances.Keys == f.ledger.mirrored.Keys == {q.userId}
    requires q.covered && f4 == f.(requests := [q, q])
    ensures var run := [ReserveNow(0), ReserveNow(0)];
            && CanRun(f4, run) && After(f4, run) == f6
            && f6.ledger.balances == map[q.userId := f.ledger.balances[q.userId] - q.amount - q.amount]
            && var t := Transaction(q.userId, Withdrawal, q.amount, Pending, true); f6.ledger.rows == [t, t]
  {
    hide CanRun, After;
    var f5 := Apply(f4, ReserveNow(0));
    f6 := Apply(f5, ReserveNow(0));
    FollowedRun([ReserveNow(0), ReserveNow(0)], [f4, f5, f6], 0);
  }

  /** Two failures of one pending row that both read before either writes both refund it. */
  lemma RacingFailuresRefundTwice(f: Flow, id: TxId)
    requires ProperFlow(f) && f.changes == [] && id < |f.ledger.rows| && PendingAt(f.ledger.rows, id)
    ensures var run := [ReadStatus(id, Failed), ReadStatus(id, Failed), WriteNow(0), WriteNow(0)];
            var t := f.ledger.rows[id];
            && CanRun(f, run) && RefundCount(f, run, id) >= 2 && t.userId in f.ledger.balances
            && var l := After(f, run).ledger;
               t.userId in l.balances && l.balances[t.userId] == f.ledger.balances[t.userId] + t.amount + t.amount
  {
    hide CanRun, After, RefundCount, HasPending, Reserve, Deposited;
    var run := [ReadStatus(id, Failed), ReadStatus(id, Failed), WriteNow(0), WriteNow(0)];
    var f1 := Apply(f, run[0]);
    var f2 := Apply(f1, run[1]);
    var c := Change(id, Failed, Pending);
    assert f2 == f.(changes := [c, c]);
    var f3, f4 := BothRefunded(f, f2, c);
    FourSteps(f, run, f1, f2, f3, f4, id);
  }

  lemma BothRefunded(f: Flow, f2: Flow, c: Change) returns (f3: Flow, f4: Flow)
    requires Proper(f.ledger) && c.id < |f.ledger.rows| && f.ledger.rows[c.id].kind == Withdrawal
    requires c == Change(c.id, Failed, Pending) && f2 == f.(changes := [c, c])
    ensures f3 == Apply(f2, WriteNow(0)) && Enabled(f3, WriteNow(0)) && f4 == Apply(f3, WriteNow(0))
    ensures RefundsRow(f2, WriteNow(0), c.id) && RefundsRow(f3, WriteNow(0), c.id)
    ensures var t := f.ledger.rows[c.id];
            && t.userId in f.ledger.balances && t.userId in f4.ledger.balances
            && f4.ledger.balances[t.userId] == f.ledger.balances[t.userId] + t.amount + t.amount
  {
    hide HasPending, Reserve, Deposited;
    f3 := Apply(f2, WriteNow(0));
    f4 := Apply(f3, WriteNow(0));
  }

  /** One after the other, too: approving a failed withdrawal lets it be refunded a second time. */
  lemma ApprovalRevives(l: Ledger, id: TxId)
    requires Proper(l) && id < |l.rows| && PendingAt(l.rows, id)
    ensures var t := l.rows[id];
            var r := UpdateStatus(SetStatus(UpdateStatus(l, id, Failed), id, Approved), id, Failed);
            r.balances[t.userId] == l.balances[t.userId] + t.amount + t.amount
  {
  }
}
