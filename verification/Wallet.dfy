/** The wallet's methods as the source has them (server/models/walletModel.js, the request check in
    server/controllers/walletController.js and the handlers in server/controllers/adminController.js).
    Each is tied to the steps it is made of. */
module Wallet {
  import opened Common
  import opened WithdrawalLedger

  /** The two fields of a request: absent, not of the right form, or good. A number 0 counts as absent. */
  datatype AmountField = NoAmount | NotANumber | Amount(value: real)

  datatype AddressField = NoAddress | BadAddress | GoodAddress

  datatype Reply =
    | Ok | MissingField | InvalidAddress | BelowMinimum
    | PendingExists | InsufficientBalance | NoSuchUser | NoSuchRow

  /** What the checks and the reads of a request come to. */
  function ReplyTo(l: Ledger, userId: UserId, requested: AmountField, address: AddressField): Reply {
    if requested.NoAmount? || address.NoAddress? then MissingField
    else if address.BadAddress? then InvalidAddress
    else if requested.NotANumber? || requested.value < WITHDRAW_MIN_POL then BelowMinimum
    else if HasPending(l.rows, userId) then PendingExists
    else if userId !in l.balances then NoSuchUser
    else if l.balances[userId] < requested.value then InsufficientBalance
    else Ok
  }

  /** Undisturbed, a good request is the two reads and the writes in a row; it is refused by the same reads. */
  lemma RequestIsSteps(l: Ledger, userId: UserId, amount: real)
    requires amount >= WITHDRAW_MIN_POL
    ensures var f := Flow(l, [], []);
            var looked := Apply(f, LookPending(userId, amount));
            match ReplyTo(l, userId, Amount(amount), GoodAddress)
            case PendingExists => looked == f
            case Ok =>
              && Enabled(looked, LookBalance(0)) && Enabled(Apply(looked, LookBalance(0)), ReserveNow(0))
              && Apply(Apply(looked, LookBalance(0)), ReserveNow(0)) == Flow(Reserve(l, userId, amount), [], [])
            case _ => Enabled(looked, LookBalance(0)) && Apply(looked, LookBalance(0)) == f
  {
    hide HasPending, Reserve;
  }

  /** And a change of status its read and its writes. */
  lemma ChangeIsSteps(l: Ledger, id: TxId, status: Status)
    requires id < |l.rows| && Terminal(status)
    ensures var read := Apply(Flow(l, [], []), ReadStatus(id, status));
            Enabled(read, WriteNow(0)) && Apply(read, WriteNow(0)) == Flow(UpdateStatus(l, id, status), [], [])
  {
  }

  /** An approval sets that status, and a deposit adds its row and its credit. */
  lemma SingleSteps(l: Ledger, id: TxId, userId: UserId, amount: real)
    requires Proper(l) && id < |l.rows| && userId in l.balances && amount > 0.0
    ensures var f := Flow(l, [], []);
            && Apply(f, Approve(id)) == f.(ledger := l.(rows := l.rows[id := l.rows[id].(status := Approved)]))
            && var r := Apply(f, CreditDeposit(userId, amount)).ledger;
               && r.rows == l.rows + [Transaction(userId, Deposit, amount, Completed, false)]
               && r.balances == l.balances[userId := l.balances[userId] + amount]
  {
    assert userId in l.mirrored.Keys;
  }

  /** A request is answered Ok exactly when its amount is a number of at least ten, its address good, its user
      known and without a pending withdrawal, and the balance covers it; the other answers name the first of
      these that fails. */
  lemma RepliesMean(l: Ledger, userId: UserId, requested: AmountField, address: AddressField)
    ensures var r := ReplyTo(l, userId, requested, address);
            var none := forall i :: 0 <= i < |l.rows| ==>
                          l.rows[i].userId != userId || l.rows[i].kind != Withdrawal || l.rows[i].status != Pending;
            var asked := !requested.NoAmount? && !address.NoAddress?;
            var fits := requested.Amount? && requested.value >= 10.0 && address.GoodAddress?;
            && (r == Ok <==> fits && none && userId in l.balances && l.balances[userId] >= requested.value)
            && (r == MissingField <==> !asked)
            && (r == InvalidAddress <==> asked && address.BadAddress?)
            && (r == BelowMinimum <==> asked && address.GoodAddress? && !fits)
            && (r == PendingExists <==> fits && !none)
            && (r == NoSuchUser <==> fits && none && userId !in l.balances)
            && (r == InsufficientBalance <==>
                  fits && none && userId in l.balances && l.balances[userId] < requested.value)
  {
    if HasPending(l.rows, userId) {
      var i :| 0 <= i < |l.rows| && l.rows[i].userId == userId && PendingAt(l.rows, i);
      assert l.rows[i].kind == Withdrawal && l.rows[i].status == Pending;
    } else {
      forall i | 0 <= i < |l.rows| && l.rows[i].userId == userId ensures !PendingAt(l.rows, i) {
      }
    }
  }

  /** Every request answered Ok is a run of the ledger's steps; it leaves its user strictly less, though not less
      than nothing, and one pending withdrawal of the amount. */
  lemma OkIsARun(l: Ledger, userId: UserId, requested: AmountField, address: AddressField)
    requires Proper(l) && ReplyTo(l, userId, requested, address) == Ok
    ensures requested.Amount?
    ensures var f, amount := Flow(l, [], []), requested.value;
            var run := [LookPending(userId, amount), LookBalance(0), ReserveNow(0)];
            && CanRun(f, run) && After(f, run) == Flow(Reserve(l, userId, amount), [], [])
            && var r := Reserve(l, userId, amount);
               && userId in r.balances && 0.0 <= r.balances[userId] == l.balances[userId] - amount
               && r.balances[userId] < l.balances[userId]
               && r.rows == l.rows + [Transaction(userId, Withdrawal, amount, Pending, true)]
  {
    hide CanRun, After, HasPending;
    var f, amount := Flow(l, [], []), requested.value;
    var run := [LookPending(userId, amount), LookBalance(0), ReserveNow(0)];
    RequestIsSteps(l, userId, amount);
    assert userId in l.mirrored.Keys;
    var f1 := Apply(f, run[0]);
    var f2 := Apply(f1, run[1]);
    var f3 := Apply(f2, run[2]);
    FollowedRun(run, [f, f1, f2, f3], 0);
  }

  class WalletModel {
    var balances: map<UserId, real>
    var rows: seq<Transaction>
    var mirrored: map<UserId, real>

    ghost function State(): Ledger
      reads this
    {
      Ledger(balances, rows, mirrored)
    }

    constructor (balances: map<UserId, real>)
      ensures State() == Opened(balances).ledger
    {
      this.balances, rows := balances, [];
      mirrored := map u | u in balances :: 0.0;
    }

    /** A database increment and the delta handed to the engine after it. */
    method ChangeBalance(userId: UserId, delta: real)
      requires userId in balances && userId in mirrored
      modifies this`balances, this`mirrored
      ensures State() == Move(old(State()), userId, delta)
    {
      balances := balances[userId := balances[userId] + delta];
      mirrored := mirrored[userId := mirrored[userId] + delta];
    }

    method FindPending(userId: UserId) returns (found: bool)
      ensures found <==> HasPending(rows, userId)
    {
      for i := 0 to |rows|
        invariant forall k :: 0 <= k < i ==> rows[k].userId != userId || !PendingAt(rows, k)
      {
        if rows[i].userId == userId && rows[i].kind == Withdrawal && rows[i].status == Pending {
          return true;
        }
      }
      found := false;
    }

    /** The checks of requestWithdrawal and the reads of createWithdrawal. */
    method CheckRequest(userId: UserId, requested: AmountField, address: AddressField) returns (r: Reply)
      ensures r == ReplyTo(State(), userId, requested, address)
      ensures r == Ok <==>
                && requested.Amount? && requested.value >= 10.0 && address.GoodAddress?
                && userId in balances && balances[userId] >= requested.value
                && (forall i :: 0 <= i < |rows| ==>
                      rows[i].userId != userId || rows[i].kind != Withdrawal || rows[i].status != Pending)
    {
      RepliesMean(State(), userId, requested, address);
      if requested.NoAmount? || address.NoAddress? {
        return MissingField;
      }
      if address.BadAddress? {
        return InvalidAddress;
      }
      if requested.NotANumber? || requested.value < WITHDRAW_MIN_POL {
        return BelowMinimum;
      }
      var pending := FindPending(userId);
      if pending {
        return PendingExists;
      }
      if userId !in balances {
        return NoSuchUser;
      }
      if balances[userId] < requested.value {
        return InsufficientBalance;
      }
      r := Ok;
    }

    /** The writes of createWithdrawal, whatever has become of what was read. */
    method WriteRequest(userId: UserId, amount: real)
      requires userId in balances && userId in mirrored
      modifies this
      ensures State() == Reserve(old(State()), userId, amount)
    {
      rows := rows + [Transaction(userId, Withdrawal, amount, Pending, true)];
      ChangeBalance(userId, -amount);
    }

    /** requestWithdrawal with nothing in between its reads and its writes. */
    method RequestWithdrawal(userId: UserId, requested: AmountField, address: AddressField) returns (r: Reply)
      requires balances.Keys == mirrored.Keys
      modifies this
      ensures r == ReplyTo(old(State()), userId, requested, address)
      ensures r == Ok <==>
                && requested.Amount? && requested.value >= 10.0 && address.GoodAddress?
                && userId in old(balances) && old(balances)[userId] >= requested.value
                && (forall i :: 0 <= i < |old(rows)| ==>
                      var t := old(rows)[i]; t.userId != userId || t.kind != Withdrawal || t.status != Pending)
      ensures r == Ok ==>
                && balances == old(balances)[userId := old(balances)[userId] - requested.value]
                && rows == old(rows) + [Transaction(userId, Withdrawal, requested.value, Pending, true)]
      ensures r == Ok ==> State() == Reserve(old(State()), userId, requested.value)
      ensures r != Ok ==> State() == old(State())
    {
      assert userId in balances.Keys <==> userId in mirrored.Keys;
      r := CheckRequest(userId, requested, address);
      if r == Ok {
        WriteRequest(userId, requested.value);
      }
    }

    /** approveWithdrawal: whatever the row's status was. */
    method Approve(id: TxId) returns (r: Reply)
      modifies this`rows
      ensures r == if id < |old(rows)| then Ok else NoSuchRow
      ensures State() == if r == Ok then SetStatus(old(State()), id, Approved) else old(State())
    {
      if id >= |rows| {
        return NoSuchRow;
      }
      rows := rows[id := rows[id].(status := Approved)];
      r := Ok;
    }

    /** The writes of updateTransactionStatus, which read the status `prevStatus`. */
    method WriteChange(id: TxId, prevStatus: Status, status: Status)
      requires id < |rows| && rows[id].userId in balances && rows[id].userId in mirrored
      modifies this
      ensures State() == WriteStatus(old(State()), id, prevStatus, status)
    {
      var transaction := rows[id];
      rows := rows[id := transaction.(status := status)];
      if transaction.kind == Withdrawal {
        if status == Failed && prevStatus != Failed && prevStatus != Completed {
          if transaction.fundsReserved {
            ChangeBalance(transaction.userId, transaction.amount);
          }
        }
      }
    }

    /** updateTransactionStatus with nothing in between its read and its writes. */
    method UpdateTransactionStatus(id: TxId, status: Status)
      requires balances.Keys == mirrored.Keys && (id < |rows| ==> rows[id].userId in balances)
      modifies this
      ensures balances.Keys == mirrored.Keys == old(balances.Keys)
      ensures State() == if id < |old(rows)| then UpdateStatus(old(State()), id, status) else old(State())
    {
      if id >= |rows| {
        return;
      }
      assert rows[id].userId in mirrored.Keys;
      WriteChange(id, rows[id].status, status);
    }

    /** The query of failAllPendingWithdrawals. */
    method ListPending() returns (pending: seq<TxId>)
      ensures |pending| == PendingCount(rows, |rows|)
      ensures FailEach(State(), pending) == FailPendingUpTo(State(), |rows|)
    {
      hide UpdateStatus;
      pending := [];
      for i := 0 to |rows|
        invariant |pending| == PendingCount(rows, i)
        invariant FailEach(State(), pending) == FailPendingUpTo(State(), i)
      {
        if rows[i].kind == Withdrawal && rows[i].status == Pending {
          assert (pending + [i])[..|pending|] == pending;
          pending := pending + [i];
        }
      }
    }

    /** failAllPendingWithdrawals */
    method FailAllPending() returns (totalPending: nat)
      requires balances.Keys == mirrored.Keys && forall i :: 0 <= i < |rows| ==> rows[i].userId in balances
      modifies this
      ensures State() == FailPendingUpTo(old(State()), |old(rows)|)
      ensures totalPending == PendingCount(old(rows), |old(rows)|)
    {
      hide UpdateStatus, PendingCount, FailPendingUpTo;
      ghost var before := State();
      var pending := ListPending();
      for k := 0 to |pending|
        invariant balances.Keys == mirrored.Keys && forall i :: 0 <= i < |rows| ==> rows[i].userId in balances
        invariant State() == FailEach(before, pending[..k])
      {
        assert pending[..k + 1][..k] == pending[..k];
        ghost var l := State();
        UpdateTransactionStatus(pending[k], Failed);
        UsersStay(l, pending[k]);
      }
      assert pending[..|pending|] == pending;
      totalPending := |pending|;
    }
  }

  lemma UsersStay(l: Ledger, id: TxId)
    requires forall i :: 0 <= i < |l.rows| ==> l.rows[i].userId in l.balances
    ensures id < |l.rows| ==>
              var r := UpdateStatus(l, id, Failed);
              r.balances.Keys == l.balances.Keys && forall i :: 0 <= i < |r.rows| ==> r.rows[i].userId in r.balances
  {
  }

  function PendingCount(rows: seq<Transaction>, n: nat): nat
    requires n <= |rows|
  {
    if n == 0 then 0
    else PendingCount(rows, n - 1) + (if rows[n - 1].kind == Withdrawal && rows[n - 1].status == Pending then 1 else 0)
  }

  /** Fail the given rows one after the other. */
  function FailEach(l: Ledger, ids: seq<TxId>): Ledger {
    if ids == [] then l
    else
      var m := FailEach(l, ids[..|ids| - 1]);
      if ids[|ids| - 1] < |m.rows| then UpdateStatus(m, ids[|ids| - 1], Failed) else m
  }

  /** Fail the pending withdrawals among the first `n` rows. */
  function FailPendingUpTo(l: Ledger, n: nat): (r: Ledger)
    requires n <= |l.rows|
    ensures |r.rows| == |l.rows|
  {
    if n == 0 then l
    else
      var m := FailPendingUpTo(l, n - 1);
      if l.rows[n - 1].kind == Withdrawal && l.rows[n - 1].status == Pending then UpdateStatus(m, n - 1, Failed) else m
  }

  /** Failing the first rows leaves the later ones as they were. */
  lemma {:induction false} FailKeepsOthers(l: Ledger, n: nat)
    requires n <= |l.rows|
    ensures var r := FailPendingUpTo(l, n);
            && (forall i :: n <= i < |l.rows| ==> r.rows[i] == l.rows[i])
            && (forall i :: 0 <= i < n ==>
                  r.rows[i] == if l.rows[i].kind == Withdrawal && l.rows[i].status == Pending
                    then l.rows[i].(status := Failed) else l.rows[i])
  {
    if n == 0 {
    } else {
      FailKeepsOthers(l, n - 1);
    }
  }

  /** Failing all pending withdrawals leaves none pending and conserves everyone's wealth. */
  lemma FailAllConserves(l: Ledger, n: nat, userId: UserId)
    requires Proper(l) && n <= |l.rows| && userId in l.balances
    ensures var r := FailPendingUpTo(l, n);
            && Proper(r) && userId in r.balances && Wealth(r, userId) == Wealth(l, userId)
            && forall i :: 0 <= i < n ==> !PendingAt(r.rows, i)
  {
    hide Wealth, Proper;
    FailKeepsOthers(l, n);
    FailKeepsWealth(l, n, userId);
  }

  lemma {:induction false} FailKeepsWealth(l: Ledger, n: nat, userId: UserId)
    requires Proper(l) && n <= |l.rows| && userId in l.balances
    ensures var r := FailPendingUpTo(l, n);
            Proper(r) && userId in r.balances && Wealth(r, userId) == Wealth(l, userId)
  {
    hide Wealth, Proper, UpdateStatus;
    if n == 0 {
    } else {
      FailKeepsWealth(l, n - 1, userId);
      FailKeepsOthers(l, n - 1);
      if PendingAt(l.rows, n - 1) {
        FailOneKeepsWealth(FailPendingUpTo(l, n - 1), n - 1, userId);
      }
    }
  }

  lemma FailOneKeepsWealth(l: Ledger, id: TxId, userId: UserId)
    requires Proper(l) && id < |l.rows| && PendingAt(l.rows, id) && userId in l.balances
    ensures var r := UpdateStatus(l, id, Failed);
            Proper(r) && userId in r.balances && Wealth(r, userId) == Wealth(l, userId)
  {
    hide Wealth;
    WriteDrifts(l, id, Pending, Failed, userId);
  }
}
