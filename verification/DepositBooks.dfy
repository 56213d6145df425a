/** Deposits and what is credited for them: the submission of a hash (submitDeposit in
    server/controllers/walletController.js), the direct path of createDepositRequest
    (server/models/walletModel.js) and the verification of one row
    (server/services/depositVerifier.js). Each is split at its awaits, so that submissions, direct
    deposits and verifications, of one pass or of different ones, interleave in any way. What the
    chain answers is arbitrary. Hashes are canonical. */
module DepositBooks {
  import opened Common

  type UserId = nat
  type Hash = nat
  type RowId = nat

  const MAX_ATTEMPTS := 20
  const DUST := 0.0001

  datatype Status = PendingVerification | Completed | Failed

  datatype Deposit = Deposit(userId: UserId, txHash: Hash, amount: real, status: Status, verifyAttempts: nat)

  /** What the chain says of a transaction hash, all checks on the way included. */
  datatype Answer =
    NoReceipt | Reverted | NoTransaction | WrongDestination | WrongChain | Value(amount: real) | RpcError

  /** What one verification makes of its row. */
  datatype Verdict = Retry | Fail | Credit(amount: real)

  function Judge(attempts: nat, answer: Answer): Verdict {
    if attempts > MAX_ATTEMPTS then Fail
    else
      match answer
      case NoReceipt => Retry
      case NoTransaction => Retry
      case RpcError => Retry
      case Value(amount) => if amount < DUST then Fail else Credit(amount)
      case _ => Fail
  }

  /** A verification on its way: the row as it was fetched, and the amount once it is cleared to credit. */
  datatype Task = Task(id: RowId, attempts: nat, cleared: Option<real>)

  /** How far a request has come: the user has no row of the hash; nobody else has a claim to it either;
      or, on the direct path, no row at all has it. */
  datatype Stage = OwnClear | AllClear | DirectClear

  /** A request on its way from its reads to its insert. */
  datatype Entry = Entry(userId: UserId, hash: Hash, amount: real, stage: Stage)

  /** The rows in order of creation, with the place of a row as its id; the credits given to users; the
      requests and the verifications under way. */
  datatype Books = Books(rows: seq<Deposit>, credits: map<UserId, real>, entries: seq<Entry>, tasks: seq<Task>)

  predicate Known(rows: seq<Deposit>, hash: Hash) {
    exists i :: 0 <= i < |rows| && rows[i].txHash == hash
  }

  /** A pending or completed row has the hash. */
  predicate Claimed(rows: seq<Deposit>, hash: Hash) {
    exists i :: 0 <= i < |rows| && rows[i].txHash == hash && rows[i].status != Failed
  }

  /** A pending or completed row of someone else has it. */
  predicate OthersClaim(rows: seq<Deposit>, hash: Hash, userId: UserId) {
    exists i :: 0 <= i < |rows| && rows[i].txHash == hash && rows[i].status != Failed && rows[i].userId != userId
  }

  predicate OwnRow(rows: seq<Deposit>, hash: Hash, userId: UserId) {
    exists i :: 0 <= i < |rows| && rows[i].txHash == hash && rows[i].userId == userId
  }

  /** The check against double spending: another completed row has the hash. */
  predicate Duplicate(rows: seq<Deposit>, id: RowId)
    requires id < |rows|
  {
    exists i :: 0 <= i < |rows| && i != id && rows[i].txHash == rows[id].txHash && rows[i].status == Completed
  }

  datatype Step =
    | LookOwn(userId: UserId, hash: Hash, claimed: real)   // submitDeposit reads the user's row of the hash,
    | LookOthers(entry: nat)                               // then those of others,
    | LookAny(userId: UserId, hash: Hash, amount: real)    // createDepositRequest reads any row of the hash,
    | Insert(entry: nat)                                   // and either one creates its row,
    | Abandon(entry: nat)                                  // or fails in between
    | Fetch(id: RowId)                                     // a pass lists the row
    | Resolve(task: nat, answer: Answer)                   // the chain has answered
    | CreditNow(task: nat)                                 // the crediting transaction

  predicate Enabled(b: Books, s: Step) {
    match s
    case LookOwn(u, _, _) => u in b.credits
    case LookAny(u, _, amount) => u in b.credits && amount > 0.0
    case LookOthers(k) => k < |b.entries| && b.entries[k].stage == OwnClear
    case Insert(k) => k < |b.entries| && b.entries[k].stage != OwnClear && b.entries[k].userId in b.credits
    case Abandon(k) => k < |b.entries|
    case Fetch(id) => id < |b.rows| && b.rows[id].status == PendingVerification
    case Resolve(k, _) => k < |b.tasks| && b.tasks[k].cleared.None? && b.tasks[k].id < |b.rows|
    case CreditNow(k) =>
      && k < |b.tasks| && b.tasks[k].cleared.Some?
      && b.tasks[k].id < |b.rows| && b.rows[b.tasks[k].id].userId in b.credits
  }

  function SetRow(b: Books, id: RowId, status: Status, attempts: nat): Books
    requires id < |b.rows|
  {
    b.(rows := b.rows[id := b.rows[id].(status := status, verifyAttempts := attempts)])
  }

  /** The row a request creates. */
  function RowOf(e: Entry): Deposit {
    Deposit(e.userId, e.hash, e.amount, if e.stage == DirectClear then Completed else PendingVerification, 0)
  }

  /** Neither the insert nor the updates of a verification look again: they write what was decided. */
  function Apply(b: Books, s: Step): Books
    requires Enabled(b, s)
  {
    match s
    case LookOwn(u, hash, claimed) =>
      if OwnRow(b.rows, hash, u) then b else b.(entries := b.entries + [Entry(u, hash, claimed, OwnClear)])
    case LookOthers(k) =>
      var e := b.entries[k];
      if OthersClaim(b.rows, e.hash, e.userId) then b.(entries := RemoveAt(b.entries, k))
      else b.(entries := b.entries[k := e.(stage := AllClear)])
    case LookAny(u, hash, amount) =>
      if Known(b.rows, hash) then b else b.(entries := b.entries + [Entry(u, hash, amount, DirectClear)])
    case Insert(k) =>
      var e := b.entries[k];
      b.(entries := RemoveAt(b.entries, k), rows := b.rows + [RowOf(e)],
         credits := if e.stage == DirectClear then b.credits[e.userId := b.credits[e.userId] + e.amount] else b.credits)
    case Abandon(k) => b.(entries := RemoveAt(b.entries, k))
    case Fetch(id) => b.(tasks := b.tasks + [Task(id, b.rows[id].verifyAttempts + 1, None)])
    case Resolve(k, answer) =>
      var t := b.tasks[k];
      var done := b.(tasks := RemoveAt(b.tasks, k));
      (match Judge(t.attempts, answer)
       case Retry => SetRow(done, t.id, b.rows[t.id].status, t.attempts)
       case Fail => SetRow(done, t.id, Failed, t.attempts)
       case Credit(amount) =>
         if Duplicate(b.rows, t.id) then SetRow(done, t.id, Failed, t.attempts)
         else b.(tasks := b.tasks[k := t.(cleared := Some(amount))]))
    case CreditNow(k) =>
      var t := b.tasks[k];
      var u := b.rows[t.id].userId;
      b.(tasks := RemoveAt(b.tasks, k),
         rows := b.rows[t.id := b.rows[t.id].(status := Completed, amount := t.cleared.value,
                                              verifyAttempts := t.attempts)],
         credits := b.credits[u := b.credits[u] + t.cleared.value])
  }

  /** Below the limit the chain's answer decides: what may change is tried again, what cannot be a deposit of
      at least a ten-thousandth fails, and everything else is credited at its value. */
  lemma JudgeIs(attempts: nat, answer: Answer)
    ensures attempts > 20 ==> Judge(attempts, answer) == Fail
    ensures attempts <= 20 ==>
              match answer
              case NoReceipt => Judge(attempts, answer) == Retry
              case NoTransaction => Judge(attempts, answer) == Retry
              case RpcError => Judge(attempts, answer) == Retry
              case Reverted => Judge(attempts, answer) == Fail
              case WrongDestination => Judge(attempts, answer) == Fail
              case WrongChain => Judge(attempts, answer) == Fail
              case Value(v) => Judge(attempts, answer) == if v < 0.0001 then Fail else Credit(v)
  {
  }

  // ---------- runs ----------

  ghost predicate CanRun(b: Books, run: seq<Step>)
    decreases |run|
  {
    run == [] || (Enabled(b, run[0]) && CanRun(Apply(b, run[0]), run[1..]))
  }

  ghost function After(b: Books, run: seq<Step>): Books
    requires CanRun(b, run)
    decreases |run|
  {
    if run == [] then b else After(Apply(b, run[0]), run[1..])
  }

  function Opened(users: set<UserId>): Books {
    Books([], map u | u in users :: 0.0, [], [])
  }

  // ---------- the books ----------

  function CompletedSum(rows: seq<Deposit>, u: UserId): real {
    if rows == [] then 0.0
    else CompletedSum(rows[..|rows| - 1], u) + Worth(rows[|rows| - 1], u)
  }

  function Worth(d: Deposit, u: UserId): real {
    if d.userId == u && d.status == Completed then d.amount else 0.0
  }

  /** What was credited to each user is what the user's completed rows are worth. */
  ghost predicate Balanced(b: Books) {
    forall u :: u in b.credits ==> b.credits[u] == CompletedSum(b.rows, u)
  }

  /** Rows and requests belong to known users, completed rows are worth something, and so are cleared amounts. */
  ghost predicate WellFormed(b: Books) {
    && (forall i :: 0 <= i < |b.rows| ==>
        b.rows[i].userId in b.credits && (b.rows[i].status == Completed ==> b.rows[i].amount > 0.0))
    && (forall k :: 0 <= k < |b.entries| ==>
          b.entries[k].userId in b.credits && (b.entries[k].stage == DirectClear ==> b.entries[k].amount > 0.0))
    && (forall k :: 0 <= k < |b.tasks| ==>
          b.tasks[k].id < |b.rows| && (b.tasks[k].cleared.Some? ==> b.tasks[k].cleared.value >= DUST))
  }

  lemma {:induction false} SumAfterUpdate(rows: seq<Deposit>, id: RowId, d: Deposit, u: UserId)
    requires id < |rows|
    ensures CompletedSum(rows[id := d], u) == CompletedSum(rows, u) - Worth(rows[id], u) + Worth(d, u)
  {
    var rest := rows[..|rows| - 1];
    if id == |rows| - 1 {
      assert rows[id := d][..|rows| - 1] == rest;
    } else {
      SumAfterUpdate(rest, id, d, u);
      assert rows[id := d][..|rows| - 1] == rest[id := d];
    }
  }

  lemma SumAfterAppend(rows: seq<Deposit>, d: Deposit, u: UserId)
    ensures CompletedSum(rows + [d], u) == CompletedSum(rows, u) + Worth(d, u)
  {
    assert (rows + [d])[..|rows|] == rows;
  }

  /** What can be checked before a step to know that the books stay balanced: a verification must not
      fail or credit a row that is completed already. */
  predicate Harmless(b: Books, s: Step)
    requires Enabled(b, s)
  {
    match s
    case Resolve(k, answer) =>
      var t := b.tasks[k];
      b.rows[t.id].status == Completed ==>
        (match Judge(t.attempts, answer)
         case Retry => true
         case Fail => false
         case Credit(_) => !Duplicate(b.rows, t.id))
    case CreditNow(k) => b.rows[b.tasks[k].id].status != Completed
    case _ => true
  }

  /** Every step of every interleaving keeps the books balanced exactly when it is harmless. */
  lemma StepBalancedIff(b: Books, s: Step)
    requires Enabled(b, s) && WellFormed(b) && Balanced(b)
    ensures WellFormed(Apply(b, s))
    ensures Balanced(Apply(b, s)) <==> Harmless(b, s)
  {
    StepWellFormed(b, s);
    if s.Resolve? || s.CreditNow? {
      RowStepBalancedIff(b, s);
    } else if s.Insert? {
      InsertBalanced(b, s.entry);
    }
  }

  lemma InsertBalanced(b: Books, k: nat)
    requires Enabled(b, Insert(k)) && WellFormed(b) && Balanced(b)
    ensures Balanced(Apply(b, Insert(k)))
  {
    var r := Apply(b, Insert(k));
    forall v | v in r.credits ensures r.credits[v] == CompletedSum(r.rows, v) {
      SumAfterAppend(b.rows, RowOf(b.entries[k]), v);
    }
  }

  lemma RowStepBalancedIff(b: Books, s: Step)
    requires Enabled(b, s) && WellFormed(b) && Balanced(b) && (s.Resolve? || s.CreditNow?)
    ensures Balanced(Apply(b, s)) <==> Harmless(b, s)
  {
    hide CompletedSum, RemoveAt;
    var r, id := Apply(b, s), b.tasks[s.task].id;
    var owner := b.rows[id].userId;
    assert r.rows == b.rows[id := r.rows[id]];
    forall v | v in b.credits
      ensures CompletedSum(r.rows, v) == CompletedSum(b.rows, v) - Worth(b.rows[id], v) + Worth(r.rows[id], v)
    {
      SumAfterUpdate(b.rows, id, r.rows[id], v);
    }
    assert r.credits[owner] == CompletedSum(r.rows, owner) <==> Harmless(b, s);
  }

  lemma StepWellFormed(b: Books, s: Step)
    requires Enabled(b, s) && WellFormed(b)
    ensures WellFormed(Apply(b, s))
  {
    hide Duplicate, OwnRow, OthersClaim, Known, RemoveAt;
  }

  ghost predicate AllHarmless(b: Books, run: seq<Step>)
    requires CanRun(b, run)
    decreases |run|
  {
    run == [] || (Harmless(b, run[0]) && AllHarmless(Apply(b, run[0]), run[1..]))
  }

  ghost predicate BalancedThroughout(b: Books, run: seq<Step>)
    requires CanRun(b, run)
    decreases |run|
  {
    Balanced(b) && (run == [] || BalancedThroughout(Apply(b, run[0]), run[1..]))
  }

  /** The books are balanced at every point of an arbitrary run exactly when each of its steps was harmless. */
  lemma {:induction false} RunBalancedIff(b: Books, run: seq<Step>)
    requires CanRun(b, run) && WellFormed(b) && Balanced(b)
    ensures BalancedThroughout(b, run) <==> AllHarmless(b, run)
    decreases |run|
  {
    if run == [] {
    } else {
      StepBalancedIff(b, run[0]);
      if Harmless(b, run[0]) {
        RunBalancedIff(Apply(b, run[0]), run[1..]);
      }
    }
  }
}
