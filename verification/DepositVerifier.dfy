/** The deposit controllers as the source has them: submitting a hash (submitDeposit in
    server/controllers/walletController.js) and verifying the pending rows
    (server/services/depositVerifier.js). Each method is tied to the steps it is made of. */
module DepositVerifier {
  import opened Common
  import opened DepositBooks
  import opened DepositQueue
  import opened DepositPass

  const DEPOSIT_MIN_POL := 1.0

  /** A whole verification of one row, nothing in between. */
  function Verified(b: Books, id: RowId, answer: Answer): Books
    requires b.tasks == [] && id < |b.rows| && b.rows[id].status == PendingVerification &&
             b.rows[id].userId in b.credits
  {
    var r := Apply(Apply(b, Fetch(id)), Resolve(0, answer));
    if r.tasks == [] then r else Apply(r, CreditNow(0))
  }

  /** The chain may still change its mind. */
  predicate Transient(answer: Answer) {
    answer in {NoReceipt, NoTransaction, RpcError}
  }

  /** Another completed row has the hash. */
  ghost predicate Spent(rows: seq<Deposit>, id: RowId)
    requires id < |rows|
  {
    exists i :: 0 <= i < |rows| && i != id && rows[i].txHash == rows[id].txHash && rows[i].status == Completed
  }

  /** One verification, whatever is answered: every other row, and every other user's credit, stays. Within twenty
      attempts a transient answer leaves the row pending and the credit alone; a value of at least a
      ten-thousandth whose hash is not spent completes the row at that value and credits its user exactly
      it; and anything else fails the row without a credit, as does any answer after the twentieth attempt. */
  ghost predicate VerifiedAs(rows: seq<Deposit>, credits: map<UserId, real>, rows': seq<Deposit>,
                             credits': map<UserId, real>, id: RowId, answer: Answer)
    requires id < |rows| && rows[id].userId in credits
  {
    var d, attempts := rows[id], rows[id].verifyAttempts + 1;
    && |rows'| == |rows| && (forall i :: 0 <= i < |rows| && i != id ==> rows'[i] == rows[i])
    && if attempts <= 20 && Transient(answer) then
         rows'[id] == d.(verifyAttempts := attempts) && credits' == credits
       else if attempts <= 20 && answer.Value? && answer.amount >= 0.0001 && !Spent(rows, id) then
         && rows'[id] == d.(status := Completed, amount := answer.amount, verifyAttempts := attempts)
         && credits' == credits[d.userId := credits[d.userId] + answer.amount]
       else
         rows'[id] == d.(status := Failed, verifyAttempts := attempts) && credits' == credits
  }

  lemma VerifiedIs(b: Books, id: RowId, answer: Answer)
    requires b.tasks == [] && id < |b.rows| && b.rows[id].userId in b.credits
    requires b.rows[id].status == PendingVerification
    ensures var r := Verified(b, id, answer);
            && r.tasks == [] && r.entries == b.entries
            && VerifiedAs(b.rows, b.credits, r.rows, r.credits, id, answer)
  {
    JudgeIs(b.rows[id].verifyAttempts + 1, answer);
  }

  /** Verifications of one row, one after the other, as long as it is pending. */
  function VerifiedEach(b: Books, id: RowId, answers: seq<Answer>): Books
    requires b.tasks == [] && id < |b.rows| && b.rows[id].userId in b.credits
    decreases |answers|
  {
    if answers == [] || b.rows[id].status != PendingVerification then b
    else
      VerifiedIs(b, id, answers[0]);
      VerifiedEach(Verified(b, id, answers[0]), id, answers[1..])
  }

  /** A deposit that the chain answers with transient answers and then, within twenty attempts in all, with a
      value is completed at that value and credited once, if its hash is not spent. */
  lemma {:induction false} TransientThenCredited(b: Books, id: RowId, answers: seq<Answer>, amount: real)
    requires b.tasks == [] && id < |b.rows| && b.rows[id].userId in b.credits
    requires b.rows[id].status == PendingVerification
    requires (forall i :: 0 <= i < |answers| ==> Transient(answers[i])) && amount >= 0.0001 && !Spent(b.rows, id)
    requires b.rows[id].verifyAttempts + |answers| + 1 <= 20
    ensures var r, u := VerifiedEach(b, id, answers + [Value(amount)]), b.rows[id].userId;
            && id < |r.rows| && r.rows[id].status == Completed && r.rows[id].amount == amount
            && r.credits == b.credits[u := b.credits[u] + amount]
    decreases |answers|
  {
    hide Verified;
    if answers == [] {
      VerifiedIs(b, id, Value(amount));
      assert [] + [Value(amount)] == [Value(amount)];
    } else {
      VerifiedIs(b, id, answers[0]);
      var next := Verified(b, id, answers[0]);
      assert !Spent(next.rows, id);
      TransientThenCredited(next, id, answers[1..], amount);
      assert (answers + [Value(amount)])[1..] == answers[1..] + [Value(amount)];
    }
  }

  /** The direct path, nothing in between: exactly for a hash that no row has it adds a completed row and
      credits its amount. */
  lemma DirectIff(b: Books, userId: UserId, hash: Hash, amount: real)
    requires userId in b.credits && amount > 0.0 && b.entries == []
    ensures var looked := Apply(b, LookAny(userId, hash, amount));
            if exists i :: 0 <= i < |b.rows| && b.rows[i].txHash == hash then looked == b
            else
              && Enabled(looked, Insert(0))
              && var r := Apply(looked, Insert(0));
                 && r.entries == [] && r.rows == b.rows + [Deposit(userId, hash, amount, Completed, 0)]
                 && r.credits == b.credits[userId := b.credits[userId] + amount]
  {
  }

  datatype Claim = NoClaim | NotANumber | Stated(amount: real)

  /** No amount, zero, or at least the minimum. */
  predicate Acceptable(claim: Claim) {
    claim == NoClaim || (claim.Stated? && (claim.amount == 0.0 || claim.amount >= DEPOSIT_MIN_POL))
  }

  function AmountOf(claim: Claim): real {
    if claim.Stated? then claim.amount else 0.0
  }

  /** Clear means that both reads found nothing. */
  datatype SubmitReply =
    | InvalidHash | InvalidAmount
    | AlreadyCredited | StillVerifying | VerificationFailed | HashClaimed
    | Clear | Submitted(id: RowId)

  /** The first of the user's rows of a hash. */
  function FirstOwn(rows: seq<Deposit>, hash: Hash, userId: UserId): (r: Option<Deposit>)
    ensures r.Some? ==> r.value in rows && r.value.txHash == hash && r.value.userId == userId
    ensures r.None? <==> !OwnRow(rows, hash, userId)
  {
    if rows == [] then None
    else if rows[0].txHash == hash && rows[0].userId == userId then
      assert OwnRow(rows, hash, userId);
      Some(rows[0])
    else
      assert forall i :: 0 < i < |rows| ==> rows[i] == rows[1..][i - 1];
      FirstOwn(rows[1..], hash, userId)
  }

  /** What the reads of submitDeposit come to. */
  function ReplyTo(rows: seq<Deposit>, userId: UserId, hash: Option<Hash>, claim: Claim): SubmitReply {
    if hash.None? then InvalidHash
    else if !Acceptable(claim) then InvalidAmount
    else
      match FirstOwn(rows, hash.value, userId)
      case Some(own) =>
        (match own.status
         case Completed => AlreadyCredited
         case PendingVerification => StillVerifying
         case Failed => VerificationFailed)
      case None => if OthersClaim(rows, hash.value, userId) then HashClaimed else Clear
  }

  /** A request is clear exactly when its hash has the right form, it states no amount, zero or at least one,
      nobody claims the hash and the user never used it; the other answers name what fails first. */
  lemma ClearIff(rows: seq<Deposit>, userId: UserId, hash: Option<Hash>, claim: Claim)
    ensures var r := ReplyTo(rows, userId, hash, claim);
            var fits := claim == NoClaim || (claim.Stated? && (claim.amount == 0.0 || claim.amount >= 1.0));
            && (r == InvalidHash <==> hash.None?)
            && (r == InvalidAmount <==> hash.Some? && !fits)
            && (r == Clear <==>
                  hash.Some? && fits && !OwnRow(rows, hash.value, userId) && !Claimed(rows, hash.value))
            && (r == HashClaimed <==>
                  hash.Some? && fits && !OwnRow(rows, hash.value, userId) && Claimed(rows, hash.value))
            && (r == AlreadyCredited ==> HasOwn(rows, hash, userId, Completed))
            && (r == StillVerifying ==> HasOwn(rows, hash, userId, PendingVerification))
            && (r == VerificationFailed ==> HasOwn(rows, hash, userId, Failed))
            && r.Submitted? == false
  {
    if hash.Some? && FirstOwn(rows, hash.value, userId).Some? {
      var own := FirstOwn(rows, hash.value, userId).value;
      var i :| 0 <= i < |rows| && rows[i] == own;
      assert rows[i].status == own.status;
    }
  }

  ghost predicate HasOwn(rows: seq<Deposit>, hash: Option<Hash>, userId: UserId, status: Status) {
    hash.Some? &&
    exists i :: 0 <= i < |rows| && rows[i].txHash == hash.value && rows[i].userId == userId && rows[i].status == status
  }

  /** A whole submission, nothing in between. */
  function Submission(b: Books, userId: UserId, hash: Hash, amount: real): Books
    requires b.entries == [] && userId in b.credits && !OwnRow(b.rows, hash, userId) &&
             !OthersClaim(b.rows, hash, userId)
  {
    Apply(Apply(Apply(b, LookOwn(userId, hash, amount)), LookOthers(0)), Insert(0))
  }

  class DepositService {
    var rows: seq<Deposit>
    var credits: map<UserId, real>

    ghost function State(): Books
      reads this
    {
      Books(rows, credits, [], [])
    }

    constructor (users: set<UserId>)
      ensures State() == Opened(users)
    {
      rows, credits := [], map u | u in users :: 0.0;
    }

    /** verifyOnePendingDeposit */
    method VerifyOne(id: RowId, answer: Answer)
      requires id < |rows| && rows[id].status == PendingVerification && rows[id].userId in credits
      modifies this
      ensures State() == Verified(old(State()), id, answer)
      ensures VerifiedAs(old(rows), old(credits), rows, credits, id, answer)
      ensures credits.Keys == old(credits.Keys)
    {
      hide Duplicate;
      VerifiedIs(State(), id, answer);
      var tx := rows[id];
      var attempts := tx.verifyAttempts + 1;
      if attempts > MAX_ATTEMPTS {
        rows := rows[id := tx.(status := Failed, verifyAttempts := attempts)];
        return;
      }
      match answer {
        case NoReceipt => rows := rows[id := tx.(verifyAttempts := attempts)];
        case NoTransaction => rows := rows[id := tx.(verifyAttempts := attempts)];
        case RpcError => rows := rows[id := tx.(verifyAttempts := attempts)];
        case Reverted => rows := rows[id := tx.(status := Failed, verifyAttempts := attempts)];
        case WrongDestination => rows := rows[id := tx.(status := Failed, verifyAttempts := attempts)];
        case WrongChain => rows := rows[id := tx.(status := Failed, verifyAttempts := attempts)];
        case Value(verifiedAmount) =>
          if verifiedAmount < DUST {
            rows := rows[id := tx.(status := Failed, verifyAttempts := attempts)];
            return;
          }
          var duplicate := FindDuplicate(id);
          if duplicate {
            rows := rows[id := tx.(status := Failed, verifyAttempts := attempts)];
            return;
          }
          rows := rows[id := tx.(status := Completed, amount := verifiedAmount, verifyAttempts := attempts)];
          credits := credits[tx.userId := credits[tx.userId] + verifiedAmount];
      }
    }

    method FindDuplicate(id: RowId) returns (found: bool)
      requires id < |rows|
      ensures found <==> Duplicate(rows, id)
    {
      for i := 0 to |rows|
        invariant forall k :: 0 <= k < i ==> k == id || rows[k].txHash != rows[id].txHash || rows[k].status != Completed
      {
        if i != id && rows[i].txHash == rows[id].txHash && rows[i].status == Completed {
          return true;
        }
      }
      found := false;
    }

    /** runDepositVerifier, its verifications one after the other: the queue of pending rows changes as one
        pass of the queue does. */
    method RunPass(answers: RowId -> Answer)
      requires forall i :: 0 <= i < |rows| ==> rows[i].userId in credits
      modifies this
      ensures Queue(rows) == Listed(Queue(old(rows)), answers)
      ensures |rows| == |old(rows)| && credits.Keys == old(credits.Keys)
    {
      hide Verified, Visited, PendingBetween, Judge;
      ghost var before := rows;
      var pending := Queue(rows);
      StartOfPass(before, answers);
      var n := PageLength(pending);
      ghost var done := 0;
      assert pending[0..] == pending && pending[..0] == [];
      for j := 0 to n
        invariant |rows| == |before| && credits.Keys == old(credits.Keys)
        invariant forall i :: 0 <= i < |rows| ==> rows[i].userId in credits
        invariant 0 <= done <= |rows| && forall i :: done <= i < |rows| ==> rows[i] == before[i]
        invariant PendingBetween(rows, 0, done) == Visited(pending[..j], answers)
        invariant PendingBetween(before, done, |before|) == pending[j..]
      {
        var id := pending[j].id;
        NextPending(before, done, pending[j..]);
        ghost var rows0 := rows;
        VerifiedRow(State(), id, answers(id));
        VerifyOne(id, answers(id));
        VisitedOneMore(before, rows0, rows, done, id, pending, j, answers);
        done := id + 1;
      }
      PendingJoins(rows, 0, done, |rows|);
      PendingSame(before, rows, done, |rows|);
    }

    /** The reads of submitDeposit. A hash that is not of the right format arrives as None. */
    method LookUp(userId: UserId, hash: Option<Hash>, claim: Claim) returns (r: SubmitReply)
      ensures r == ReplyTo(rows, userId, hash, claim)
    {
      if hash.None? {
        return InvalidHash;
      }
      if claim == NotANumber {
        return InvalidAmount;
      }
      if claim.Stated? {
        if claim.amount < 0.0 || (claim.amount > 0.0 && claim.amount < DEPOSIT_MIN_POL) {
          return InvalidAmount;
        }
      }
      var existing := FirstOwn(rows, hash.value, userId);
      if existing.Some? {
        return match existing.value.status
          case Completed => AlreadyCredited
          case PendingVerification => StillVerifying
          case Failed => VerificationFailed;
      }
      for i := 0 to |rows|
        invariant forall k :: 0 <= k < i ==>
                    rows[k].txHash != hash.value || rows[k].status == Failed || rows[k].userId == userId
      {
        if rows[i].txHash == hash.value && rows[i].status != Failed && rows[i].userId != userId {
          return HashClaimed;
        }
      }
      r := Clear;
    }

    /** submitDeposit with nothing in between its reads and its insert. */
    method Submit(userId: UserId, hash: Option<Hash>, claim: Claim) returns (r: SubmitReply)
      requires userId in credits
      modifies this`rows
      ensures var found := ReplyTo(old(rows), userId, hash, claim);
              if found == Clear then
                r == Submitted(|old(rows)|) && State() == Submission(old(State()), userId, hash.value, AmountOf(claim))
              else r == found && State() == old(State())
      ensures r.Submitted? ==>
                && hash.Some? && r.id == |old(rows)|
                && rows == old(rows) + [Deposit(userId, hash.value, if claim.Stated? then claim.amount else 0.0,
                                                PendingVerification, 0)]
    {
      r := LookUp(userId, hash, claim);
      if r == Clear {
        r := Submitted(|rows|);
        rows := rows + [Deposit(userId, hash.value, AmountOf(claim), PendingVerification, 0)];
      }
    }
  }

  /** What a verification leaves of its row: a pending row with one attempt more, or a settled one. */
  lemma VerifiedRow(b: Books, id: RowId, answer: Answer)
    requires b.tasks == [] && id < |b.rows| && b.rows[id].status == PendingVerification &&
             b.rows[id].userId in b.credits
    ensures var r := Verified(b, id, answer);
            && |r.rows| == |b.rows| && (forall i :: 0 <= i < |b.rows| && i != id ==> r.rows[i] == b.rows[i])
            && r.rows[id].userId == b.rows[id].userId
            && (r.rows[id].status == PendingVerification <==> Judge(b.rows[id].verifyAttempts + 1, answer).Retry?)
            && r.rows[id].verifyAttempts == b.rows[id].verifyAttempts + 1
  {
  }

  lemma StartOfPass(rows: seq<Deposit>, answers: RowId -> Answer)
    ensures PendingBetween(rows, 0, 0) == Visited(Queue(rows)[..0], answers)
  {
  }

  /** One verification more of a pass. */
  lemma VisitedOneMore(before: seq<Deposit>, rows: seq<Deposit>, rows': seq<Deposit>, done: nat, id: nat,
                       pending: seq<Waiting>, j: nat, answers: RowId -> Answer)
    requires |rows'| == |rows| == |before| && done <= id < |before| && j < |pending|
    requires pending[j] == Waiting(id, before[id].verifyAttempts) && PendingBetween(before, done, id) == []
    requires (forall i :: done <= i < |rows| ==> rows[i] == before[i]) &&
             (forall i :: 0 <= i < |rows| && i != id ==> rows'[i] == rows[i])
    requires rows'[id].status == PendingVerification <==> Judge(before[id].verifyAttempts + 1, answers(id)).Retry?
    requires rows'[id].verifyAttempts == before[id].verifyAttempts + 1
    requires PendingBetween(rows, 0, done) == Visited(pending[..j], answers)
    ensures PendingBetween(rows', 0, id + 1) == Visited(pending[..j + 1], answers)
  {
    hide PendingBetween, Visited, Judge;
    PendingSame(rows, rows', 0, done);
    PendingSame(before, rows', done, id);
    PendingJoins(rows', 0, done, id);
    PendingJoins(rows', 0, id, id + 1);
    OneVisited(rows', before[id], id, answers);
    assert pending[..j + 1] == pending[..j] + [pending[j]];
    VisitedConcat(pending[..j], [pending[j]], answers);
  }

  lemma {:induction false} OneVisited(rows': seq<Deposit>, d: Deposit, id: RowId, answers: RowId -> Answer)
    requires id < |rows'| && rows'[id].verifyAttempts == d.verifyAttempts + 1
    requires rows'[id].status == PendingVerification <==> Judge(d.verifyAttempts + 1, answers(id)).Retry?
    ensures PendingBetween(rows', id, id + 1) == Visited([Waiting(id, d.verifyAttempts)], answers)
  {
    assert PendingBetween(rows', id + 1, id + 1) == [];
  }
}
