/** Limited-stock sales of event machines (server/services/offerEventPurchaseService.js,
    server/services/offerEventHelpers.js): any number of purchase transactions that read the row,
    compare and set its sold count, and commit or abort, interleaved in any way. */
module OfferSale {
  import opened Common

  const MAX_ATTEMPTS := 10

  datatype Event = Event(startsAt: int, endsAt: int, isActive: bool, deleted: bool)

  /** The columns of the event machine that a purchase observed; its sold count is kept apart. A price that
      is not a finite number is None. */
  datatype Offer = Offer(event: Option<Event>, isActive: bool, stockUnlimited: bool, stockCount: Option<nat>,
                         isFree: bool, price: Option<real>, claimLimitPerUser: nat)

  datatype Failure =
    | NotFound | EventNotActive | Unavailable | ClaimLimit | InvalidPrice
    | Insufficient | OutOfStock | Busy | Aborted

  /** Where a purchase transaction stands: about to read, holding what it read, holding its reservation. */
  datatype Phase = Trying(attempt: nat) | Seen(attempt: nat, sold: nat) | Reserved | Committed | Failed(why: Failure)

  datatype Purchase = Purchase(userId: nat, quantity: nat, phase: Phase)

  datatype Row = Row(userId: nat, pricePaid: real)

  /** The sold count with every reservation in it, the transactions so far, and what has been committed. */
  datatype Sale = Sale(soldCount: nat, purchases: seq<Purchase>, rows: seq<Row>, items: seq<nat>,
                       balances: map<nat, real>)

  // ---------- the checks of one transaction ----------

  /** isOfferEventLiveAt */
  predicate LiveAt(e: Option<Event>, now: int) {
    e.Some? && !e.value.deleted && e.value.isActive && e.value.startsAt <= now <= e.value.endsAt
  }

  /** hasEventMinerStock */
  predicate HasStock(o: Offer, sold: nat) {
    o.isActive && (o.stockUnlimited || (o.stockCount.Some? && sold < o.stockCount.value))
  }

  function UnitPrice(o: Offer): real {
    if o.isFree || o.price.None? then 0.0 else o.price.value
  }

  function TotalPrice(o: Offer, quantity: nat): real {
    UnitPrice(o) * (quantity as real)
  }

  /** purchaseEventMinerForUser up to the reservation, on whatever its reads return. */
  function Checked(o: Offer, now: int, quantity: nat, sold: nat, claims: nat, balance: Option<real>): Phase {
    if o.event.None? || o.event.value.deleted then Failed(NotFound)
    else if !LiveAt(o.event, now) then Failed(EventNotActive)
    else if !HasStock(o, sold) then Failed(Unavailable)
    else if o.isFree then
      if o.claimLimitPerUser > 0 && claims + quantity > o.claimLimitPerUser then Failed(ClaimLimit) else Trying(0)
    else if o.price.None? || o.price.value <= 0.0 then Failed(InvalidPrice)
    else if balance.None? then Failed(NotFound)
    else if balance.value < TotalPrice(o, quantity) then Failed(Insufficient)
    else Trying(0)
  }

  /** Enough is left for the quantity; a missing stock count counts as zero. */
  predicate RoomFor(o: Offer, sold: nat, quantity: nat) {
    o.stockUnlimited || (if o.stockCount.Some? then o.stockCount.value else 0) - sold >= quantity
  }

  /** The read of one attempt; None when the row is gone. */
  function AfterRead(o: Offer, quantity: nat, attempt: nat, read: Option<nat>): Phase {
    if read.None? then Failed(NotFound)
    else if !RoomFor(o, read.value, quantity) then Failed(OutOfStock)
    else Seen(attempt, read.value)
  }

  /** The conditional update of one attempt, against the count the row really has. */
  function AfterUpdate(attempt: nat, seen: nat, actual: nat): Phase {
    if seen == actual then Reserved
    else if attempt + 1 < MAX_ATTEMPTS then Trying(attempt + 1)
    else Failed(Busy)
  }

  /** What one attempt makes of its read and of the row at its update. */
  function Attempt(o: Offer, quantity: nat, attempt: nat, read: Option<nat>, actual: nat): Phase {
    var p := AfterRead(o, quantity, attempt, read);
    if p.Seen? then AfterUpdate(attempt, p.sold, actual) else p
  }

  /** Attempts from a given one on, until one ends the loop. */
  function Attempts(o: Offer, quantity: nat, attempt: nat, observed: seq<Option<nat>>, actuals: seq<nat>): Phase
    requires |observed| == |actuals| == MAX_ATTEMPTS && attempt < MAX_ATTEMPTS
    decreases MAX_ATTEMPTS - attempt
  {
    var p := Attempt(o, quantity, attempt, observed[attempt], actuals[attempt]);
    if p.Trying? then Attempts(o, quantity, attempt + 1, observed, actuals) else p
  }

  /** incrementSoldCountOptimistic. The k-th read of the loop returns `observed[k]`, and when its update
      arrives the row has `actuals[k]`: both are up to the other transactions. */
  method IncrementSoldCountOptimistic(o: Offer, quantity: nat, observed: seq<Option<nat>>, actuals: seq<nat>)
    returns (r: Phase, ghost k: nat)
    requires |observed| == |actuals| == MAX_ATTEMPTS
    ensures r == Attempts(o, quantity, 0, observed, actuals)
    ensures k < 10 && forall j :: 0 <= j < k ==> observed[j].Some? && observed[j].value != actuals[j]
    ensures match r
            case Reserved => observed[k] == Some(actuals[k]) && RoomFor(o, actuals[k], quantity)
            case Failed(why) =>
              || (why == NotFound && observed[k].None?)
              || (why == OutOfStock && observed[k].Some? && !RoomFor(o, observed[k].value, quantity))
              || (why == Busy && k == 9 && observed[k].Some? && observed[k].value != actuals[k])
            case _ => false
  {
    k := 0;
    var attempt := 0;
    while attempt < MAX_ATTEMPTS
      invariant 0 <= attempt <= MAX_ATTEMPTS
      invariant attempt < MAX_ATTEMPTS ==>
                  Attempts(o, quantity, 0, observed, actuals) == Attempts(o, quantity, attempt, observed, actuals)
      invariant attempt == MAX_ATTEMPTS ==> Attempts(o, quantity, 0, observed, actuals) == Failed(Busy)
      invariant forall j :: 0 <= j < attempt ==> observed[j].Some? && observed[j].value != actuals[j]
    {
      k := attempt;
      if observed[attempt].None? {
        return Failed(NotFound), k;
      }
      var m := observed[attempt].value;
      if !o.stockUnlimited {
        var remaining := (if o.stockCount.Some? then o.stockCount.value else 0) - m;
        if remaining < quantity {
          return Failed(OutOfStock), k;
        }
      }
      if actuals[attempt] == m {
        return Reserved, k;
      }
      attempt := attempt + 1;
    }
    k := MAX_ATTEMPTS - 1;
    r := Failed(Busy);
  }

  // ---------- any interleaving ----------

  datatype Step =
    | Begin(userId: nat, quantity: nat, now: int, sold: nat, claims: nat, balance: Option<real>)
    | Read(id: nat, read: Option<nat>)
    | Update(id: nat)
    | Commit(id: nat)
    | Abort(id: nat)

  predicate Enabled(s: Sale, st: Step) {
    match st
    case Begin(_, quantity, _, _, _, _) => quantity >= 1
    case Read(id, _) => id < |s.purchases| && s.purchases[id].phase.Trying?
    case Update(id) => id < |s.purchases| && s.purchases[id].phase.Seen?
    case Commit(id) => id < |s.purchases| && s.purchases[id].phase.Reserved? && s.purchases[id].userId in s.balances
    case Abort(id) => id < |s.purchases| && !s.purchases[id].phase.Committed? && !s.purchases[id].phase.Failed?
  }

  function Copies<T>(n: nat, x: T): (r: seq<T>)
    ensures |r| == n && forall i :: 0 <= i < n ==> r[i] == x
  {
    seq(n, _ => x)
  }

  function WithPhase(s: Sale, id: nat, phase: Phase): Sale
    requires id < |s.purchases|
  {
    s.(purchases := s.purchases[id := s.purchases[id].(phase := phase)])
  }

  /** One step of one transaction. Reads may return anything: whatever the isolation level lets a
      transaction see. Only the conditional update acts on the real count. */
  function Apply(o: Offer, s: Sale, st: Step): Sale
    requires Enabled(s, st)
  {
    match st
    case Begin(userId, quantity, now, sold, claims, balance) =>
      s.(purchases := s.purchases + [Purchase(userId, quantity, Checked(o, now, quantity, sold, claims, balance))])
    case Read(id, read) =>
      WithPhase(s, id, AfterRead(o, s.purchases[id].quantity, s.purchases[id].phase.attempt, read))
    case Update(id) =>
      var p := s.purchases[id];
      var phase := AfterUpdate(p.phase.attempt, p.phase.sold, s.soldCount);
      WithPhase(s, id, phase).(soldCount := if phase == Reserved then s.soldCount + p.quantity else s.soldCount)
    case Commit(id) =>
      var p := s.purchases[id];
      WithPhase(s, id, Committed).(
        rows := s.rows + Copies(p.quantity, Row(p.userId, UnitPrice(o))),
        items := s.items + Copies(p.quantity, p.userId),
        balances := s.balances[p.userId := s.balances[p.userId] - TotalPrice(o, p.quantity)])
    case Abort(id) =>
      var p := s.purchases[id];
      WithPhase(s, id, Failed(Aborted)).(
        soldCount := if p.phase == Reserved && s.soldCount >= p.quantity then s.soldCount - p.quantity else s.soldCount)
  }

  /** What the transactions in flight have reserved. */
  function InFlight(purchases: seq<Purchase>): nat {
    if purchases == [] then 0
    else InFlight(purchases[..|purchases| - 1]) +
         (if purchases[|purchases| - 1].phase.Reserved? then purchases[|purchases| - 1].quantity else 0)
  }

  /** What a user has paid in committed rows. */
  function Paid(rows: seq<Row>, userId: nat): real {
    if rows == [] then 0.0
    else
      var last := rows[|rows| - 1];
      Paid(rows[..|rows| - 1], userId) + (if last.userId == userId then last.pricePaid else 0.0)
  }

  function Owners(rows: seq<Row>): seq<nat> {
    seq(|rows|, i requires 0 <= i < |rows| => rows[i].userId)
  }

  /** Every committed row has its item, and a balance is short of its start by what its user paid. */
  ghost predicate BooksKept(start: map<nat, real>, rows: seq<Row>, items: seq<nat>, balances: map<nat, real>) {
    && items == Owners(rows)
    && balances.Keys == start.Keys
    && (forall u :: u in start ==> balances[u] == start[u] - Paid(rows, u))
  }

  /** Sold is what was sold before, what is committed and what is in flight, never more than the stock. */
  ghost predicate Sound(o: Offer, before: nat, start: map<nat, real>, s: Sale) {
    && s.soldCount == before + |s.rows| + InFlight(s.purchases)
    && (!o.stockUnlimited && o.stockCount.Some? && before <= o.stockCount.value ==> s.soldCount <= o.stockCount.value)
    && (!o.stockUnlimited && o.stockCount.None? ==> s.soldCount == before)
    && BooksKept(start, s.rows, s.items, s.balances)
  }

  lemma {:induction false} InFlightChange(purchases: seq<Purchase>, id: nat, p: Purchase)
    requires id < |purchases|
    ensures InFlight(purchases[id := p]) == InFlight(purchases)
              - (if purchases[id].phase.Reserved? then purchases[id].quantity else 0)
                + (if p.phase.Reserved? then p.quantity else 0)
  {
    var rest := purchases[..|purchases| - 1];
    if id < |purchases| - 1 {
      InFlightChange(rest, id, p);
      assert purchases[id := p][..|purchases| - 1] == rest[id := p];
    } else {
      assert purchases[id := p][..|purchases| - 1] == rest;
    }
  }

  lemma InFlightMore(purchases: seq<Purchase>, p: Purchase)
    ensures InFlight(purchases + [p]) == InFlight(purchases) + (if p.phase.Reserved? then p.quantity else 0)
  {
    assert (purchases + [p])[..|purchases|] == purchases;
  }

  lemma {:induction false} PaidMore(rows: seq<Row>, quantity: nat, row: Row, userId: nat)
    ensures Paid(rows + Copies(quantity, row), userId) ==
              Paid(rows, userId) + (if row.userId == userId then row.pricePaid * (quantity as real) else 0.0)
  {
    hide Copies, Paid;
    if quantity == 0 {
      assert rows + Copies(0, row) == rows;
    } else {
      PaidMore(rows, quantity - 1, row, userId);
      assert rows + Copies(quantity, row) == (rows + Copies(quantity - 1, row)) + [row];
      PaidWith(rows + Copies(quantity - 1, row), row, userId);
      OneMore(row.pricePaid, quantity);
    }
  }

  lemma PaidWith(rows: seq<Row>, row: Row, userId: nat)
    ensures Paid(rows + [row], userId) == Paid(rows, userId) + (if row.userId == userId then row.pricePaid else 0.0)
  {
    assert (rows + [row])[..|rows|] == rows;
  }

  lemma OneMore(price: real, quantity: nat)
    requires quantity >= 1
    ensures price * (quantity as real) == price * ((quantity - 1) as real) + price
  {
    assert (quantity as real) == ((quantity - 1) as real) + 1.0;
  }

  lemma CheckedStarts(o: Offer, now: int, quantity: nat, sold: nat, claims: nat, balance: Option<real>)
    ensures var p := Checked(o, now, quantity, sold, claims, balance); p == Trying(0) || p.Failed?
  {
  }

  /** A transaction only ever holds a read count that leaves room for its quantity. */
  ghost predicate ReadsHaveRoom(o: Offer, s: Sale) {
    forall i :: 0 <= i < |s.purchases| ==>
      var p := s.purchases[i];
      && (p.phase.Seen? ==> RoomFor(o, p.phase.sold, p.quantity) && p.phase.attempt < MAX_ATTEMPTS)
      && (p.phase.Trying? ==> p.phase.attempt < MAX_ATTEMPTS)
      && p.quantity >= 1
  }

  /** Every step of every transaction keeps the sale sound. */
  lemma StepKeepsSound(o: Offer, before: nat, start: map<nat, real>, s: Sale, st: Step)
    requires Sound(o, before, start, s) && ReadsHaveRoom(o, s) && Enabled(s, st)
    ensures Sound(o, before, start, Apply(o, s, st)) && ReadsHaveRoom(o, Apply(o, s, st))
  {
    hide BooksKept, Checked, TotalPrice, InFlight, Copies;
    StepKeepsReads(o, s, st);
    var t := Apply(o, s, st);
    match st
    case Begin(userId, quantity, now, sold, claims, balance) =>
      var phase := Checked(o, now, quantity, sold, claims, balance);
      CheckedStarts(o, now, quantity, sold, claims, balance);
      InFlightMore(s.purchases, Purchase(userId, quantity, phase));
    case Commit(id) => CommitKeepsSound(o, before, start, s, id);
    case _ =>
      InFlightChange(s.purchases, st.id, t.purchases[st.id]);
      InFlightAtLeast(s.purchases, st.id);
  }

  lemma StepKeepsReads(o: Offer, s: Sale, st: Step)
    requires ReadsHaveRoom(o, s) && Enabled(s, st)
    ensures ReadsHaveRoom(o, Apply(o, s, st))
  {
    hide Checked, TotalPrice, UnitPrice;
    if st.Begin? {
      CheckedStarts(o, st.now, st.quantity, st.sold, st.claims, st.balance);
    }
  }

  lemma CommitKeepsSound(o: Offer, before: nat, start: map<nat, real>, s: Sale, id: nat)
    requires Sound(o, before, start, s) && Enabled(s, Commit(id))
    ensures Sound(o, before, start, Apply(o, s, Commit(id)))
  {
    hide BooksKept, TotalPrice, InFlight, Copies, UnitPrice;
    var p, t := s.purchases[id], Apply(o, s, Commit(id));
    InFlightChange(s.purchases, id, t.purchases[id]);
    CommitKeepsBooks(start, s.rows, s.items, s.balances, p.userId, p.quantity, UnitPrice(o));
    TotalIsUnits(o, p.quantity);
    assert t.rows == s.rows + Copies(p.quantity, Row(p.userId, UnitPrice(o)));
    assert t.items == s.items + Copies(p.quantity, p.userId);
    assert t.balances == s.balances[p.userId := s.balances[p.userId] - UnitPrice(o) * (p.quantity as real)];
    assert BooksKept(start, t.rows, t.items, t.balances);
    assert t.purchases == s.purchases[id := t.purchases[id]];
    assert InFlight(t.purchases) == InFlight(s.purchases) - p.quantity;
  }

  lemma TotalIsUnits(o: Offer, quantity: nat)
    ensures TotalPrice(o, quantity) == UnitPrice(o) * (quantity as real)
  {
  }

  lemma {:induction false} InFlightAtLeast(purchases: seq<Purchase>, id: nat)
    requires id < |purchases|
    ensures purchases[id].phase.Reserved? ==> InFlight(purchases) >= purchases[id].quantity
  {
    if id == |purchases| - 1 {
    } else {
      InFlightAtLeast(purchases[..|purchases| - 1], id);
    }
  }

  lemma CommitKeepsBooks(start: map<nat, real>, rows: seq<Row>, items: seq<nat>, balances: map<nat, real>,
                         userId: nat, quantity: nat, unit: real)
    requires BooksKept(start, rows, items, balances) && userId in balances
    ensures var rows' := rows + Copies(quantity, Row(userId, unit));
            && |rows'| == |rows| + quantity
            && BooksKept(start, rows', items + Copies(quantity, userId),
                         balances[userId := balances[userId] - unit * (quantity as real)])
  {
    hide Paid;
    var rows' := rows + Copies(quantity, Row(userId, unit));
    forall u | u in start
      ensures Paid(rows', u) == Paid(rows, u) + (if userId == u then unit * (quantity as real) else 0.0)
    {
      PaidMore(rows, quantity, Row(userId, unit), u);
    }
    assert items + Copies(quantity, userId) == Owners(rows');
  }

  // ---------- runs ----------

  ghost predicate CanRun(o: Offer, s: Sale, run: seq<Step>)
    decreases |run|
  {
    run == [] || (Enabled(s, run[0]) && CanRun(o, Apply(o, s, run[0]), run[1..]))
  }

  ghost function After(o: Offer, s: Sale, run: seq<Step>): Sale
    requires CanRun(o, s, run)
    decreases |run|
  {
    if run == [] then s else After(o, Apply(o, s, run[0]), run[1..])
  }

  /** A sale when observation starts: some already sold, nothing in flight. */
  function Opened(sold: nat, balances: map<nat, real>): Sale {
    Sale(sold, [], [], [], balances)
  }

  lemma {:induction false} RunKeepsSound(o: Offer, before: nat, start: map<nat, real>, s: Sale, run: seq<Step>)
    requires Sound(o, before, start, s) && ReadsHaveRoom(o, s) && CanRun(o, s, run)
    ensures Sound(o, before, start, After(o, s, run)) && ReadsHaveRoom(o, After(o, s, run))
    decreases |run|
  {
    if run == [] {
    } else {
      StepKeepsSound(o, before, start, s, run[0]);
      RunKeepsSound(o, before, start, Apply(o, s, run[0]), run[1..]);
    }
  }

  /** No oversell: after any interleaving of any number of purchases, whatever each of them read, what was
      sold before plus every committed row plus every reservation in flight is the sold count and stays
      within the stock; each row has one item of its user; each balance is short by exactly the rows. */
  lemma NoOversell(o: Offer, sold: nat, balances: map<nat, real>, run: seq<Step>)
    requires CanRun(o, Opened(sold, balances), run)
    requires o.stockUnlimited || o.stockCount.None? || sold <= o.stockCount.value
    ensures var s := After(o, Opened(sold, balances), run);
            && s.soldCount == sold + |s.rows| + InFlight(s.purchases)
            && (!o.stockUnlimited && o.stockCount.Some? ==>
                sold + |s.rows| + InFlight(s.purchases) <= o.stockCount.value)
            && (!o.stockUnlimited && o.stockCount.None? ==> s.rows == [])
            && s.items == Owners(s.rows)
            && forall u :: u in balances ==> u in s.balances && s.balances[u] == balances[u] - Paid(s.rows, u)
  {
    RunKeepsSound(o, sold, balances, Opened(sold, balances), run);
  }

  /** A read and an update of the same transaction, with anything in between, are one attempt of the loop. */
  lemma StepsAreAttempts(o: Offer, s: Sale, id: nat, read: Option<nat>, between: Sale)
    requires Enabled(s, Read(id, read))
    requires id < |between.purchases| && between.purchases[id] == Apply(o, s, Read(id, read)).purchases[id]
    ensures var p := s.purchases[id];
            var attempt := Attempt(o, p.quantity, p.phase.attempt, read, between.soldCount);
            if Enabled(between, Update(id)) then Apply(o, between, Update(id)).purchases[id].phase == attempt
            else between.purchases[id].phase == attempt
  {
  }

  /** A purchase that reads the true count and is not interfered with reserves at its first attempt
      exactly when enough is left, and is told so otherwise. */
  lemma SoloReserves(o: Offer, s: Sale, id: nat)
    requires Enabled(s, Read(id, Some(s.soldCount)))
    ensures var r := Apply(o, s, Read(id, Some(s.soldCount)));
            if RoomFor(o, s.soldCount, s.purchases[id].quantity)
            then Enabled(r, Update(id)) && Apply(o, r, Update(id)).purchases[id].phase == Reserved
                 && Apply(o, r, Update(id)).soldCount == s.soldCount + s.purchases[id].quantity
            else r.purchases[id].phase == Failed(OutOfStock)
  {
  }

  // ---------- a purchase left alone ----------

  /** The event of the offer is on sale at a moment. */
  predicate OnSale(o: Offer, now: int) {
    && o.event.Some? && !o.event.value.deleted && o.event.value.isActive
    && o.event.value.startsAt <= now && now <= o.event.value.endsAt
    && o.isActive
  }

  /** What is left covers the quantity. */
  predicate InStock(o: Offer, sold: nat, quantity: nat) {
    o.stockUnlimited || (o.stockCount.Some? && sold + quantity <= o.stockCount.value)
  }

  /** A free offer is within its limit, if it has one; any other has a price that the balance covers. */
  predicate Affordable(o: Offer, quantity: nat, claims: nat, balance: real) {
    if o.isFree then o.claimLimitPerUser == 0 || claims + quantity <= o.claimLimitPerUser
    else o.price.Some? && o.price.value > 0.0 && balance >= o.price.value * (quantity as real)
  }

  /** A whole purchase by true readings, nothing in between. */
  function Alone(s: Sale, userId: nat, quantity: nat, now: int, claims: nat): seq<Step>
    requires userId in s.balances
  {
    [Begin(userId, quantity, now, s.soldCount, claims, Some(s.balances[userId]))]
    + [Read(|s.purchases|, Some(s.soldCount)), Update(|s.purchases|), Commit(|s.purchases|)]
  }

  /** A purchase left alone goes through if and only if the offer is on sale, enough is in stock, the last unit
      included, and it is affordable. It then sells the quantity, gives its user a row at the price for each
      unit, and takes the price of all of them from the balance. */
  lemma AloneIff(o: Offer, s: Sale, userId: nat, quantity: nat, now: int, claims: nat)
    requires quantity >= 1 && userId in s.balances
    ensures CanRun(o, s, Alone(s, userId, quantity, now, claims)) <==>
              OnSale(o, now) && InStock(o, s.soldCount, quantity) && Affordable(o, quantity, claims, s.balances[userId])
    ensures CanRun(o, s, Alone(s, userId, quantity, now, claims)) ==>
              var t := After(o, s, Alone(s, userId, quantity, now, claims));
              var price := if o.isFree then 0.0 else o.price.value;
              && t.soldCount == s.soldCount + quantity
              && t.rows == s.rows + Copies(quantity, Row(userId, price))
              && t.items == s.items + Copies(quantity, userId)
              && t.balances == s.balances[userId := s.balances[userId] - price * (quantity as real)]
  {
    hide CanRun, After, TotalPrice, Checked;
    var run, id := Alone(s, userId, quantity, now, claims), |s.purchases|;
    var rest := [Read(id, Some(s.soldCount)), Update(id), Commit(id)];
    var s1 := Apply(o, s, run[0]);
    FirstStep(o, s, run[0], rest);
    AcceptedIff(o, now, quantity, s.soldCount, claims, s.balances[userId]);
    if s1.purchases[id].phase == Trying(0) && RoomFor(o, s.soldCount, quantity) {
      UndisturbedCommits(o, s1, id);
      assert rest == Undisturbed(id, s1.soldCount);
      TotalIsUnits(o, quantity);
    } else {
      RefusedStops(o, s1, id, rest);
    }
  }

  lemma FirstStep(o: Offer, s: Sale, st: Step, rest: seq<Step>)
    ensures CanRun(o, s, [st] + rest) <==> Enabled(s, st) && CanRun(o, Apply(o, s, st), rest)
    ensures CanRun(o, s, [st] + rest) ==> After(o, s, [st] + rest) == After(o, Apply(o, s, st), rest)
  {
    assert ([st] + rest)[1..] == rest;
  }

  /** What the checks at the beginning accept. */
  lemma AcceptedIff(o: Offer, now: int, quantity: nat, sold: nat, claims: nat, balance: real)
    requires quantity >= 1
    ensures var p := Checked(o, now, quantity, sold, claims, Some(balance));
            && (p == Trying(0) && RoomFor(o, sold, quantity) <==>
                  OnSale(o, now) && InStock(o, sold, quantity) && Affordable(o, quantity, claims, balance))
            && (p == Trying(0) || p.Failed?)
  {
  }

  /** A purchase that is not accepted, or finds too little left, does not reach its update. */
  lemma RefusedStops(o: Offer, s: Sale, id: nat, rest: seq<Step>)
    requires id < |s.purchases| && rest == [Read(id, Some(s.soldCount)), Update(id), Commit(id)]
    requires s.purchases[id].phase.Failed? ||
             (s.purchases[id].phase.Trying? && !RoomFor(o, s.soldCount, s.purchases[id].quantity))
    ensures !CanRun(o, s, rest)
  {
    if s.purchases[id].phase.Trying? {
      var s1 := Apply(o, s, rest[0]);
      assert rest[1..][0] == Update(id) && !Enabled(s1, Update(id));
    }
  }

  // ---------- open purchases ----------

  predicate Open(p: Purchase) {
    !p.phase.Committed? && !p.phase.Failed?
  }

  /** What an open purchase still stands for; without `reserved`, only if it has no reservation yet. */
  function Weight(p: Purchase, userId: nat, reserved: bool): nat {
    if p.userId == userId && Open(p) && (reserved || !p.phase.Reserved?) then p.quantity else 0
  }

  /** The quantities of a user's open purchases. */
  function OpenQuantity(purchases: seq<Purchase>, userId: nat, reserved: bool): nat {
    if purchases == [] then 0
    else
      var last := purchases[|purchases| - 1];
      OpenQuantity(purchases[..|purchases| - 1], userId, reserved) + Weight(last, userId, reserved)
  }

  /** All of them, and those without a reservation. */
  function OpenOf(s: Sale, userId: nat): nat {
    OpenQuantity(s.purchases, userId, true)
  }

  function Wanted(s: Sale, userId: nat): nat {
    OpenQuantity(s.purchases, userId, false)
  }

  lemma {:induction false} OpenChange(purchases: seq<Purchase>, id: nat, p: Purchase, userId: nat, reserved: bool)
    requires id < |purchases|
    ensures OpenQuantity(purchases[id := p], userId, reserved) ==
              OpenQuantity(purchases, userId, reserved) - Weight(purchases[id], userId, reserved)
                + Weight(p, userId, reserved)
  {
    var rest := purchases[..|purchases| - 1];
    if id == |purchases| - 1 {
      assert purchases[id := p][..|purchases| - 1] == rest;
    } else {
      OpenChange(rest, id, p, userId, reserved);
      assert purchases[id := p][..|purchases| - 1] == rest[id := p];
    }
  }

  lemma OpenMore(purchases: seq<Purchase>, p: Purchase, userId: nat, reserved: bool)
    ensures OpenQuantity(purchases + [p], userId, reserved) == OpenQuantity(purchases, userId, reserved)
            + Weight(p, userId, reserved)
  {
    assert (purchases + [p])[..|purchases|] == purchases;
  }

  lemma {:induction false} NoneOpenIsZero(purchases: seq<Purchase>, userId: nat, reserved: bool)
    requires forall i :: 0 <= i < |purchases| ==> !(purchases[i].userId == userId && Open(purchases[i]))
    ensures OpenQuantity(purchases, userId, reserved) == 0
  {
    if purchases == [] {
    } else {
      NoneOpenIsZero(purchases[..|purchases| - 1], userId, reserved);
    }
  }

  /** How many a user has been given. */
  function RowsOf(rows: seq<Row>, userId: nat): nat {
    if rows == [] then 0
    else RowsOf(rows[..|rows| - 1], userId) + (if rows[|rows| - 1].userId == userId then 1 else 0)
  }

  lemma {:induction false} RowsOfMore(rows: seq<Row>, quantity: nat, row: Row, userId: nat)
    ensures RowsOf(rows + Copies(quantity, row), userId) == RowsOf(rows, userId)
            + (if row.userId == userId then quantity else 0)
  {
    hide Copies;
    var all := rows + Copies(quantity, row);
    if quantity == 0 {
      assert all == rows;
    } else {
      RowsOfMore(rows, quantity - 1, row, userId);
      assert all[..|all| - 1] == rows + Copies(quantity - 1, row);
    }
  }

  /** A purchase that begins and passes its checks. */
  predicate Accepted(o: Offer, st: Step) {
    st.Begin? && Checked(o, st.now, st.quantity, st.sold, st.claims, st.balance).Trying?
  }

  /** What a step adds to a user's open purchases. */
  function Begun(o: Offer, st: Step, userId: nat): nat {
    if Accepted(o, st) && st.userId == userId then st.quantity else 0
  }

  function Price(o: Offer, quantity: int): real {
    UnitPrice(o) * (quantity as real)
  }

  /** Rows and open purchases of a user together grow by what begins and by nothing else, and shrink only
      when an open purchase fails; and for every row the user is charged the price of one. */
  lemma StepAddsUp(o: Offer, s: Sale, st: Step, userId: nat)
    requires Enabled(s, st)
    ensures var t := Apply(o, s, st);
            var before, after := RowsOf(s.rows, userId) + OpenOf(s, userId), RowsOf(t.rows, userId) + OpenOf(t, userId);
            var given := RowsOf(t.rows, userId) - RowsOf(s.rows, userId);
            && given >= 0
            && after <= before + Begun(o, st, userId)
            && (st.Begin? || st.Commit? ==> after == before + Begun(o, st, userId))
            && (userId in s.balances ==>
                 userId in t.balances && t.balances[userId] == s.balances[userId] - Price(o, given))
  {
    hide RowsOf, OpenQuantity, Copies, Checked, UnitPrice, TotalPrice;
    var t := Apply(o, s, st);
    match st
    case Begin(u, quantity, now, sold, claims, balance) =>
      var phase := Checked(o, now, quantity, sold, claims, balance);
      CheckedStarts(o, now, quantity, sold, claims, balance);
      OpenMore(s.purchases, Purchase(u, quantity, phase), userId, true);
    case Commit(id) =>
      CommitAddsUp(o, s, id, userId);
    case _ =>
      OpenChange(s.purchases, st.id, t.purchases[st.id], userId, true);
  }

  lemma PriceIsTotal(o: Offer, quantity: nat)
    ensures Price(o, quantity) == TotalPrice(o, quantity) && Price(o, 0) == 0.0
  {
  }

  lemma CommitAddsUp(o: Offer, s: Sale, id: nat, userId: nat)
    requires Enabled(s, Commit(id))
    ensures var t := Apply(o, s, Commit(id));
            var given := if s.purchases[id].userId == userId then s.purchases[id].quantity else 0;
            && RowsOf(t.rows, userId) == RowsOf(s.rows, userId) + given
            && OpenOf(t, userId) == OpenOf(s, userId) - given
            && (userId in s.balances ==>
                userId in t.balances && t.balances[userId] == s.balances[userId] - Price(o, given))
  {
    hide RowsOf, OpenQuantity, Copies, UnitPrice, TotalPrice, Price;
    var p, t := s.purchases[id], Apply(o, s, Commit(id));
    OpenChange(s.purchases, id, t.purchases[id], userId, true);
    RowsOfMore(s.rows, p.quantity, Row(p.userId, UnitPrice(o)), userId);
    PriceIsTotal(o, p.quantity);
  }

  /** Prices of open purchases are not negative: only such prices pass the checks. */
  ghost predicate Priced(o: Offer, s: Sale) {
    forall i :: 0 <= i < |s.purchases| && Open(s.purchases[i]) ==> UnitPrice(o) >= 0.0
  }

  lemma StaysPriced(o: Offer, s: Sale, st: Step)
    requires Enabled(s, st) && Priced(o, s)
    ensures Priced(o, Apply(o, s, st))
    ensures Accepted(o, st) ==> UnitPrice(o) >= 0.0
  {
    hide TotalPrice;
  }

  lemma PricedOrNone(o: Offer, s: Sale, userId: nat)
    requires Priced(o, s)
    ensures UnitPrice(o) >= 0.0 || OpenOf(s, userId) == 0
  {
    if UnitPrice(o) < 0.0 {
      NoneOpenIsZero(s.purchases, userId, true);
    }
  }

  // ---------- what can still happen to a user's balance and claims ----------

  /** The user begins nothing more. */
  predicate BeginsNothing(run: seq<Step>, userId: nat) {
    forall i :: 0 <= i < |run| && run[i].Begin? ==> run[i].userId != userId
  }

  /** However a run goes on, the user gets no more than its open purchases, and is charged for what it gets. */
  lemma {:induction false} RunAddsUp(o: Offer, s: Sale, run: seq<Step>, userId: nat)
    requires CanRun(o, s, run) && BeginsNothing(run, userId) && userId in s.balances
    ensures var t := After(o, s, run);
            && RowsOf(s.rows, userId) <= RowsOf(t.rows, userId)
            && RowsOf(t.rows, userId) + OpenOf(t, userId) <= RowsOf(s.rows, userId) + OpenOf(s, userId)
            && userId in t.balances
            && t.balances[userId] == s.balances[userId] - Price(o, RowsOf(t.rows, userId) - RowsOf(s.rows, userId))
    decreases |run|
  {
    hide RowsOf, OpenOf, Apply, Enabled, Price;
    if run == [] {
      PriceIsTotal(o, 0);
    } else {
      var t := Apply(o, s, run[0]);
      StepAddsUp(o, s, run[0], userId);
      RunAddsUp(o, t, run[1..], userId);
      var end := After(o, t, run[1..]);
      PricesAdd(o, RowsOf(t.rows, userId) - RowsOf(s.rows, userId), RowsOf(end.rows, userId) - RowsOf(t.rows, userId));
    }
  }

  lemma PricesAdd(o: Offer, a: nat, b: nat)
    ensures Price(o, a) + Price(o, b) == Price(o, a + b)
  {
    assert (a + b) as real == (a as real) + (b as real);
  }

  /** The purchase has a read left: it is not about to make its last update on a count it read before. */
  predicate HasRead(p: Purchase) {
    match p.phase
    case Trying(attempt) => attempt < MAX_ATTEMPTS
    case Seen(attempt, _) => attempt + 1 < MAX_ATTEMPTS
    case _ => true
  }

  predicate StockFor(o: Offer, sold: nat, quantity: nat) {
    o.stockUnlimited || (o.stockCount.Some? && sold + quantity <= o.stockCount.value)
  }

  /** Each of the user's open purchases has a read left, and there is stock for all of them. */
  ghost predicate Able(o: Offer, s: Sale, userId: nat) {
    && userId in s.balances
    && (forall i :: 0 <= i < |s.purchases| && s.purchases[i].userId == userId && Open(s.purchases[i]) ==>
        HasRead(s.purchases[i]))
    && StockFor(o, s.soldCount, Wanted(s, userId))
  }

  lemma StepFirst(o: Offer, s: Sale, st: Step, run: seq<Step>)
    requires Enabled(s, st) && CanRun(o, Apply(o, s, st), run)
    ensures CanRun(o, s, [st] + run) && After(o, s, [st] + run) == After(o, Apply(o, s, st), run)
  {
    assert ([st] + run)[1..] == run;
  }

  lemma {:induction false} RunsConcatenate(o: Offer, s: Sale, run: seq<Step>, rest: seq<Step>)
    requires CanRun(o, s, run) && CanRun(o, After(o, s, run), rest)
    ensures CanRun(o, s, run + rest) && After(o, s, run + rest) == After(o, After(o, s, run), rest)
    decreases |run|
  {
    if run == [] {
      assert run + rest == rest;
    } else {
      assert (run + rest)[1..] == run[1..] + rest;
      RunsConcatenate(o, Apply(o, s, run[0]), run[1..], rest);
    }
  }

  /** The sale in which one open purchase has been committed. */
  function Completed(o: Offer, s: Sale, id: nat): Sale
    requires id < |s.purchases| && s.purchases[id].userId in s.balances
  {
    var p := s.purchases[id];
    Sale(s.soldCount + (if p.phase.Reserved? then 0 else p.quantity), s.purchases[id := p.(phase := Committed)],
         s.rows + Copies(p.quantity, Row(p.userId, UnitPrice(o))), s.items + Copies(p.quantity, p.userId),
         s.balances[p.userId := s.balances[p.userId] - TotalPrice(o, p.quantity)])
  }

  /** Left alone, an open purchase with a read and stock left commits. */
  lemma {:induction false} CanComplete(o: Offer, s: Sale, id: nat) returns (run: seq<Step>)
    requires id < |s.purchases| && Open(s.purchases[id]) && s.purchases[id].userId in s.balances
    requires HasRead(s.purchases[id]) || (s.purchases[id].phase.Seen? && s.purchases[id].phase.sold == s.soldCount)
    requires s.purchases[id].phase.Reserved? || StockFor(o, s.soldCount, s.purchases[id].quantity)
    ensures CanRun(o, s, run) && After(o, s, run) == Completed(o, s, id)
    ensures forall i :: 0 <= i < |run| ==> !run[i].Begin?
    decreases match s.purchases[id].phase
              case Trying(_) => 2
              case Seen(_, sold) => if sold == s.soldCount then 1 else 3
              case _ => 0
  {
    hide Copies, TotalPrice, UnitPrice;
    var p := s.purchases[id];
    if p.phase.Reserved? {
      run := [Commit(id)];
      assert run[1..] == [];
    } else {
      var st := if p.phase.Trying? then Read(id, Some(s.soldCount)) else Update(id);
      var t := Apply(o, s, st);
      assert t.purchases[id].phase != p.phase;
      var rest := CanComplete(o, t, id);
      StepFirst(o, s, st, rest);
      assert s.purchases[id := t.purchases[id]][id := p.(phase := Committed)]
             == s.purchases[id := p.(phase := Committed)];
      run := [st] + rest;
    }
  }

  /** All open purchases of a user can be committed, one after the other. */
  lemma {:induction false} CanCompleteAll(o: Offer, s: Sale, userId: nat, n: nat) returns (run: seq<Step>)
    requires Able(o, s, userId) && n <= |s.purchases|
    requires forall i :: 0 <= i < n ==> !(s.purchases[i].userId == userId && Open(s.purchases[i]))
    ensures CanRun(o, s, run) && BeginsNothing(run, userId)
    ensures RowsOf(After(o, s, run).rows, userId) == RowsOf(s.rows, userId) + OpenOf(s, userId)
    decreases |s.purchases| - n
  {
    hide RowsOf, OpenQuantity, Copies, TotalPrice, UnitPrice;
    if n == |s.purchases| {
      NoneOpenIsZero(s.purchases, userId, true);
      run := [];
    } else if !(s.purchases[n].userId == userId && Open(s.purchases[n])) {
      run := CanCompleteAll(o, s, userId, n + 1);
    } else {
      var p := s.purchases[n];
      OpenChange(s.purchases, n, p.(phase := Committed), userId, false);
      OpenChange(s.purchases, n, p.(phase := Committed), userId, true);
      RowsOfMore(s.rows, p.quantity, Row(userId, UnitPrice(o)), userId);
      var first := CanComplete(o, s, n);
      var t := Completed(o, s, n);
      var rest := CanCompleteAll(o, t, userId, n + 1);
      RunsConcatenate(o, s, first, rest);
      run := first + rest;
    }
  }

  /** Some continuation in which the user begins nothing more takes its balance below zero. */
  ghost predicate CanOverdraw(o: Offer, s: Sale, userId: nat) {
    exists run :: Overdraws(o, s, run, userId)
  }

  ghost predicate Overdraws(o: Offer, s: Sale, run: seq<Step>, userId: nat) {
    && CanRun(o, s, run) && BeginsNothing(run, userId)
    && userId in After(o, s, run).balances && After(o, s, run).balances[userId] < 0.0
  }

  /** A user can be overdrawn exactly when its balance does not cover all its open purchases. */
  lemma OverdrawIff(o: Offer, s: Sale, userId: nat)
    requires Able(o, s, userId) && Priced(o, s)
    ensures CanOverdraw(o, s, userId) <==> s.balances[userId] < Price(o, OpenOf(s, userId))
  {
    hide Able, OpenOf, RowsOf, UnitPrice, BeginsNothing, Price;
    PricedOrNone(o, s, userId);
    assert userId in s.balances by {
      AbleIsKnown(o, s, userId);
    }
    if CanOverdraw(o, s, userId) {
      var run :| Overdraws(o, s, run, userId);
      RunAddsUp(o, s, run, userId);
      PriceAtMost(o, RowsOf(After(o, s, run).rows, userId) - RowsOf(s.rows, userId), OpenOf(s, userId));
    }
    var run := CanCompleteAll(o, s, userId, 0);
    RunAddsUp(o, s, run, userId);
    assert RowsOf(After(o, s, run).rows, userId) - RowsOf(s.rows, userId) == OpenOf(s, userId);
    assert s.balances[userId] < Price(o, OpenOf(s, userId)) ==> Overdraws(o, s, run, userId);
  }

  lemma AbleIsKnown(o: Offer, s: Sale, userId: nat)
    requires Able(o, s, userId)
    ensures userId in s.balances
  {
  }

  lemma PriceAtMost(o: Offer, given: nat, most: nat)
    requires given <= most && (UnitPrice(o) >= 0.0 || most == 0)
    ensures Price(o, given) <= Price(o, most)
  {
    hide UnitPrice;
    PricesAdd(o, given, most - given);
    assert Price(o, most - given) >= 0.0;
  }

  /** Some such continuation gives the user more than the limit of the offer. */
  ghost predicate CanExceed(o: Offer, s: Sale, userId: nat) {
    exists run :: Exceeds(o, s, run, userId)
  }

  ghost predicate Exceeds(o: Offer, s: Sale, run: seq<Step>, userId: nat) {
    CanRun(o, s, run) && BeginsNothing(run, userId) && RowsOf(After(o, s, run).rows, userId) > o.claimLimitPerUser
  }

  /** A user can get more than the limit exactly when what it has and its open purchases do. */
  lemma ExceedIff(o: Offer, s: Sale, userId: nat)
    requires Able(o, s, userId)
    ensures CanExceed(o, s, userId) <==> RowsOf(s.rows, userId) + OpenOf(s, userId) > o.claimLimitPerUser
  {
    hide Able, OpenOf, RowsOf, UnitPrice, BeginsNothing;
    AbleIsKnown(o, s, userId);
    if CanExceed(o, s, userId) {
      var run :| Exceeds(o, s, run, userId);
      RunAddsUp(o, s, run, userId);
    }
    var run := CanCompleteAll(o, s, userId, 0);
    assert RowsOf(s.rows, userId) + OpenOf(s, userId) > o.claimLimitPerUser ==> Exceeds(o, s, run, userId);
  }

  /** Known before a purchase begins: letting it begin makes its user overdrawable, or able to exceed the
      limit, exactly when the balance does not cover it on top of what is open, or the limit does not allow it
      on top of what is given and open. */
  lemma BeginIff(o: Offer, s: Sale, st: Step)
    requires Enabled(s, st) && Accepted(o, st) && Able(o, s, st.userId) && Priced(o, s)
    requires StockFor(o, s.soldCount, Wanted(s, st.userId) + st.quantity)
    ensures CanOverdraw(o, Apply(o, s, st), st.userId) <==>
              s.balances[st.userId] < Price(o, OpenOf(s, st.userId) + st.quantity)
    ensures CanExceed(o, Apply(o, s, st), st.userId) <==>
              RowsOf(s.rows, st.userId) + OpenOf(s, st.userId) + st.quantity > o.claimLimitPerUser
  {
    hide RowsOf, OpenQuantity, UnitPrice, CanOverdraw, CanExceed, Price;
    var t := Apply(o, s, st);
    CheckedStarts(o, st.now, st.quantity, st.sold, st.claims, st.balance);
    OpenMore(s.purchases, Purchase(st.userId, st.quantity, Trying(0)), st.userId, true);
    OpenMore(s.purchases, Purchase(st.userId, st.quantity, Trying(0)), st.userId, false);
    StaysPriced(o, s, st);
    OverdrawIff(o, t, st.userId);
    ExceedIff(o, t, st.userId);
  }

  // ---------- runs that stay solvent ----------

  /** Every balance covers its user's open purchases. */
  ghost predicate Covered(o: Offer, s: Sale) {
    forall u :: u in s.balances ==> s.balances[u] >= Price(o, OpenOf(s, u))
  }

  /** A purchase begins only when the balance covers it on top of what is open. */
  predicate BeginCovered(o: Offer, s: Sale, st: Step) {
    Accepted(o, st) && st.userId in s.balances ==> s.balances[st.userId] >= Price(o, OpenOf(s, st.userId) + st.quantity)
  }

  /** A step keeps all balances covered exactly when it is not the beginning of an uncovered purchase. */
  lemma StepStaysCoveredIff(o: Offer, s: Sale, st: Step)
    requires Enabled(s, st) && Covered(o, s) && Priced(o, s)
    ensures Priced(o, Apply(o, s, st))
    ensures Covered(o, Apply(o, s, st)) <==> BeginCovered(o, s, st)
  {
    hide Apply, Enabled, OpenOf, RowsOf, UnitPrice, Checked, Price, Priced;
    var t := Apply(o, s, st);
    StaysPriced(o, s, st);
    SameUsers(o, s, st);
    forall u | u in s.balances
      ensures t.balances[u] >= Price(o, OpenOf(t, u)) <==>
              (Accepted(o, st) && st.userId == u ==> s.balances[u] >= Price(o, OpenOf(s, u) + st.quantity))
    {
      UserStaysCovered(o, s, st, u);
    }
  }

  lemma SameUsers(o: Offer, s: Sale, st: Step)
    requires Enabled(s, st)
    ensures Apply(o, s, st).balances.Keys == s.balances.Keys
  {
  }

  lemma UserStaysCovered(o: Offer, s: Sale, st: Step, u: nat)
    requires Enabled(s, st) && u in s.balances && s.balances[u] >= Price(o, OpenOf(s, u)) && Priced(o, s)
    ensures var t := Apply(o, s, st);
            u in t.balances &&
            (t.balances[u] >= Price(o, OpenOf(t, u)) <==>
              (Accepted(o, st) && st.userId == u ==> s.balances[u] >= Price(o, OpenOf(s, u) + st.quantity)))
  {
    hide Apply, Enabled, OpenOf, RowsOf, UnitPrice, Checked, Priced, Price;
    var t := Apply(o, s, st);
    StepAddsUp(o, s, st, u);
    StaysPriced(o, s, st);
    PricedOrNone(o, s, u);
    PricedOrNone(o, t, u);
    var given := RowsOf(t.rows, u) - RowsOf(s.rows, u);
    PricesAdd(o, given, OpenOf(t, u));
    if Accepted(o, st) && st.userId == u {
      assert given == 0 by {
        BeginGivesNothing(o, s, st);
      }
      PriceIsTotal(o, 0);
    } else {
      PriceAtMost(o, given + OpenOf(t, u), OpenOf(s, u));
    }
  }

  lemma BeginGivesNothing(o: Offer, s: Sale, st: Step)
    requires Enabled(s, st) && st.Begin?
    ensures Apply(o, s, st).rows == s.rows
  {
  }

  ghost predicate AllBeginsCovered(o: Offer, s: Sale, run: seq<Step>)
    requires CanRun(o, s, run)
    decreases |run|
  {
    run == [] || (BeginCovered(o, s, run[0]) && AllBeginsCovered(o, Apply(o, s, run[0]), run[1..]))
  }

  ghost predicate CoveredThroughout(o: Offer, s: Sale, run: seq<Step>)
    requires CanRun(o, s, run)
    decreases |run|
  {
    Covered(o, s) && (run == [] || CoveredThroughout(o, Apply(o, s, run[0]), run[1..]))
  }

  /** Over every run all balances cover what is open at every point exactly when every purchase was covered
      when it began. */
  lemma {:induction false} RunStaysCoveredIff(o: Offer, s: Sale, run: seq<Step>)
    requires CanRun(o, s, run) && Covered(o, s) && Priced(o, s)
    ensures CoveredThroughout(o, s, run) <==> AllBeginsCovered(o, s, run)
    decreases |run|
  {
    hide Covered, BeginCovered, Priced, Apply, Enabled;
    if run == [] {
    } else {
      StepStaysCoveredIff(o, s, run[0]);
      if BeginCovered(o, s, run[0]) {
        RunStaysCoveredIff(o, Apply(o, s, run[0]), run[1..]);
      }
    }
  }

  /** And then no balance goes below zero. */
  lemma {:induction false} RunStaysSolvent(o: Offer, s: Sale, run: seq<Step>)
    requires CanRun(o, s, run) && Covered(o, s) && Priced(o, s) && AllBeginsCovered(o, s, run)
    ensures forall u :: u in After(o, s, run).balances ==> After(o, s, run).balances[u] >= 0.0
    decreases |run|
  {
    hide Covered, BeginCovered, Priced, Apply, Enabled;
    if run == [] {
      forall u | u in s.balances ensures s.balances[u] >= 0.0 {
        CoveredIsSolvent(o, s, u);
      }
    } else {
      StepStaysCoveredIff(o, s, run[0]);
      RunStaysSolvent(o, Apply(o, s, run[0]), run[1..]);
    }
  }

  lemma CoveredIsSolvent(o: Offer, s: Sale, u: nat)
    requires Covered(o, s) && Priced(o, s) && u in s.balances
    ensures s.balances[u] >= 0.0
  {
    hide OpenOf;
    PricedOrNone(o, s, u);
    PriceIsTotal(o, 0);
    PriceAtMost(o, 0, OpenOf(s, u));
  }

  /** In particular as long as users buy one thing at a time and read their true balance. */
  lemma OneAtATimeIsCovered(o: Offer, s: Sale, st: Step)
    requires Accepted(o, st) && Covered(o, s) && Priced(o, s)
    requires forall i :: 0 <= i < |s.purchases| && s.purchases[i].userId == st.userId ==> !Open(s.purchases[i])
    requires st.userId in s.balances ==> st.balance == Some(s.balances[st.userId])
    ensures BeginCovered(o, s, st)
  {
    NoneOpenIsZero(s.purchases, st.userId, true);
    if st.userId in s.balances {
      CoveredIsSolvent(o, s, st.userId);
    }
  }

  // ---------- runs that keep the limit ----------

  /** Nobody has, or will have by its open purchases, more than the limit. */
  ghost predicate WithinLimit(o: Offer, s: Sale) {
    forall u :: RowsOf(s.rows, u) + OpenOf(s, u) <= o.claimLimitPerUser
  }

  predicate BeginWithin(o: Offer, s: Sale, st: Step) {
    Accepted(o, st) ==> RowsOf(s.rows, st.userId) + OpenOf(s, st.userId) + st.quantity <= o.claimLimitPerUser
  }

  /** A step keeps everyone within the limit exactly when it does not begin a purchase beyond it. */
  lemma StepStaysWithinIff(o: Offer, s: Sale, st: Step)
    requires Enabled(s, st) && WithinLimit(o, s)
    ensures WithinLimit(o, Apply(o, s, st)) <==> BeginWithin(o, s, st)
  {
    hide Apply, Enabled, OpenOf, RowsOf, Checked, UnitPrice;
    var t := Apply(o, s, st);
    forall u
      ensures RowsOf(t.rows, u) + OpenOf(t, u) <= RowsOf(s.rows, u) + OpenOf(s, u) + Begun(o, st, u)
      ensures st.Begin? ==> RowsOf(t.rows, u) + OpenOf(t, u) == RowsOf(s.rows, u) + OpenOf(s, u) + Begun(o, st, u)
    {
      StepAddsUp(o, s, st, u);
    }
    if Accepted(o, st) && WithinLimit(o, t) {
      assert RowsOf(t.rows, st.userId) + OpenOf(t, st.userId) <= o.claimLimitPerUser;
    }
  }

  ghost predicate AllBeginsWithin(o: Offer, s: Sale, run: seq<Step>)
    requires CanRun(o, s, run)
    decreases |run|
  {
    run == [] || (BeginWithin(o, s, run[0]) && AllBeginsWithin(o, Apply(o, s, run[0]), run[1..]))
  }

  ghost predicate WithinThroughout(o: Offer, s: Sale, run: seq<Step>)
    requires CanRun(o, s, run)
    decreases |run|
  {
    WithinLimit(o, s) && (run == [] || WithinThroughout(o, Apply(o, s, run[0]), run[1..]))
  }

  /** Over every run everyone stays within the limit, open purchases included, exactly when every purchase
      was within it when it began. */
  lemma {:induction false} RunStaysWithinIff(o: Offer, s: Sale, run: seq<Step>)
    requires CanRun(o, s, run) && WithinLimit(o, s)
    ensures WithinThroughout(o, s, run) <==> AllBeginsWithin(o, s, run)
    decreases |run|
  {
    hide WithinLimit, BeginWithin, Apply, Enabled;
    if run == [] {
    } else {
      StepStaysWithinIff(o, s, run[0]);
      if BeginWithin(o, s, run[0]) {
        RunStaysWithinIff(o, Apply(o, s, run[0]), run[1..]);
      }
    }
  }

  /** In particular as long as users claim a free offer one at a time and count what they have. */
  lemma OneClaimAtATimeIsWithin(o: Offer, s: Sale, st: Step)
    requires o.isFree && o.claimLimitPerUser > 0 && Accepted(o, st)
    requires forall i :: 0 <= i < |s.purchases| && s.purchases[i].userId == st.userId ==> !Open(s.purchases[i])
    requires st.claims == RowsOf(s.rows, st.userId)
    ensures BeginWithin(o, s, st)
  {
    NoneOpenIsZero(s.purchases, st.userId, true);
  }

  /** A sale as it opens: from balances that are not negative, all is covered, priced and within the limit. */
  lemma OpenedIsCovered(o: Offer, sold: nat, balances: map<nat, real>)
    requires forall u :: u in balances ==> balances[u] >= 0.0
    ensures Covered(o, Opened(sold, balances)) && Priced(o, Opened(sold, balances)) &&
            WithinLimit(o, Opened(sold, balances))
  {
  }

  // ---------- where it goes wrong ----------

  /** A true read, the update and the commit of one purchase. */
  function Undisturbed(id: nat, sold: nat): seq<Step> {
    [Read(id, Some(sold)), Update(id), Commit(id)]
  }

  lemma UndisturbedCommits(o: Offer, s: Sale, id: nat)
    requires id < |s.purchases| && s.purchases[id].phase == Trying(0) && s.purchases[id].userId in s.balances
    requires RoomFor(o, s.soldCount, s.purchases[id].quantity)
    ensures CanRun(o, s, Undisturbed(id, s.soldCount)) &&
            After(o, s, Undisturbed(id, s.soldCount)) == Completed(o, s, id)
  {
    hide Copies, TotalPrice, UnitPrice, CanRun, After;
    var run := Undisturbed(id, s.soldCount);
    var s1 := Apply(o, s, run[0]);
    var s2 := Apply(o, s1, run[1]);
    var s3 := Apply(o, s2, run[2]);
    assert s.purchases[id := s1.purchases[id]][id := s2.purchases[id]][id := s3.purchases[id]]
           == s.purchases[id := s3.purchases[id]];
    FollowedRun(o, run, [s, s1, s2, s3]);
  }

  /** Two purchases of one user, both begun before either commits. */
  function TwoAtOnce(userId: nat, now: int, balance: real): seq<Step> {
    var begin := Begin(userId, 1, now, 0, 0, Some(balance));
    [begin, begin] + Undisturbed(0, 0) + Undisturbed(1, 1)
  }

  lemma TwoAtOnceCommits(o: Offer, userId: nat, now: int, balance: real)
    requires Checked(o, now, 1, 0, 0, Some(balance)) == Trying(0) && RoomFor(o, 0, 1) && RoomFor(o, 1, 1)
    ensures var run, s := TwoAtOnce(userId, now, balance), Opened(0, map[userId := balance]);
            && CanRun(o, s, run)
            && After(o, s, run).rows == [Row(userId, UnitPrice(o)), Row(userId, UnitPrice(o))]
            && After(o, s, run).balances == map[userId := balance - UnitPrice(o) - UnitPrice(o)]
  {
    hide Checked, UnitPrice, CanRun, After, Copies, TotalPrice, RoomFor, Undisturbed;
    TotalIsUnits(o, 1);
    CopiesOfOne(userId);
    CopiesOfOne(Row(userId, UnitPrice(o)));
    var begin := Begin(userId, 1, now, 0, 0, Some(balance));
    var s0 := Opened(0, map[userId := balance]);
    var s1 := Apply(o, s0, begin);
    var s2 := Apply(o, s1, begin);
    FollowedRun(o, [begin, begin], [s0, s1, s2]);
    UndisturbedCommits(o, s2, 0);
    var s3 := Completed(o, s2, 0);
    UndisturbedCommits(o, s3, 1);
    RunsConcatenate(o, s0, [begin, begin], Undisturbed(0, 0));
    RunsConcatenate(o, s0, [begin, begin] + Undisturbed(0, 0), Undisturbed(1, 1));
  }

  lemma CopiesOfOne<T>(x: T)
    ensures Copies(1, x) == [x]
  {
  }

  lemma {:induction false} FollowedRun(o: Offer, run: seq<Step>, states: seq<Sale>)
    requires |states| == |run| + 1 && forall i :: 0 <= i < |run| ==> Enabled(states[i], run[i])
    requires forall i :: 0 <= i < |run| ==> Apply(o, states[i], run[i]) == states[i + 1]
    ensures CanRun(o, states[0], run) && After(o, states[0], run) == states[|run|]
    decreases |run|
  {
    hide Enabled, Apply;
    if run == [] {
    } else {
      forall i | 0 <= i < |run[1..]|
        ensures Enabled(states[1..][i], run[1..][i]) && Apply(o, states[1..][i], run[1..][i]) == states[1..][i + 1]
      {
        assert Enabled(states[i + 1], run[i + 1]) && Apply(o, states[i + 1], run[i + 1]) == states[i + 2];
      }
      assert Enabled(states[0], run[0]) && Apply(o, states[0], run[0]) == states[1];
      FollowedRun(o, run[1..], states[1..]);
    }
  }

  const OPEN_EVENT := Event(0, 10, true, false)

  /** A user with 10.0 buys twice at 6.0: both purchases read the full balance, and it ends at -2.0. */
  lemma OverdrawingRun()
    ensures var o := Offer(Some(OPEN_EVENT), true, true, None, false, Some(6.0), 0);
            var run, s := TwoAtOnce(7, 5, 10.0), Opened(0, map[7 := 10.0]);
            CanRun(o, s, run) && After(o, s, run).balances == map[7 := -2.0]
  {
    hide CanRun, After;
    TwoAtOnceCommits(Offer(Some(OPEN_EVENT), true, true, None, false, Some(6.0), 0), 7, 5, 10.0);
  }

  /** A user claims twice a free offer limited to one: both claims count none before them, and it gets two. */
  lemma LimitExceedingRun()
    ensures var o := Offer(Some(OPEN_EVENT), true, true, None, true, None, 1);
            var run, s := TwoAtOnce(7, 5, 0.0), Opened(0, map[7 := 0.0]);
            CanRun(o, s, run) && RowsOf(After(o, s, run).rows, 7) == 2 > o.claimLimitPerUser
  {
    hide CanRun, After;
    TwoAtOnceCommits(Offer(Some(OPEN_EVENT), true, true, None, true, None, 1), 7, 5, 0.0);
    var row := Row(7, 0.0);
    assert [row, row][..1] == [row] && [row][..0] == [];
    assert RowsOf([row], 7) == 1 && RowsOf([row, row], 7) == 2;
  }

  // ---------- the window of an event ----------

  /** Nothing is sold or reserved in a run none of whose purchases begins inside the event's window. */
  lemma {:induction false} NothingOutsideWindow(o: Offer, s: Sale, run: seq<Step>)
    requires CanRun(o, s, run) && forall i :: 0 <= i < |s.purchases| ==> s.purchases[i].phase.Failed?
    requires forall i :: 0 <= i < |run| && run[i].Begin? ==> !LiveAt(o.event, run[i].now)
    ensures After(o, s, run).rows == s.rows && After(o, s, run).soldCount == s.soldCount &&
            After(o, s, run).balances == s.balances
    decreases |run|
  {
    if run == [] {
    } else {
      NothingOutsideWindow(o, Apply(o, s, run[0]), run[1..]);
    }
  }
}
