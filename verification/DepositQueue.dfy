/** The queue of pending deposits and the passes over it (runDepositVerifier in
    server/services/depositVerifier.js): every deposit is settled in bounded time. */
module DepositQueue {
  import opened DepositBooks

  const PAGE := 50

  /** A pending row as the passes see it. */
  datatype Waiting = Waiting(id: RowId, attempts: nat)

  /** One pass: what the chain answers for each row, and the rows that arrive before the next pass. */
  datatype Round = Round(answers: RowId -> Answer, arrivals: seq<Waiting>)

  /** What one pass makes of the rows it lists, in order of creation: each is settled or waits on with
      one attempt more. */
  function Visited(page: seq<Waiting>, answers: RowId -> Answer): seq<Waiting> {
    if page == [] then []
    else
      var w := page[0];
      (if Judge(w.attempts + 1, answers(w.id)).Retry? then [Waiting(w.id, w.attempts + 1)] else [])
        + Visited(page[1..], answers)
  }

  function PageLength(queue: seq<Waiting>): nat {
    if |queue| < PAGE then |queue| else PAGE
  }

  /** A pass lists only the oldest rows. */
  function Listed(queue: seq<Waiting>, answers: RowId -> Answer): seq<Waiting> {
    Visited(queue[..PageLength(queue)], answers) + queue[PageLength(queue)..]
  }

  ghost function Passes(queue: seq<Waiting>, rounds: seq<Round>): seq<Waiting>
    decreases |rounds|
  {
    if rounds == [] then queue else Passes(Listed(queue, rounds[0].answers) + rounds[0].arrivals, rounds[1..])
  }

  lemma {:induction false} VisitedConcat(a: seq<Waiting>, b: seq<Waiting>, answers: RowId -> Answer)
    ensures Visited(a + b, answers) == Visited(a, answers) + Visited(b, answers)
  {
    if a == [] {
      assert a + b == b;
    } else {
      assert (a + b)[1..] == a[1..] + b;
      VisitedConcat(a[1..], b, answers);
    }
  }

  lemma {:induction false} VisitedFacts(page: seq<Waiting>, answers: RowId -> Answer, least: nat)
    requires forall i :: 0 <= i < |page| ==> page[i].attempts >= least
    ensures var v := Visited(page, answers);
            && |v| <= |page| && (v != [] ==> least < MAX_ATTEMPTS)
            && (forall j :: 0 <= j < |v| ==> least + 1 <= v[j].attempts <= MAX_ATTEMPTS)
            && (forall j :: 0 <= j < |v| ==> InQueue(page, v[j].id))
  {
    if page == [] {
    } else {
      VisitedFacts(page[1..], answers, least);
      forall id | InQueue(page[1..], id) ensures InQueue(page, id) {
        var i :| 0 <= i < |page[1..]| && page[1..][i].id == id;
        assert page[i + 1].id == id;
      }
      assert InQueue(page, page[0].id);
    }
  }

  predicate InQueue(queue: seq<Waiting>, id: RowId) {
    exists i :: 0 <= i < |queue| && queue[i].id == id
  }

  lemma {:induction false} VisitedIds(page: seq<Waiting>, answers: RowId -> Answer, id: RowId)
    ensures InQueue(Visited(page, answers), id) ==> InQueue(page, id)
  {
    VisitedFacts(page, answers, 0);
  }

  lemma InConcat(a: seq<Waiting>, b: seq<Waiting>, id: RowId)
    ensures InQueue(a + b, id) <==> InQueue(a, id) || InQueue(b, id)
  {
    if InQueue(a, id) {
      var i :| 0 <= i < |a| && a[i].id == id;
      assert (a + b)[i].id == id;
    }
    if InQueue(b, id) {
      var i :| 0 <= i < |b| && b[i].id == id;
      assert (a + b)[|a| + i].id == id;
    }
  }

  /** A pass treats the older rows the same whatever waits behind them, and what waits behind gets no
      longer and gains no rows. */
  lemma FrontIsListed(front: seq<Waiting>, back: seq<Waiting>, answers: RowId -> Answer, id: RowId)
    returns (back': seq<Waiting>)
    ensures Listed(front + back, answers) == Listed(front, answers) + back'
    ensures |back'| <= |back| && (InQueue(back', id) ==> InQueue(back, id))
  {
    hide Visited, InQueue;
    if |front| >= PAGE {
      assert (front + back)[..PAGE] == front[..PAGE] && (front + back)[PAGE..] == front[PAGE..] + back;
      assert Visited(front[..PAGE], answers) + (front[PAGE..] + back)
             == Visited(front[..PAGE], answers) + front[PAGE..] + back;
      back' := back;
    } else {
      var m := PageLength(front + back) - |front|;
      assert (front + back)[..|front| + m] == front + back[..m] && (front + back)[|front| + m..] == back[m..];
      assert front[..|front|] == front && front[|front|..] == [];
      VisitedConcat(front, back[..m], answers);
      back' := Visited(back[..m], answers) + back[m..];
      assert Listed(front, answers) + back' == Visited(front, answers) + Visited(back[..m], answers) + back[m..];
      BackIsListed(back, m, answers, id);
    }
  }

  lemma BackIsListed(back: seq<Waiting>, m: nat, answers: RowId -> Answer, id: RowId)
    requires m <= |back|
    ensures |Visited(back[..m], answers) + back[m..]| <= |back|
    ensures InQueue(Visited(back[..m], answers) + back[m..], id) ==> InQueue(back, id)
  {
    hide Visited, InQueue;
    VisitedFacts(back[..m], answers, 0);
    VisitedIds(back[..m], answers, id);
    InConcat(Visited(back[..m], answers), back[m..], id);
    InConcat(back[..m], back[m..], id);
    assert back[..m] + back[m..] == back;
  }

  /** Passes over some rows with nothing arriving behind them. */
  ghost function Drained(queue: seq<Waiting>, rounds: seq<Round>): seq<Waiting>
    decreases |rounds|
  {
    if rounds == [] then queue else Drained(Listed(queue, rounds[0].answers), rounds[1..])
  }

  lemma {:induction false} FrontIsDrained(front: seq<Waiting>, back: seq<Waiting>, rounds: seq<Round>)
    returns (back': seq<Waiting>)
    ensures Drained(front + back, rounds) == Drained(front, rounds) + back' && |back'| <= |back|
    decreases |rounds|
  {
    if rounds == [] {
      back' := back;
    } else {
      var b := FrontIsListed(front, back, rounds[0].answers, 0);
      back' := FrontIsDrained(Listed(front, rounds[0].answers), b, rounds[1..]);
    }
  }

  /** A page of rows is drained once every row of it has used up its attempts. */
  lemma {:induction false} PageDrains(page: seq<Waiting>, rounds: seq<Round>, least: nat)
    requires |page| <= PAGE && least + |rounds| >= MAX_ATTEMPTS + 1 && (page != [] ==> least <= MAX_ATTEMPTS)
    requires forall i :: 0 <= i < |page| ==> least <= page[i].attempts <= MAX_ATTEMPTS
    ensures Drained(page, rounds) == []
    decreases |rounds|
  {
    if rounds == [] {
    } else {
      assert page[..|page|] == page;
      VisitedFacts(page, rounds[0].answers, least);
      assert Listed(page, rounds[0].answers) == Visited(page, rounds[0].answers);
      PageDrains(Visited(page, rounds[0].answers), rounds[1..], least + 1);
    }
  }

  lemma {:induction false} DrainedTwice(queue: seq<Waiting>, rounds: seq<Round>, n: nat)
    requires n <= |rounds|
    ensures Drained(queue, rounds) == Drained(Drained(queue, rounds[..n]), rounds[n..])
    decreases n
  {
    if n == 0 {
    } else {
      assert rounds[..n][1..] == rounds[1..][..n - 1] && rounds[1..][n - 1..] == rounds[n..];
      DrainedTwice(Listed(queue, rounds[0].answers), rounds[1..], n - 1);
    }
  }

  predicate InTime(queue: seq<Waiting>) {
    forall i :: 0 <= i < |queue| ==> queue[i].attempts <= MAX_ATTEMPTS
  }

  lemma {:induction false} DrainedInTime(queue: seq<Waiting>, rounds: seq<Round>)
    requires InTime(queue)
    ensures InTime(Drained(queue, rounds))
    decreases |rounds|
  {
    if rounds == [] {
    } else {
      VisitedFacts(queue[..PageLength(queue)], rounds[0].answers, 0);
      DrainedInTime(Listed(queue, rounds[0].answers), rounds[1..]);
    }
  }

  /** So many pages are drained by twenty-one passes each. */
  lemma {:induction false} PagesDrain(queue: seq<Waiting>, rounds: seq<Round>, pages: nat)
    requires InTime(queue) && |queue| <= PAGE * pages && |rounds| >= (MAX_ATTEMPTS + 1) * pages
    ensures Drained(queue, rounds) == []
    decreases pages
  {
    if pages == 0 {
      EmptyStaysEmpty(rounds);
    } else {
      var n := PageLength(queue);
      var turn := MAX_ATTEMPTS + 1;
      var page, rest := queue[..n], queue[n..];
      assert page + rest == queue;
      PageDrains(page, rounds[..turn], 0);
      var rest' := FrontIsDrained(page, rest, rounds[..turn]);
      assert Drained(queue, rounds[..turn]) == rest';
      DrainedTwice(queue, rounds, turn);
      DrainedInTime(queue, rounds[..turn]);
      PagesDrain(rest', rounds[turn..], pages - 1);
    }
  }

  lemma {:induction false} EmptyStaysEmpty(rounds: seq<Round>)
    ensures Drained([], rounds) == []
    decreases |rounds|
  {
    if rounds == [] {
    } else {
      EmptyStaysEmpty(rounds[1..]);
    }
  }

  /** Some round brings a row with this id. */
  ghost predicate Arrives(rounds: seq<Round>, id: RowId) {
    exists r :: 0 <= r < |rounds| && InQueue(rounds[r].arrivals, id)
  }

  /** The real queue is the drained front followed by rows that waited behind it or arrived. */
  lemma {:induction false} FrontIsPassed(front: seq<Waiting>, back: seq<Waiting>, rounds: seq<Round>, id: RowId)
    returns (back': seq<Waiting>)
    ensures Passes(front + back, rounds) == Drained(front, rounds) + back'
    ensures InQueue(back', id) ==> InQueue(back, id) || Arrives(rounds, id)
    decreases |rounds|
  {
    if rounds == [] {
      back' := back;
    } else {
      var b := FrontIsListed(front, back, rounds[0].answers, id);
      var f, arrivals := Listed(front, rounds[0].answers), rounds[0].arrivals;
      assert f + b + arrivals == f + (b + arrivals);
      back' := FrontIsPassed(f, b + arrivals, rounds[1..], id);
      InConcat(b, arrivals, id);
      if InQueue(arrivals, id) {
        assert InQueue(rounds[0].arrivals, id);
      }
      if Arrives(rounds[1..], id) {
        var r :| 0 <= r < |rounds[1..]| && InQueue(rounds[1..][r].arrivals, id);
        assert InQueue(rounds[r + 1].arrivals, id);
      }
    }
  }

  /** Every pending deposit is settled: with k older ones before it, after 21 * (k / 50 + 1) passes at the
      latest, whatever the chain answers and however many deposits arrive in the meantime. For the fifty
      oldest that is within twenty-one passes. */
  lemma {:induction false} EveryDepositSettles(queue: seq<Waiting>, k: nat, rounds: seq<Round>)
    requires InTime(queue) && k < |queue| && |rounds| >= 21 * (k / 50 + 1)
    requires forall i :: 0 <= i < |queue| && i != k ==> queue[i].id != queue[k].id
    requires !Arrives(rounds, queue[k].id)
    ensures !InQueue(Passes(queue, rounds), queue[k].id)
  {
    var front, back := queue[..k + 1], queue[k + 1..];
    assert front + back == queue;
    PagesDrain(front, rounds, k / PAGE + 1);
    var back' := FrontIsPassed(front, back, rounds, queue[k].id);
    forall i | 0 <= i < |back| ensures back[i].id != queue[k].id {
      assert back[i] == queue[k + 1 + i];
    }
    assert Passes(queue, rounds) == back';
  }
}
