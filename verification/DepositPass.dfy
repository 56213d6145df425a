/** One pass of the verifier as the source runs it: the listed rows are verified side by side, their
    steps interleaved in any way with each other and with requests that come in meanwhile. Whatever the
    order, the pass does to the queue of pending rows what one pass of the queue model does. */
module DepositPass {
  import opened Common
  import opened DepositBooks
  import opened DepositQueue

  /** The pending rows with ids in [lo, hi), in order of creation. */
  function PendingBetween(rows: seq<Deposit>, lo: nat, hi: nat): seq<Waiting>
    requires lo <= hi <= |rows|
    decreases hi - lo
  {
    if lo == hi then [] else WaitingAt(rows[lo], lo) + PendingBetween(rows, lo + 1, hi)
  }

  function WaitingAt(d: Deposit, id: RowId): seq<Waiting> {
    if d.status == PendingVerification then [Waiting(id, d.verifyAttempts)] else []
  }

  function Queue(rows: seq<Deposit>): seq<Waiting> {
    PendingBetween(rows, 0, |rows|)
  }

  lemma {:induction false} PendingJoins(rows: seq<Deposit>, lo: nat, mid: nat, hi: nat)
    requires lo <= mid <= hi <= |rows|
    ensures PendingBetween(rows, lo, hi) == PendingBetween(rows, lo, mid) + PendingBetween(rows, mid, hi)
    decreases mid - lo
  {
    hide WaitingAt;
    if lo == mid {
    } else {
      PendingJoins(rows, lo + 1, mid, hi);
    }
  }

  lemma {:induction false} PendingSame(rows: seq<Deposit>, rows': seq<Deposit>, lo: nat, hi: nat)
    requires lo <= hi <= |rows| == |rows'| && forall i :: lo <= i < hi ==> rows[i] == rows'[i]
    ensures PendingBetween(rows, lo, hi) == PendingBetween(rows', lo, hi)
    decreases hi - lo
  {
    hide WaitingAt;
    if lo == hi {
    } else {
      PendingSame(rows, rows', lo + 1, hi);
    }
  }

  /** The first of the rows still to visit is pending, nothing pending lies before it, and the others follow it. */
  lemma {:induction false} NextPending(rows: seq<Deposit>, lo: nat, rest: seq<Waiting>)
    requires lo <= |rows| && PendingBetween(rows, lo, |rows|) == rest && rest != []
    ensures var id := rest[0].id;
            && lo <= id < |rows| && rest[0] == Waiting(id, rows[id].verifyAttempts) &&
               rows[id].status == PendingVerification
            && PendingBetween(rows, lo, id) == [] && PendingBetween(rows, id + 1, |rows|) == rest[1..]
    decreases |rows| - lo
  {
    if rows[lo].status == PendingVerification {
    } else {
      NextPending(rows, lo + 1, rest);
    }
  }

  // ---------- the page of a pass ----------

  /** How many pending rows are older. */
  function Rank(rows: seq<Deposit>, i: RowId): nat
    requires i <= |rows|
  {
    |PendingBetween(rows, 0, i)|
  }

  /** A pass lists the row: it is pending, with less than a page of older ones before it. */
  predicate InPage(rows: seq<Deposit>, i: RowId) {
    i < |rows| && rows[i].status == PendingVerification && Rank(rows, i) < PAGE
  }

  lemma RankNext(rows: seq<Deposit>, i: RowId)
    requires i < |rows|
    ensures Rank(rows, i + 1) == Rank(rows, i) + (if rows[i].status == PendingVerification then 1 else 0)
  {
    PendingJoins(rows, 0, i, i + 1);
    assert PendingBetween(rows, i + 1, i + 1) == [];
  }

  /** The queue lists the pending rows, each at its rank. */
  lemma {:induction false} QueueRanks(rows: seq<Deposit>, lo: nat, j: nat)
    requires lo <= |rows| && j < |PendingBetween(rows, lo, |rows|)|
    ensures var w := PendingBetween(rows, lo, |rows|)[j];
            && lo <= w.id < |rows| && rows[w.id].status == PendingVerification &&
               w.attempts == rows[w.id].verifyAttempts
            && Rank(rows, w.id) == Rank(rows, lo) + j
    decreases |rows| - lo
  {
    RankNext(rows, lo);
    if rows[lo].status == PendingVerification {
      if j > 0 {
        QueueRanks(rows, lo + 1, j - 1);
      }
    } else {
      QueueRanks(rows, lo + 1, j);
    }
  }

  lemma ListedAtRank(rows: seq<Deposit>, i: RowId)
    requires InPage(rows, i)
    ensures Rank(rows, i) < PageLength(Queue(rows)) && Queue(rows)[Rank(rows, i)] == Waiting(i, rows[i].verifyAttempts)
  {
    PendingJoins(rows, 0, i, |rows|);
  }

  /** The verifications a pass starts. */
  function PageTasks(rows: seq<Deposit>): seq<Task> {
    var queue := Queue(rows);
    seq(PageLength(queue), j requires 0 <= j < PageLength(queue) => Task(queue[j].id, queue[j].attempts + 1, None))
  }

  // ---------- a pass under way ----------

  ghost predicate UnderWay(tasks: seq<Task>, i: RowId) {
    exists k :: 0 <= k < |tasks| && tasks[k].id == i
  }

  /** What a verification makes of a pending row: settled, or one attempt more. */
  predicate Passed(d: Deposit, d': Deposit, answer: Answer) {
    && (d'.status == PendingVerification <==> Judge(d.verifyAttempts + 1, answer).Retry?)
    && d'.verifyAttempts == d.verifyAttempts + 1
  }

  /** A listed row has passed once its verification is through; every other row is as it was. */
  ghost predicate RowInPass(before: seq<Deposit>, answers: RowId -> Answer, b: Books, i: RowId)
    requires i < |before| <= |b.rows|
  {
    if InPage(before, i) && !UnderWay(b.tasks, i) then Passed(before[i], b.rows[i], answers(i))
    else b.rows[i] == before[i]
  }

  ghost predicate TaskInPass(before: seq<Deposit>, answers: RowId -> Answer, t: Task) {
    && InPage(before, t.id) && t.attempts == before[t.id].verifyAttempts + 1
    && (t.cleared.Some? ==> Judge(t.attempts, answers(t.id)).Credit?)
  }

  ghost predicate InPass(before: seq<Deposit>, answers: RowId -> Answer, b: Books) {
    && |before| <= |b.rows|
    && (forall i :: 0 <= i < |before| ==> RowInPass(before, answers, b, i))
    && (forall k :: 0 <= k < |b.tasks| ==> TaskInPass(before, answers, b.tasks[k]))
    && (forall k, j :: 0 <= k < j < |b.tasks| ==> b.tasks[k].id != b.tasks[j].id)
  }

  /** A step while the pass is under way: no other pass, and the chain gives the answers in question. */
  predicate PassStep(b: Books, answers: RowId -> Answer, s: Step) {
    !s.Fetch? && (s.Resolve? && s.task < |b.tasks| ==> s.answer == answers(b.tasks[s.task].id))
  }

  lemma StartInPass(b: Books, answers: RowId -> Answer)
    ensures InPass(b.rows, answers, b.(tasks := PageTasks(b.rows)))
  {
    hide Judge, InPage;
    var rows, tasks := b.rows, PageTasks(b.rows);
    forall k | 0 <= k < |tasks|
      ensures TaskInPass(rows, answers, tasks[k])
    {
      TaskOfPage(rows, k);
    }
    forall k, j | 0 <= k < j < |tasks| ensures tasks[k].id != tasks[j].id {
      TaskOfPage(rows, k);
      TaskOfPage(rows, j);
    }
    forall i | 0 <= i < |rows| && InPage(rows, i) ensures UnderWay(tasks, i) {
      ListedAtRank(rows, i);
      assert tasks[Rank(rows, i)].id == i;
    }
  }

  lemma TaskOfPage(rows: seq<Deposit>, k: nat)
    requires k < |PageTasks(rows)|
    ensures var t := PageTasks(rows)[k];
            && t.id < |rows| && InPage(rows, t.id) && t.attempts == rows[t.id].verifyAttempts + 1 && t.cleared.None? &&
               Rank(rows, t.id) == k
  {
    QueueRanks(rows, 0, k);
  }

  /** Every step of the pass, and every request in between. */
  lemma StepInPass(before: seq<Deposit>, answers: RowId -> Answer, b: Books, s: Step)
    requires InPass(before, answers, b) && Enabled(b, s) && PassStep(b, answers, s)
    ensures InPass(before, answers, Apply(b, s))
  {
    hide InPage, Passed, Judge, Duplicate, OwnRow, OthersClaim, Known, RemoveAt;
    var r := Apply(b, s);
    if s.Resolve? || s.CreditNow? {
      var t := b.tasks[s.task];
      assert TaskInPass(before, answers, t);
      if r.tasks == RemoveAt(b.tasks, s.task) {
        RowPasses(before, answers, b, s);
        TaskGone(before, answers, b, s.task, r);
      } else {
        TaskStays(before, answers, b, s.task, r);
      }
    } else {
      forall i | 0 <= i < |before| ensures RowInPass(before, answers, r, i) {
        assert RowInPass(before, answers, b, i);
      }
    }
  }

  /** A verification that is through leaves its row passed. */
  lemma RowPasses(before: seq<Deposit>, answers: RowId -> Answer, b: Books, s: Step)
    requires InPass(before, answers, b) && Enabled(b, s) && PassStep(b, answers, s) && (s.Resolve? || s.CreditNow?)
    requires Apply(b, s).tasks == RemoveAt(b.tasks, s.task)
    ensures var id := b.tasks[s.task].id;
            && id < |before| && b.rows[id] == before[id]
            && Passed(before[id], Apply(b, s).rows[id], answers(id))
  {
    hide InPage, Duplicate;
    var t := b.tasks[s.task];
    assert TaskInPass(before, answers, t);
    assert t.id < |before| by {
      InPageIsRow(before, t.id);
    }
    assert UnderWay(b.tasks, t.id) && RowInPass(before, answers, b, t.id);
    assert before[t.id].status == PendingVerification by {
      InPageIsRow(before, t.id);
    }
    assert |RemoveAt(b.tasks, s.task)| != |b.tasks|;
  }

  lemma InPageIsRow(rows: seq<Deposit>, i: RowId)
    requires InPage(rows, i)
    ensures i < |rows| && rows[i].status == PendingVerification
  {
  }

  lemma TaskGone(before: seq<Deposit>, answers: RowId -> Answer, b: Books, k: nat, r: Books)
    requires InPass(before, answers, b) && k < |b.tasks| && r.tasks == RemoveAt(b.tasks, k) && |r.rows| == |b.rows|
    requires forall i :: 0 <= i < |b.rows| && i != b.tasks[k].id ==> r.rows[i] == b.rows[i]
    requires var id := b.tasks[k].id; id < |before| && Passed(before[id], r.rows[id], answers(id))
    ensures InPass(before, answers, r)
  {
    hide InPage, Passed, Judge, RemoveAt;
    var id := b.tasks[k].id;
    assert TaskInPass(before, answers, b.tasks[k]);
    assert |r.tasks| == |b.tasks| - 1;
    forall j | 0 <= j < |r.tasks| ensures r.tasks[j].id != id && TaskInPass(before, answers, r.tasks[j]) {
      assert r.tasks[j] == b.tasks[if j < k then j else j + 1];
    }
    forall i | 0 <= i < |before| ensures RowInPass(before, answers, r, i) {
      assert RowInPass(before, answers, b, i);
      if i != id && UnderWay(b.tasks, i) {
        var j :| 0 <= j < |b.tasks| && b.tasks[j].id == i;
        assert j != k;
        assert r.tasks[if j < k then j else j - 1].id == i;
      }
    }
  }

  lemma TaskStays(before: seq<Deposit>, answers: RowId -> Answer, b: Books, k: nat, r: Books)
    requires InPass(before, answers, b) && k < |b.tasks| == |r.tasks| && r.rows == b.rows
    requires r.tasks == b.tasks[k := r.tasks[k]] && r.tasks[k].id == b.tasks[k].id &&
             TaskInPass(before, answers, r.tasks[k])
    ensures InPass(before, answers, r)
  {
    hide InPage, Passed, Judge;
    forall i | 0 <= i < |before| ensures RowInPass(before, answers, r, i) {
      assert RowInPass(before, answers, b, i);
      if UnderWay(b.tasks, i) {
        var j :| 0 <= j < |b.tasks| && b.tasks[j].id == i;
        assert r.tasks[j].id == i;
      }
      if UnderWay(r.tasks, i) {
        var j :| 0 <= j < |r.tasks| && r.tasks[j].id == i;
        assert b.tasks[j].id == i;
      }
    }
  }

  // ---------- the end of a pass ----------

  /** The first `left` of some waiting rows visited, the others as they are. */
  function VisitFirst(queue: seq<Waiting>, left: nat, answers: RowId -> Answer): seq<Waiting> {
    if left < |queue| then Visited(queue[..left], answers) + queue[left..] else Visited(queue, answers)
  }

  lemma VisitFirstStep(w: Waiting, rest: seq<Waiting>, left: nat, answers: RowId -> Answer)
    requires left > 0
    ensures VisitFirst([w] + rest, left, answers) == Visited([w], answers) + VisitFirst(rest, left - 1, answers)
  {
    hide Visited;
    VisitedConcat([w], rest, answers);
    if left < 1 + |rest| {
      assert ([w] + rest)[..left] == [w] + rest[..left - 1] && ([w] + rest)[left..] == rest[left - 1..];
      VisitedConcat([w], rest[..left - 1], answers);
    }
  }

  lemma NoneLeft(queue: seq<Waiting>, answers: RowId -> Answer)
    ensures VisitFirst(queue, 0, answers) == queue
  {
  }

  function Left(rows: seq<Deposit>, lo: nat): nat
    requires lo <= |rows|
  {
    if Rank(rows, lo) < PAGE then PAGE - Rank(rows, lo) else 0
  }

  /** The rows the pass has been through, seen as a queue. */
  lemma {:induction false} PassedQueue(before: seq<Deposit>, answers: RowId -> Answer, b: Books, lo: nat)
    requires InPass(before, answers, b) && b.tasks == [] && lo <= |before|
    ensures PendingBetween(b.rows, lo, |before|)
            == VisitFirst(PendingBetween(before, lo, |before|), Left(before, lo), answers)
    decreases |before| - lo
  {
    hide Visited, VisitFirst, Judge;
    if lo == |before| {
      NothingWaits(answers, Left(before, lo));
    } else {
      PassedQueue(before, answers, b, lo + 1);
      RankNext(before, lo);
      assert RowInPass(before, answers, b, lo) && !UnderWay(b.tasks, lo);
      var rest := PendingBetween(before, lo + 1, |before|);
      if before[lo].status == PendingVerification {
        var w := Waiting(lo, before[lo].verifyAttempts);
        assert PendingBetween(before, lo, |before|) == [w] + rest;
        if Left(before, lo) > 0 {
          VisitFirstStep(w, rest, Left(before, lo), answers);
          OnePassed(before[lo], b.rows[lo], lo, answers);
          assert Left(before, lo + 1) == Left(before, lo) - 1;
        } else {
          NoneLeft([w] + rest, answers);
          NoneLeft(rest, answers);
          assert Left(before, lo + 1) == 0 && b.rows[lo] == before[lo];
        }
      } else {
        assert b.rows[lo] == before[lo] && Left(before, lo + 1) == Left(before, lo);
        assert PendingBetween(before, lo, |before|) == rest;
      }
    }
  }

  lemma NothingWaits(answers: RowId -> Answer, left: nat)
    ensures VisitFirst([], left, answers) == []
  {
  }

  lemma {:induction false} OnePassed(d: Deposit, d': Deposit, id: RowId, answers: RowId -> Answer)
    requires Passed(d, d', answers(id))
    ensures WaitingAt(d', id) == Visited([Waiting(id, d.verifyAttempts)], answers)
  {
    hide Judge;
    assert [Waiting(id, d.verifyAttempts)][1..] == [];
  }

  // ---------- whole passes ----------

  ghost predicate PassSteps(b: Books, answers: RowId -> Answer, run: seq<Step>)
    requires CanRun(b, run)
    decreases |run|
  {
    run == [] || (PassStep(b, answers, run[0]) && PassSteps(Apply(b, run[0]), answers, run[1..]))
  }

  lemma {:induction false} RunInPass(before: seq<Deposit>, answers: RowId -> Answer, b: Books, run: seq<Step>)
    requires InPass(before, answers, b) && CanRun(b, run) && PassSteps(b, answers, run)
    ensures InPass(before, answers, After(b, run))
    decreases |run|
  {
    hide InPass, PassStep;
    if run == [] {
    } else {
      StepInPass(before, answers, b, run[0]);
      RunInPass(before, answers, Apply(b, run[0]), run[1..]);
    }
  }

  /** A pass lists a page of rows at once and verifies them side by side. When all are through, whatever the
      order of their steps and whichever requests came in between, the queue is the one that a pass of the
      queue model leaves, followed by the rows created meanwhile. */
  lemma PassRefinesQueue(b: Books, answers: RowId -> Answer, run: seq<Step>)
    requires b.tasks == [] && CanRun(b.(tasks := PageTasks(b.rows)), run)
    requires PassSteps(b.(tasks := PageTasks(b.rows)), answers, run) &&
             After(b.(tasks := PageTasks(b.rows)), run).tasks == []
    ensures var rows := After(b.(tasks := PageTasks(b.rows)), run).rows;
            && |b.rows| <= |rows|
            && Queue(rows) == Listed(Queue(b.rows), answers) + PendingBetween(rows, |b.rows|, |rows|)
  {
    hide InPass, RowInPass, CanRun, After, PassSteps, Visited, VisitFirst, PageTasks;
    var started := b.(tasks := PageTasks(b.rows));
    StartInPass(b, answers);
    RunInPass(b.rows, answers, started, run);
    var end := After(started, run);
    PassIsNotShorter(b.rows, answers, end);
    PassedQueue(b.rows, answers, end, 0);
    PendingJoins(end.rows, 0, |b.rows|, |end.rows|);
    VisitFirstIsListed(Queue(b.rows), answers);
  }

  lemma PassIsNotShorter(before: seq<Deposit>, answers: RowId -> Answer, b: Books)
    requires InPass(before, answers, b)
    ensures |before| <= |b.rows|
  {
  }

  lemma VisitFirstIsListed(queue: seq<Waiting>, answers: RowId -> Answer)
    ensures VisitFirst(queue, PAGE, answers) == Listed(queue, answers)
  {
    hide Visited;
    assert queue[..|queue|] == queue && queue[|queue|..] == [];
  }
}
