/** The daily check-in streak (server/controllers/checkinController.js) and the date-key
    arithmetic under it (server/utils/checkinDate.js). A date key is modelled as its day
    number, so that consecutive calendar days are consecutive integers. */
module CheckinStreak {

  const DAY_MS := 86_400_000

  // 15:00 UTC, the instant of a day that the source shifts by whole days
  const ANCHOR_MS := 54_000_000

  /** The calendar day a clock `offset` milliseconds ahead of UTC shows at an instant. */
  function LocalDay(instant: int, offset: int -> int): int {
    (instant + offset(instant)) / DAY_MS
  }

  /** addDaysToBrazilDateKey: go to 15:00 UTC, shift by whole days, read the local day back. */
  function AddDays(day: int, delta: int, offset: int -> int): int {
    LocalDay(ShiftedAnchor(day, delta), offset)
  }

  function ShiftedAnchor(day: int, delta: int): int {
    day * DAY_MS + ANCHOR_MS + delta * DAY_MS
  }

  /** The zone never reads another day at 15:00 UTC: true of America/Sao_Paulo, which has
      always been two or three hours behind UTC since time zones were introduced there. */
  ghost predicate ZoneFits(offset: int -> int) {
    forall t :: -ANCHOR_MS <= offset(t) < DAY_MS - ANCHOR_MS
  }

  /** Shifting by instants is day addition exactly when the zone still reads that day at the anchor. */
  lemma AddDaysIsDayAddition(day: int, delta: int, offset: int -> int)
    ensures AddDays(day, delta, offset) == day + delta
       <==> -ANCHOR_MS <= offset(ShiftedAnchor(day, delta)) < DAY_MS - ANCHOR_MS
  {
    var within := ANCHOR_MS + offset(ShiftedAnchor(day, delta));
    assert ShiftedAnchor(day, delta) + offset(ShiftedAnchor(day, delta)) == (day + delta) * DAY_MS + within;
    DivisionByDay(day + delta, within);
  }

  lemma DivisionByDay(day: int, rest: int)
    ensures (day * DAY_MS + rest) / DAY_MS == day <==> 0 <= rest < DAY_MS
  {
    var q := (day * DAY_MS + rest) / DAY_MS;
    var r := (day * DAY_MS + rest) % DAY_MS;
    assert day * DAY_MS + rest == q * DAY_MS + r;
  }

  datatype Status = Pending | Confirmed | Failed

  datatype Checkin = Checkin(day: int, status: Status)

  function ConfirmedDays(rows: seq<Checkin>): (days: set<int>)
    ensures forall d :: d in days <==> exists i :: 0 <= i < |rows| && rows[i].day == d && rows[i].status == Confirmed
  {
    set r | r in rows && r.status == Confirmed :: r.day
  }

  /** The days last, last-1, .., last-(n-1) are all confirmed and the one before them is not. */
  ghost predicate MaximalRun(days: set<int>, last: int, n: nat) {
    && (forall d :: last - n < d <= last ==> d in days)
    && last - n !in days
  }

  /** What the streak promises: the longest run of confirmed days ending today, or ending
      yesterday while today is still unconfirmed. */
  ghost predicate StreakIs(days: set<int>, today: int, n: nat) {
    if today in days then MaximalRun(days, today, n) else MaximalRun(days, today - 1, n)
  }

  lemma StreakIsUnique(days: set<int>, today: int, m: nat, n: nat)
    requires StreakIs(days, today, m) && StreakIs(days, today, n)
    ensures m == n
  {
    var last := if today in days then today else today - 1;
    assert last - m !in days && last - n !in days;
  }

  /** computeStreak */
  method ComputeStreak(rows: seq<Checkin>, today: int, offset: int -> int) returns (streak: nat)
    requires ZoneFits(offset)
    ensures StreakIs(ConfirmedDays(rows), today, streak)
    ensures streak == 0 <==> today !in ConfirmedDays(rows) && today - 1 !in ConfirmedDays(rows)
  {
    var dates := ConfirmedDays(rows);
    var cursor := today;
    if today !in dates {
      AddDaysIsDayAddition(today, -1, offset);
      cursor := AddDays(today, -1, offset);
      if cursor !in dates {
        return 0;
      }
    }
    ghost var last := cursor;
    streak := 0;
    while cursor in dates
      invariant cursor == last - streak
      invariant streak == 0 ==> cursor in dates
      invariant forall d :: cursor < d <= last ==> d in dates
      decreases set d | d in dates && d <= cursor
    {
      ghost var ahead := set d | d in dates && d <= cursor;
      AddDaysIsDayAddition(cursor, -1, offset);
      streak := streak + 1;
      cursor := AddDays(cursor, -1, offset);
      assert cursor + 1 in ahead;
    }
  }

  /** Confirming today adds one day to whatever the streak was. Overnight the streak survives
      exactly when the day that ended was confirmed, and otherwise falls to zero. */
  lemma DayByDay(days: set<int>, today: int, n: nat)
    requires StreakIs(days, today, n)
    ensures today !in days ==> StreakIs(days + {today}, today, n + 1)
    ensures today + 1 !in days ==> StreakIs(days, today + 1, if today in days then n else 0)
  {
    if today !in days {
      forall d | today - (n + 1) < d <= today
        ensures d in days + {today}
      {
        if d != today {
          assert (today - 1) - n < d <= today - 1;
        }
      }
    }
  }
}
