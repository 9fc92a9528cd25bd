/** The daily batch job: backfill the seven days before startup, then one day at each 02:00 UTC. */
module AuditCron {
  // Times are nanoseconds of UTC; a date is a day number.
  const DAY: int := 86_400_000_000_000
  const TWO_HOURS: int := 7_200_000_000_000
  const BACKFILL: int := 7

  function DateOf(t: int): int { t / DAY }

  /** 02:00 of a date. */
  function RunTime(date: int): int { date * DAY + TWO_HOURS }

  function NextRun(now: int): int {
    if RunTime(DateOf(now)) <= now then RunTime(DateOf(now)) + DAY else RunTime(DateOf(now))
  }

  /** The wait before the first tick is positive and at most a day, and ends at a 02:00. */
  lemma WaitWithinADay(now: int)
    ensures 0 < NextRun(now) - now <= DAY
    ensures exists d :: NextRun(now) == RunTime(d)
    ensures NextRun(now) % 86_400_000_000_000 == 7_200_000_000_000 && DAY == 86_400_000_000_000
    ensures DateOf(now) * 86_400_000_000_000 <= now < (DateOf(now) + 1) * 86_400_000_000_000
  {
    assert NextRun(now) == RunTime(DateOf(now)) || NextRun(now) == RunTime(DateOf(now) + 1);
  }

  ghost predicate GapFree(dates: set<int>) {
    forall a, b, c :: a in dates && c in dates && a < b < c ==> b in dates
  }

  /** The dates from `lo` to `hi`. */
  function Interval(lo: int, hi: int): (dates: set<int>)
    ensures forall d :: d in dates <==> lo <= d <= hi
    decreases hi - lo
  {
    if hi < lo then {} else Interval(lo, hi - 1) + {hi}
  }

  class Cron {
    /** Dates with a batch hash. */
    var covered: set<int>

    constructor (covered: set<int>)
      ensures this.covered == covered
    {
      this.covered := covered;
    }

    /** A batch that fails leaves its date as it was. */
    method Backfill(startup: int, ok: int -> bool)
      modifies this
      ensures covered == old(covered) + set d | DateOf(startup) - BACKFILL <= d < DateOf(startup) && ok(d)
    {
      var today := DateOf(startup);
      for back := 1 to BACKFILL + 1
        invariant covered == old(covered) + set d | today - back < d < today && ok(d)
      {
        var date := today - back;
        if ok(date) {
          covered := covered + {date};
        }
      }
    }

    /** The life of one process: backfill, then a tick at each of `fires`, in order. */
    method Run(startup: int, scheduled: int, fires: seq<int>, ok: int -> bool) returns (firstTick: int)
      modifies this
      ensures firstTick == NextRun(scheduled)
      ensures covered == old(covered) + Computed(startup, fires, ok)
    {
      Backfill(startup, ok);
      ghost var filled := covered;
      var nextRun := RunTime(DateOf(scheduled));
      if nextRun <= scheduled {
        nextRun := nextRun + DAY;
      }
      var wait := nextRun - scheduled;
      firstTick := scheduled + wait;
      for i := 0 to |fires|
        invariant covered == filled + set k | 0 <= k < i && ok(DateOf(fires[k]) - 1) :: DateOf(fires[k]) - 1
      {
        var yesterday := DateOf(fires[i]) - 1;
        if ok(yesterday) {
          covered := covered + {yesterday};
        }
      }
    }
  }

  /** The dates one process computes: those backfilled, and the day before each tick. */
  function Computed(startup: int, fires: seq<int>, ok: int -> bool): set<int> {
    (set d | DateOf(startup) - BACKFILL <= d < DateOf(startup) && ok(d))
    + set k | 0 <= k < |fires| && ok(DateOf(fires[k]) - 1) :: DateOf(fires[k]) - 1
  }

  // ---- Coverage when batches succeed and ticks fire on their due day ----

  /** Tick `k` is due `k` days after the first; each fires on the day it is due. */
  ghost predicate OnDueDay(scheduled: int, fires: seq<int>) {
    forall k :: 0 <= k < |fires| ==> DateOf(fires[k]) == DateOf(NextRun(scheduled) + k * DAY)
  }

  function Covered(startup: int, fires: seq<int>): set<int> {
    Interval(DateOf(startup) - BACKFILL, DateOf(startup) - 1)
    + set k | 0 <= k < |fires| :: DateOf(fires[k]) - 1
  }

  lemma AllBatchesSucceed(startup: int, fires: seq<int>, ok: int -> bool)
    requires forall d :: ok(d)
    ensures Computed(startup, fires, ok) == Covered(startup, fires)
  {
    assert forall d :: ok(d) ==> (d in Interval(DateOf(startup) - BACKFILL, DateOf(startup) - 1) <==>
                                  DateOf(startup) - BACKFILL <= d < DateOf(startup));
  }

  lemma TickDates(scheduled: int, k: int)
    ensures DateOf(NextRun(scheduled) + k * DAY) == DateOf(NextRun(scheduled)) + k
    ensures DateOf(NextRun(scheduled)) == DateOf(scheduled) + if RunTime(DateOf(scheduled)) <= scheduled then 1 else 0
  {
    WaitWithinADay(scheduled);
    var d :| NextRun(scheduled) == RunTime(d);
    assert RunTime(d) + k * DAY == (d + k) * DAY + TWO_HOURS;
    DateOfRunTime(d);
    DateOfRunTime(d + k);
    DateOfRunTime(DateOf(scheduled));
    DateOfRunTime(DateOf(scheduled) + 1);
  }

  lemma DateOfRunTime(d: int)
    ensures DateOf(RunTime(d)) == d
  {
  }

  lemma TicksCoverInterval(startup: int, scheduled: int, fires: seq<int>)
    requires OnDueDay(scheduled, fires)
    ensures var first := DateOf(NextRun(scheduled)) - 1;
      Covered(startup, fires) ==
        Interval(DateOf(startup) - BACKFILL, DateOf(startup) - 1) + Interval(first, first + |fires| - 1)
  {
    var first := DateOf(NextRun(scheduled)) - 1;
    forall k | 0 <= k < |fires| ensures DateOf(fires[k]) - 1 == first + k { TickDates(scheduled, k); }
    forall d | d in Interval(first, first + |fires| - 1)
      ensures d in Covered(startup, fires)
    {
      assert DateOf(fires[d - first]) - 1 == d;
    }
  }

  /** Main result on coverage: once a tick has fired, the dates covered have no gap exactly when the backfill
      ended before 02:00 of the day after startup; they then are all days from startup minus 7. */
  lemma CoverageIffBackfillInTime(startup: int, scheduled: int, fires: seq<int>)
    requires startup <= scheduled && OnDueDay(scheduled, fires) && fires != []
    ensures GapFree(Covered(startup, fires)) <==> scheduled < RunTime(DateOf(startup) + 1)
    ensures scheduled < RunTime(DateOf(startup) + 1) ==>
      Covered(startup, fires) == Interval(DateOf(startup) - BACKFILL, DateOf(NextRun(scheduled)) + |fires| - 2)
  {
    var today, first := DateOf(startup), DateOf(NextRun(scheduled)) - 1;
    TicksCoverInterval(startup, scheduled, fires);
    TickDates(scheduled, 0);
    LaterDate(startup, scheduled);
    if scheduled < RunTime(today + 1) {
      EarlySchedule(startup, scheduled);
      assert Covered(startup, fires) == Interval(today - BACKFILL, first + |fires| - 1);
    } else {
      LateSchedule(startup, scheduled);
      assert today - 1 in Covered(startup, fires) && first in Covered(startup, fires) && today !in Covered(startup, fires);
    }
  }

  /** For one, a backfill that is over just as 02:00 of the next day has come. */
  lemma LateBackfillLeavesAGap(startup: int)
    ensures var scheduled := RunTime(DateOf(startup) + 1);
      !GapFree(Covered(startup, [NextRun(scheduled)]))
  {
    var scheduled := RunTime(DateOf(startup) + 1);
    var fires := [NextRun(scheduled)];
    assert OnDueDay(scheduled, fires);
    CoverageIffBackfillInTime(startup, scheduled, fires);
  }

  lemma LaterDate(a: int, b: int)
    requires a <= b
    ensures DateOf(a) <= DateOf(b)
  {
  }

  lemma EarlySchedule(startup: int, scheduled: int)
    requires startup <= scheduled < RunTime(DateOf(startup) + 1)
    ensures DateOf(startup) - 1 <= DateOf(NextRun(scheduled)) - 1 <= DateOf(startup)
  {
    TickDates(scheduled, 0);
    LaterDate(startup, scheduled);
    LaterDate(scheduled, RunTime(DateOf(startup) + 1));
    DateOfRunTime(DateOf(startup) + 1);
  }

  lemma LateSchedule(startup: int, scheduled: int)
    requires RunTime(DateOf(startup) + 1) <= scheduled
    ensures DateOf(startup) + 1 <= DateOf(NextRun(scheduled)) - 1
  {
    TickDates(scheduled, 0);
    LaterDate(RunTime(DateOf(startup) + 1), scheduled);
    DateOfRunTime(DateOf(startup) + 1);
  }

  // ---- Restarts ----

  /** One process: when it starts, when its backfill is over, and when its ticks fire before it stops. */
  datatype Process = Process(startup: int, scheduled: int, fires: seq<int>) {
    ghost predicate Regular() {
      startup <= scheduled && OnDueDay(scheduled, fires)
    }

    /** It starts at most 8 days after `last`, and its backfill is over before 02:00 of the next day, unless
        it stops before its first tick anyway. */
    predicate InTime(last: int) {
      DateOf(startup) - last <= 8 && (fires == [] || scheduled < RunTime(DateOf(startup) + 1))
    }

    function LastCovered(): int {
      if fires == [] then DateOf(startup) - 1 else DateOf(NextRun(scheduled)) + |fires| - 2
    }
  }

  /** Main result on a restart: on top of dates covered without gap up to `last`, before its startup day, a
      restarted process leaves no gap if and only if it is in time. */
  lemma RestartIffWithinEightDays(lo: int, last: int, p: Process)
    requires lo <= last < DateOf(p.startup) && lo + BACKFILL <= DateOf(p.startup) && p.Regular()
    ensures GapFree(Interval(lo, last) + Covered(p.startup, p.fires)) <==> p.InTime(last)
    ensures p.InTime(last) ==> Interval(lo, last) + Covered(p.startup, p.fires) == Interval(lo, p.LastCovered())
    ensures p.InTime(last) ==> DateOf(p.startup) - 1 <= p.LastCovered()
  {
    if DateOf(p.startup) - last > 8 {
      RestartTooLate(lo, last, p);
    } else if p.InTime(last) {
      RestartInTime(lo, last, p);
    } else {
      BackfillTooLate(lo, last, p);
    }
  }

  lemma RestartInTime(lo: int, last: int, p: Process)
    requires lo <= last < DateOf(p.startup) && lo + BACKFILL <= DateOf(p.startup) && p.Regular() && p.InTime(last)
    ensures Interval(lo, last) + Covered(p.startup, p.fires) == Interval(lo, p.LastCovered())
    ensures DateOf(p.startup) - 1 <= p.LastCovered()
  {
    TicksCoverInterval(p.startup, p.scheduled, p.fires);
    if p.fires != [] { EarlySchedule(p.startup, p.scheduled); }
  }

  lemma BackfillTooLate(lo: int, last: int, p: Process)
    requires last < DateOf(p.startup) && p.Regular() && p.fires != []
    requires RunTime(DateOf(p.startup) + 1) <= p.scheduled
    ensures !GapFree(Interval(lo, last) + Covered(p.startup, p.fires))
  {
    var today, first := DateOf(p.startup), DateOf(NextRun(p.scheduled)) - 1;
    var dates := Interval(lo, last) + Covered(p.startup, p.fires);
    TicksCoverInterval(p.startup, p.scheduled, p.fires);
    LateSchedule(p.startup, p.scheduled);
    assert today - 1 in dates && first in dates && today !in dates;
  }

  lemma RestartTooLate(lo: int, last: int, p: Process)
    requires lo <= last && 8 < DateOf(p.startup) - last && p.Regular()
    ensures !GapFree(Interval(lo, last) + Covered(p.startup, p.fires))
  {
    var today, first := DateOf(p.startup), DateOf(NextRun(p.scheduled)) - 1;
    var dates := Interval(lo, last) + Covered(p.startup, p.fires);
    TicksCoverInterval(p.startup, p.scheduled, p.fires);
    LaterDate(p.startup, p.scheduled);
    TickDates(p.scheduled, 0);
    assert last in dates && today - 1 in dates && last + 1 !in dates;
  }

  /** Each process starts after the dates that are covered by then. */
  ghost predicate Chained(last: int, processes: seq<Process>)
    decreases |processes|
  {
    processes != [] ==>
      var p := processes[0];
      p.Regular() && last < DateOf(p.startup) && Chained(p.LastCovered(), processes[1..])
  }

  ghost predicate AllInTime(last: int, processes: seq<Process>)
    decreases |processes|
  {
    processes != [] ==> processes[0].InTime(last) && AllInTime(processes[0].LastCovered(), processes[1..])
  }

  ghost predicate NeverAGap(dates: set<int>, processes: seq<Process>)
    decreases |processes|
  {
    && GapFree(dates)
    && (processes != [] ==>
          NeverAGap(dates + Covered(processes[0].startup, processes[0].fires), processes[1..]))
  }

  /** Main result on coverage over any number of restarts: there is no gap after any of the processes if and
      only if every one of them is in time for what the ones before it covered. */
  lemma {:induction false} NeverAGapIffAllInTime(lo: int, last: int, processes: seq<Process>)
    requires lo <= last && Chained(last, processes)
    requires processes != [] ==> lo + BACKFILL <= DateOf(processes[0].startup)
    ensures NeverAGap(Interval(lo, last), processes) <==> AllInTime(last, processes)
    decreases |processes|
  {
    if processes != [] {
      var p := processes[0];
      RestartIffWithinEightDays(lo, last, p);
      if p.InTime(last) {
        NeverAGapIffAllInTime(lo, p.LastCovered(), processes[1..]);
      } else {
        assert !GapFree(Interval(lo, last) + Covered(p.startup, p.fires));
      }
    }
  }

  /** What `Cron.Run` promises, with batches that succeed: run on dates without gap up to `last`, it leaves
      none if and only if the process is in time. */
  lemma RunLeavesNoGapIff(lo: int, last: int, p: Process, ok: int -> bool)
    requires lo <= last < DateOf(p.startup) && lo + BACKFILL <= DateOf(p.startup) && p.Regular()
    requires forall d :: ok(d)
    ensures GapFree(Interval(lo, last) + Computed(p.startup, p.fires, ok)) <==> p.InTime(last)
  {
    AllBatchesSucceed(p.startup, p.fires, ok);
    RestartIffWithinEightDays(lo, last, p);
  }
}
