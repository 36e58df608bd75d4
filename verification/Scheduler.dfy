/** The weekly scheduler's window: which seven days a run reports on. */
module Scheduler {
  import opened Calendar

  datatype Window = Window(periodStart: int, periodEnd: int)

  const SUNDAY := 0
  const MONDAY := 1
  const SATURDAY := 6

  /** previousWeekDates, on day numbers. */
  function PreviousWeek(today: int): Window {
    var dayOfWeek := WeekDay(today);
    var daysToLastMonday := if dayOfWeek == 0 then 6 else dayOfWeek;
    var thisMonday := today - daysToLastMonday;
    var lastMonday := thisMonday - 7;
    Window(lastMonday, lastMonday + 6)
  }

  predicate Covers(w: Window, day: int) { w.periodStart <= day <= w.periodEnd }

  /** Every window has seven days and is over before the run. It is the
      documented Monday-to-Sunday week exactly when the job runs on a Sunday; on
      every other day, the scheduled Monday included, it is Sunday to Saturday. */
  lemma WindowShape(today: int)
    ensures var w := PreviousWeek(today);
      && w.periodEnd == w.periodStart + 6
      && w.periodEnd < today
      && (WeekDay(w.periodStart) == MONDAY && WeekDay(w.periodEnd) == SUNDAY <==> WeekDay(today) == SUNDAY)
      && (WeekDay(w.periodStart) == SUNDAY && WeekDay(w.periodEnd) == SATURDAY <==> WeekDay(today) != SUNDAY)
  {
    var w := PreviousWeek(today);
    var d := WeekDay(today);
    var back := if d == 0 then 6 else d;
    var k := (today + 6) / 7;
    assert today + 6 == 7 * k + d;
    assert w.periodStart + 6 == 7 * (k - 1) + (d - back);
    if d == 0 {
      assert w.periodStart + 6 == 7 * (k - 2) + 1;
      assert w.periodEnd + 6 == 7 * (k - 1) + 0;
    } else {
      assert w.periodStart + 6 == 7 * (k - 1) + 0;
      assert w.periodEnd + 6 == 7 * (k - 1) + 6;
    }
  }

  /** The window of the run `i` weeks after a first run. */
  lemma {:induction false} LaterWindow(today: int, i: nat)
    ensures PreviousWeek(today + 7 * i)
      == Window(PreviousWeek(today).periodStart + 7 * i, PreviousWeek(today).periodEnd + 7 * i)
  {
    if i > 0 {
      LaterWindow(today, i - 1);
      var n := today + 7 * (i - 1);
      assert (n + 7 + 6) % 7 == (n + 6) % 7;
      assert WeekDay(n + 7) == WeekDay(n);
    }
  }

  /** Weekly runs tile the calendar: over any number of runs one week apart,
      every day from the first window on is covered by exactly one run. */
  lemma WeeklyRunsTile(today: int, runs: nat, day: int)
    requires PreviousWeek(today).periodStart <= day < PreviousWeek(today).periodStart + 7 * runs
    ensures exists i: nat ::
      && i < runs && Covers(PreviousWeek(today + 7 * i), day)
      && forall j: nat | j < runs && Covers(PreviousWeek(today + 7 * j), day) :: j == i
  {
    var start := PreviousWeek(today).periodStart;
    var i := (day - start) / 7;
    LaterWindow(today, i);
    assert Covers(PreviousWeek(today + 7 * i), day);
    forall j: nat | j < runs && Covers(PreviousWeek(today + 7 * j), day) ensures j == i {
      LaterWindow(today, j);
    }
  }
}
