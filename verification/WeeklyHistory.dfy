/** Weekly reports over many weeks: each observation is counted exactly once. */
module WeeklyHistory {
  import opened Collections
  import opened Entities
  import opened Aggregation
  import opened Snapshots
  import opened SnapshotRuns
  import opened BulkGeneration
  import opened WeeklyRun
  import opened Scheduler

  // ── a report that is up to date stays so ─────────────────────────────────

  /** The pupil's observations of a period. */
  function Observed(db: Db, s: Student, p: Period): seq<DailyReport> {
    Filter(db.reports, InWindow(s.schoolPkid, s.pkid, p.start, p.end))
  }

  /** A snapshot of the pupil and period counts so many observations. */
  ghost predicate Counts(db: Db, s: Student, p: Period, n: int) {
    exists t :: t in db.snapshots && IsFor(t, s.schoolPkid, s.pkid, p) && t.totalObservations == n
  }

  ghost predicate UpToDate(db: Db, s: Student, p: Period) { Counts(db, s, p, |Observed(db, s, p)|) }

  lemma SameForCounts(db: Db, u: Db, s: Student, p: Period, n: int)
    requires SameFor(db, u, s.schoolPkid, s.pkid, p) && Counts(db, s, p, n)
    ensures Counts(u, s, p, n)
  {
    var t :| t in db.snapshots && IsFor(t, s.schoolPkid, s.pkid, p) && t.totalObservations == n;
    assert t in SnapshotsFor(db, s.schoolPkid, s.pkid, p);
    assert t in SnapshotsFor(u, s.schoolPkid, s.pkid, p);
  }

  lemma ServedUpToDate(db: Db, u: Db, s: Student, p: Period)
    requires Served(db, u, s.schoolPkid, s.pkid, p) && u.reports == db.reports
    requires Final(db, s.schoolPkid, s.pkid, p) ==> UpToDate(db, s, p)
    ensures UpToDate(u, s, p)
  {
    hide FigureList, PeriodAggregations;
    var rows := SnapshotsFor(u, s.schoolPkid, s.pkid, p);
    assert rows[0] in rows;
    if Final(db, s.schoolPkid, s.pkid, p) {
      var t :| t in db.snapshots && IsFor(t, s.schoolPkid, s.pkid, p) && t.totalObservations == |Observed(db, s, p)|;
      assert t in SnapshotsFor(db, s.schoolPkid, s.pkid, p);
    } else {
      PeriodConserves(db.reports, db.curriculum, s.schoolPkid, s.pkid, p.start, p.end);
    }
  }

  lemma GenerateStays(db: Db, student: Student, p: Period, creator: nat, fault: Fault, t: Snapshot)
    requires Inv(db) && student in db.students && t in db.snapshots
    requires !IsFor(t, student.schoolPkid, student.pkid, p)
    ensures t in Generate(db, student, student.schoolPkid, p, creator, fault).db.snapshots
  {
    hide Inv, PeriodAggregations;
    if Commits(db, student.schoolPkid, student.pkid, p, fault) {
      var i := PeriodIndex(db.snapshots, student.schoolPkid, student.pkid, p);
      if i < |db.snapshots| { IdsDiffer(db, db.snapshots[i], t); }
      assert t in Cleared(db, student.schoolPkid, student.pkid, p).snapshots;
    }
  }

  /** Generation, for whomever and whatever period, leaves an up-to-date report up to date. */
  lemma GenerateUpToDate(db: Db, x: Student, q: Period, creator: nat, fault: Fault, s: Student, p: Period)
    requires Inv(db) && x in db.students && s in db.students && UpToDate(db, s, p)
    ensures UpToDate(Generate(db, x, x.schoolPkid, q, creator, fault).db, s, p)
  {
    hide Inv, Generate, Served, SameFor, UpToDate;
    var u := Generate(db, x, x.schoolPkid, q, creator, fault).db;
    GenerateFrame(db, x, x.schoolPkid, q, creator, fault);
    if x.pkid == s.pkid && q == p {
      SamePupilInv(db, x, s);
      GenerateLeaves(db, s, p, creator, fault);
      if fault == RolledBack { SameForUpToDate(db, u, s, p); } else { ServedUpToDate(db, u, s, p); }
    } else {
      OtherUpToDate(db, x, q, creator, fault, s, p);
    }
  }

  lemma SamePupilInv(db: Db, a: Student, b: Student)
    requires Inv(db) && a in db.students && b in db.students && a.pkid == b.pkid
    ensures a == b
  {
    hide RowsOk, ItemsOk, ReceiptsOk, EventsOk;
    SamePupil(db.students, a, b);
  }

  lemma SameForUpToDate(db: Db, u: Db, s: Student, p: Period)
    requires SameFor(db, u, s.schoolPkid, s.pkid, p) && u.reports == db.reports && UpToDate(db, s, p)
    ensures UpToDate(u, s, p)
  {
    hide SameFor;
    SameForCounts(db, u, s, p, |Observed(db, s, p)|);
  }

  lemma OtherUpToDate(db: Db, x: Student, q: Period, creator: nat, fault: Fault, s: Student, p: Period)
    requires Inv(db) && x in db.students && UpToDate(db, s, p) && !(x.pkid == s.pkid && q == p)
    ensures UpToDate(Generate(db, x, x.schoolPkid, q, creator, fault).db, s, p)
  {
    hide Inv, Generate;
    GenerateFrame(db, x, x.schoolPkid, q, creator, fault);
    var t :| t in db.snapshots && IsFor(t, s.schoolPkid, s.pkid, p) && t.totalObservations == |Observed(db, s, p)|;
    GenerateStays(db, x, q, creator, fault, t);
  }

  lemma {:induction false} BulkUpToDate(db: Db, pupils: seq<Student>, schoolPkid: nat, q: Period, creator: nat,
          faults: Faults, s: Student, p: Period)
    requires Inv(db) && s in db.students && UpToDate(db, s, p)
    requires forall x | x in pupils :: x in db.students && x.schoolPkid == schoolPkid
    ensures UpToDate(Bulk(db, pupils, schoolPkid, q, creator, faults).db, s, p)
  {
    hide Inv, Generate, UpToDate, FaultOf;
    if pupils != [] {
      var front, last := pupils[..|pupils| - 1], pupils[|pupils| - 1];
      assert last in pupils;
      BulkInv(db, front, schoolPkid, q, creator, faults);
      BulkUpToDate(db, front, schoolPkid, q, creator, faults, s, p);
      GenerateUpToDate(Bulk(db, front, schoolPkid, q, creator, faults).db, last, q, creator, FaultOf(faults, last.pkid),
        s, p);
    }
  }

  lemma BulkGenerateUpToDate(db: Db, schoolPkid: nat, q: Period, creator: nat, faults: Faults, s: Student, p: Period)
    requires Inv(db) && s in db.students && UpToDate(db, s, p)
    ensures UpToDate(BulkGenerate(db, schoolPkid, q, creator, faults).db, s, p)
  {
    hide Inv, UpToDate, Bulk;
    BulkUpToDate(db, Filter(db.students, InSchool(schoolPkid)), schoolPkid, q, creator, faults, s, p);
  }

  lemma {:induction false} SchoolsUpToDate(db: Db, schools: seq<nat>, q: Period, creator: nat, down: set<nat>,
          faults: Faults, s: Student, p: Period)
    requires Inv(db) && s in db.students && UpToDate(db, s, p)
    ensures UpToDate(AllSchools(db, schools, q, creator, down, faults).db, s, p)
  {
    hide Inv, UpToDate, BulkGenerate;
    if schools != [] {
      var front := schools[..|schools| - 1];
      AllSchoolsInv(db, front, q, creator, down, faults);
      SchoolsUpToDate(db, front, q, creator, down, faults, s, p);
      BulkGenerateUpToDate(AllSchools(db, front, q, creator, down, faults).db, schools[|schools| - 1], q, creator,
        faults, s, p);
    }
  }

  lemma RowUpToDate(db: Db, out: Outcome<Snapshot>, i: nat, s: Student, p: Period)
    requires OnlyRowChanges(db, out, i) && UpToDate(db, s, p)
    ensures UpToDate(out.db, s, p)
  {
    var t :| t in db.snapshots && IsFor(t, s.schoolPkid, s.pkid, p) && t.totalObservations == |Observed(db, s, p)|;
    if out.result.Ok? {
      var j :| 0 <= j < |db.snapshots| && db.snapshots[j] == t;
      var saved := out.db.snapshots[j];
      assert saved in out.db.snapshots && IsFor(saved, s.schoolPkid, s.pkid, p);
    }
  }

  lemma WorkflowUpToDate(db: Db, q: Request, s: Student, p: Period)
    requires UpToDate(db, s, p) && (q.ReviewOne? || q.PublishOne? || q.SendOne?)
    ensures UpToDate(Step(db, q), s, p) && Step(db, q).students == db.students
  {
    hide UpToDate, Review, Publish, Send;
    match q
    case ReviewOne(id, school, notes, user, now) =>
      WorkflowWrites(db, id, school, notes, user, now);
      RowUpToDate(db, Review(db, id, school, notes, user, now), IndexOf(db.snapshots, id, school), s, p);
    case PublishOne(id, school, user, now) =>
      WorkflowWrites(db, id, school, None, user, now);
      RowUpToDate(db, Publish(db, id, school, user, now), IndexOf(db.snapshots, id, school), s, p);
    case SendOne(id, school, user, now) =>
      WorkflowWrites(db, id, school, None, user, now);
      RowUpToDate(db, Send(db, id, school, user, now), IndexOf(db.snapshots, id, school), s, p);
  }

  lemma OtherTablesUpToDate(db: Db, q: Request, s: Student, p: Period)
    requires UpToDate(db, s, p) && s in db.students && (q.ReadOne? || q.Elsewhere?)
    requires |Observed(Step(db, q), s, p)| == |Observed(db, s, p)|
    ensures UpToDate(Step(db, q), s, p) && s in Step(db, q).students
  {
    hide Filter;
    assert Step(db, q).snapshots == db.snapshots;
  }

  /** No request makes an up-to-date report stale, unless it changes how many
      observations of the period there are. */
  lemma StepUpToDate(db: Db, q: Request, s: Student, p: Period)
    requires Inv(db) && s in db.students && UpToDate(db, s, p)
    requires |Observed(Step(db, q), s, p)| == |Observed(db, s, p)|
    ensures UpToDate(Step(db, q), s, p) && s in Step(db, q).students
  {
    hide Inv, UpToDate, Observed, Generate, BulkGenerate, Review, Publish, Send, MarkAsRead;
    match q
    case GenerateOne(pkid, school, period, creator, fault) =>
      FoundStudent(db.students, pkid, school);
      var x := StudentByPkid(db.students, pkid, school);
      if x.Some? {
        GenerateUpToDate(db, x.value, period, creator, fault, s, p);
        GenerateFrame(db, x.value, school, period, creator, fault);
      }
    case GenerateAll(school, period, creator, faults) =>
      BulkGenerateUpToDate(db, school, period, creator, faults, s, p);
      BulkOfSchool(db, school, period, creator, faults);
    case ReviewOne(_, _, _, _, _) => WorkflowUpToDate(db, q, s, p);
    case PublishOne(_, _, _, _) => WorkflowUpToDate(db, q, s, p);
    case SendOne(_, _, _, _) => WorkflowUpToDate(db, q, s, p);
    case ReadOne(_, _, _, _) => OtherTablesUpToDate(db, q, s, p);
    case Elsewhere(_, _, _, _, _) => OtherTablesUpToDate(db, q, s, p);
  }

  /** At every point of the requests the period holds as many observations of the pupil as before. */
  ghost predicate NothingLate(db: Db, qs: seq<Request>, s: Student, p: Period) {
    forall k | 0 <= k <= |qs| :: |Observed(Run(db, qs[..k]), s, p)| == |Observed(db, s, p)|
  }

  lemma NothingLateFront(db: Db, qs: seq<Request>, s: Student, p: Period)
    requires NothingLate(db, qs, s, p) && qs != []
    ensures NothingLate(db, qs[..|qs| - 1], s, p)
    ensures |Observed(Run(db, qs), s, p)| == |Observed(Run(db, qs[..|qs| - 1]), s, p)|
  {
    hide Observed, Step;
    var n := |qs| - 1;
    assert qs[..|qs|] == qs;
    assert |Observed(Run(db, qs[..n + 1]), s, p)| == |Observed(Run(db, qs[..n]), s, p)|;
    forall k | 0 <= k <= n ensures qs[..n][..k] == qs[..k] { }
  }

  lemma {:induction false} RunUpToDate(db: Db, qs: seq<Request>, s: Student, p: Period)
    requires Inv(db) && s in db.students && UpToDate(db, s, p) && NothingLate(db, qs, s, p)
    ensures UpToDate(Run(db, qs), s, p) && s in Run(db, qs).students
  {
    hide Inv, UpToDate, Observed, Step, NothingLate;
    if qs != [] {
      var front := qs[..|qs| - 1];
      NothingLateFront(db, qs, s, p);
      RunUpToDate(db, front, s, p);
      SnapshotRuns.RunInv(db, front);
      StepUpToDate(Run(db, front), qs[|qs| - 1], s, p);
    }
  }

  // ── week after week ──────────────────────────────────────────────────────

  /** One weekly run with what goes wrong in it, and the requests until the next. */
  datatype Week = Week(schools: seq<nat>, down: set<nat>, faults: Faults, after: seq<Request>)

  /** The period of the run `i` weeks after the first. */
  function WeekOf(today: int, i: nat): Period {
    var w := PreviousWeek(today + 7 * i);
    Period(Weekly, w.periodStart, w.periodEnd)
  }

  function RunOf(db: Db, today: int, creator: nat, i: nat, w: Week): Db {
    AllSchools(db, w.schools, WeekOf(today, i), creator, w.down, w.faults).db
  }

  function Weeks(db: Db, today: int, creator: nat, ws: seq<Week>): Db {
    if ws == [] then db
    else
      var n := |ws| - 1;
      Run(RunOf(Weeks(db, today, creator, ws[..n]), today, creator, n, ws[n]), ws[n].after)
  }

  /** For this pupil every run works, finds the report of its week not out yet or
      complete, and afterwards nothing is recorded late for any of the weeks
      reported on. */
  ghost predicate OnTime(db: Db, today: int, creator: nat, ws: seq<Week>, s: Student) {
    ws == []
    || var n := |ws| - 1;
       var before := Weeks(db, today, creator, ws[..n]);
       && OnTime(db, today, creator, ws[..n], s)
       && Works(ws[n], s)
       && (Final(before, s.schoolPkid, s.pkid, WeekOf(today, n)) ==> UpToDate(before, s, WeekOf(today, n)))
       && forall j: nat | j <= n ::
         NothingLate(RunOf(before, today, creator, n, ws[n]), ws[n].after, s, WeekOf(today, j))
  }

  predicate Works(w: Week, s: Student) {
    Distinct(w.schools) && s.schoolPkid in w.schools && s.schoolPkid !in w.down
      && FaultOf(w.faults, s.pkid) != RolledBack
  }

  /** A run brings the report of its week up to date. */
  lemma RunReports(db: Db, today: int, creator: nat, i: nat, w: Week, s: Student)
    requires Inv(db) && s in db.students && Works(w, s)
    requires Final(db, s.schoolPkid, s.pkid, WeekOf(today, i)) ==> UpToDate(db, s, WeekOf(today, i))
    ensures var u := RunOf(db, today, creator, i, w);
      Inv(u) && u.students == db.students && UpToDate(u, s, WeekOf(today, i))
  {
    hide Inv, UpToDate, Served, AllSchools, Final, FaultOf, WeekOf;
    var p := WeekOf(today, i);
    AllSchoolsInv(db, w.schools, p, creator, w.down, w.faults);
    EveryPupilServed(db, w.schools, p, creator, w.down, w.faults, s);
    ServedUpToDate(db, RunOf(db, today, creator, i, w), s, p);
  }

  lemma {:induction false} WeeksUpToDate(db: Db, today: int, creator: nat, ws: seq<Week>, s: Student)
    requires Inv(db) && s in db.students && OnTime(db, today, creator, ws, s)
    ensures var u := Weeks(db, today, creator, ws);
      Inv(u) && s in u.students && forall j: nat | j < |ws| :: UpToDate(u, s, WeekOf(today, j))
  {
    hide Inv, UpToDate, Final, WeekOf, Works, RunOf, NothingLate, Run;
    if ws != [] {
      var n := |ws| - 1;
      var before := Weeks(db, today, creator, ws[..n]);
      WeeksUpToDate(db, today, creator, ws[..n], s);
      RunReports(before, today, creator, n, ws[n], s);
      var ran := RunOf(before, today, creator, n, ws[n]);
      SnapshotRuns.RunInv(ran, ws[n].after);
      forall j: nat | j <= n ensures UpToDate(Run(ran, ws[n].after), s, WeekOf(today, j)) {
        if j < n { OldWeeksUpToDate(before, today, creator, n, ws[n], s, WeekOf(today, j)); }
        RunUpToDate(ran, ws[n].after, s, WeekOf(today, j));
      }
      RunUpToDate(ran, ws[n].after, s, WeekOf(today, n));
    }
  }

  lemma OldWeeksUpToDate(db: Db, today: int, creator: nat, i: nat, w: Week, s: Student, p: Period)
    requires Inv(db) && s in db.students && UpToDate(db, s, p)
    ensures UpToDate(RunOf(db, today, creator, i, w), s, p)
  {
    hide Inv, UpToDate, AllSchools;
    SchoolsUpToDate(db, w.schools, WeekOf(today, i), creator, w.down, w.faults, s, p);
  }

  // ── every observation once ───────────────────────────────────────────────

  function SnapshotCount(t: Snapshot): int { t.totalObservations }

  /** What the pupil's snapshots of the first `n` weeks count together. */
  function Counted(db: Db, today: int, s: Student, n: nat): int {
    if n == 0 then 0
    else
      Counted(db, today, s, n - 1)
      + Total(SnapshotsFor(db, s.schoolPkid, s.pkid, WeekOf(today, n - 1)), SnapshotCount)
  }

  /** The pupil's observations from the first week's start over `n` weeks. */
  function Span(today: int, s: Student, n: nat): DailyReport -> bool {
    var start := PreviousWeek(today).periodStart;
    InWindow(s.schoolPkid, s.pkid, start, start + 7 * n - 1)
  }

  lemma {:induction false} WeeksFillSpan(reports: seq<DailyReport>, today: int, s: Student, n: nat)
    requires n > 0
    ensures |Filter(reports, Span(today, s, n))|
         == |Filter(reports, Span(today, s, n - 1))|
            + |Filter(reports, InWindow(s.schoolPkid, s.pkid, WeekOf(today, n - 1).start, WeekOf(today, n - 1).end))|
  {
    hide PreviousWeek;
    LaterWindow(today, n - 1);
    WindowShape(today);
    var week := InWindow(s.schoolPkid, s.pkid, WeekOf(today, n - 1).start, WeekOf(today, n - 1).end);
    FilterPartition(reports, Span(today, s, n), Span(today, s, n - 1), week);
  }

  lemma OneSnapshot(db: Db, s: Student, p: Period)
    requires Inv(db) && UpToDate(db, s, p)
    ensures var rows := SnapshotsFor(db, s.schoolPkid, s.pkid, p);
      && |rows| == 1 && rows[0].totalObservations == |Observed(db, s, p)|
      && Total(rows, SnapshotCount) == |Observed(db, s, p)|
  {
    hide Inv;
    AtMostOne(db, s.schoolPkid, s.pkid, p);
    var t :| t in db.snapshots && IsFor(t, s.schoolPkid, s.pkid, p) && t.totalObservations == |Observed(db, s, p)|;
    var rows := SnapshotsFor(db, s.schoolPkid, s.pkid, p);
    assert t in rows;
    assert rows == [t];
  }

  lemma {:induction false} CountedIsSpan(db: Db, today: int, s: Student, n: nat)
    requires Inv(db) && forall j: nat | j < n :: UpToDate(db, s, WeekOf(today, j))
    ensures Counted(db, today, s, n) == |Filter(db.reports, Span(today, s, n))|
  {
    hide Inv, UpToDate, WeekOf, Total;
    if n == 0 {
      EmptySpan(db.reports, today, s);
    } else {
      CountedIsSpan(db, today, s, n - 1);
      OneSnapshot(db, s, WeekOf(today, n - 1));
      WeeksFillSpan(db.reports, today, s, n);
    }
  }

  lemma EmptySpan(reports: seq<DailyReport>, today: int, s: Student)
    ensures Filter(reports, Span(today, s, 0)) == []
  {
    FilterNone(reports, Span(today, s, 0));
  }

  /** Over any number of weekly runs, with arbitrary requests in between but nothing
      recorded late, every week leaves the pupil exactly one report, the reports
      together count every observation of the whole span, and each observation falls
      into the week of exactly one of them. */
  lemma EachObservationReportedOnce(db: Db, today: int, creator: nat, ws: seq<Week>, s: Student)
    requires Inv(db) && s in db.students && OnTime(db, today, creator, ws, s)
    ensures var u := Weeks(db, today, creator, ws);
      && (forall j: nat | j < |ws| ::
            var rows := SnapshotsFor(u, s.schoolPkid, s.pkid, WeekOf(today, j));
            |rows| == 1 && rows[0].totalObservations == |Observed(u, s, WeekOf(today, j))|)
      && Counted(u, today, s, |ws|) == |Filter(u.reports, Span(today, s, |ws|))|
      && forall r | r in u.reports && Span(today, s, |ws|)(r) ::
           exists j: nat ::
             && j < |ws| && r in Observed(u, s, WeekOf(today, j))
             && forall k: nat | k < |ws| && r in Observed(u, s, WeekOf(today, k)) :: k == j
  {
    hide Inv, UpToDate, OnTime, Weeks, Counted, Filter;
    var u := Weeks(db, today, creator, ws);
    WeeksUpToDate(db, today, creator, ws, s);
    forall j: nat | j < |ws|
      ensures var rows := SnapshotsFor(u, s.schoolPkid, s.pkid, WeekOf(today, j));
        |rows| == 1 && rows[0].totalObservations == |Observed(u, s, WeekOf(today, j))|
    {
      OneSnapshot(u, s, WeekOf(today, j));
    }
    CountedIsSpan(u, today, s, |ws|);
    forall r | r in u.reports && Span(today, s, |ws|)(r)
      ensures exists j: nat ::
        && j < |ws| && r in Observed(u, s, WeekOf(today, j))
        && forall k: nat | k < |ws| && r in Observed(u, s, WeekOf(today, k)) :: k == j
    {
      OneWeek(u, today, s, |ws|, r);
    }
  }

  lemma OneWeek(db: Db, today: int, s: Student, n: nat, r: DailyReport)
    requires r in db.reports && Span(today, s, n)(r)
    ensures exists j: nat ::
      && j < n && r in Observed(db, s, WeekOf(today, j))
      && forall k: nat | k < n && r in Observed(db, s, WeekOf(today, k)) :: k == j
  {
    hide PreviousWeek;
    WeeklyRunsTile(today, n, r.date);
    var j: nat :| && j < n && Covers(PreviousWeek(today + 7 * j), r.date)
      && forall k: nat | k < n && Covers(PreviousWeek(today + 7 * k), r.date) :: k == j;
    assert r in Observed(db, s, WeekOf(today, j));
    forall k: nat | k < n && r in Observed(db, s, WeekOf(today, k)) ensures k == j {
      assert Covers(PreviousWeek(today + 7 * k), r.date);
    }
  }
}
