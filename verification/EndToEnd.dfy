/** Laws that span the services: walks, averages and summaries over tables that
    real requests produced. */
module EndToEnd {
  import opened Collections
  import opened Entities
  import opened Calendar
  import opened Aggregation
  import Normalisation
  import Reports = DailyReports
  import opened BulkGeneration
  import opened Snapshots
  import opened SnapshotRuns
  import opened Summaries
  import opened Timeline
  import Uuids

  // ── timeline walks while observations are written ────────────────────────

  /** Requests carry dates with a four-digit year. */
  predicate DatedOk(q: Reports.Request) { (q.Single? || q.Batch?) ==> Printable(q.date) }

  predicate Dated(t: ReportTable) { forall r | r in t.rows :: Printable(r.date) }

  lemma UpsertDated(t: ReportTable, e: Reports.Entry)
    requires Dated(t) && Printable(e.slot.date)
    ensures Dated(Reports.Upsert(t, e))
  {
    hide Printable;
  }

  lemma {:induction false} BatchDated(t: ReportTable, reg: Reports.Registry, schoolPkid: nat, a: Activity, date: int,
          items: seq<Reports.Observation>, now: int)
    requires Dated(t) && Printable(date)
    ensures Dated(Reports.BatchItems(t, reg, schoolPkid, a, date, items, now).table)
  {
    hide Printable, Dated, Reports.Upsert, Normalisation.Normalise, Normalisation.ValidateRawValue;
    if items != [] {
      var front, o := items[..|items| - 1], items[|items| - 1];
      BatchDated(t, reg, schoolPkid, a, date, front, now);
      var before := Reports.BatchItems(t, reg, schoolPkid, a, date, front, now).table;
      var s := Reports.StudentByText(reg.students, o.studentId, schoolPkid);
      if s.Some? { UpsertDated(before, Reports.EntryOf(s.value, a, schoolPkid, date, o, now)); }
    }
  }

  lemma WriteDated(t: ReportTable, reg: Reports.Registry, q: Reports.Request)
    requires Dated(t) && DatedOk(q)
    ensures Dated(Reports.Write(t, reg, q))
  {
    hide Printable, Reports.Upsert, Normalisation.Normalise, Normalisation.ValidateRawValue, Reports.BatchItems;
    hide Uuids.SameUuid;
    match q
    case Single(school, activityId, date, o, now) =>
      var a := Reports.FindActivity(reg.activities, activityId, school);
      var s := Reports.FindStudent(reg.students, o.studentId, school);
      if a.Some? && s.Some? { UpsertDated(t, Reports.EntryOf(s.value, a.value, school, date, o, now)); }
    case Batch(school, activityId, date, items, now) =>
      var a := Reports.FindActivity(reg.activities, activityId, school);
      if a.Some? { BatchDated(t, reg, school, a.value, date, items, now); }
    case Update(school, pkid, p) =>
    case Remove(school, pkid) =>
    case CreateStudent(_) =>
    case CreateActivity(_) =>
  }

  lemma {:induction false} RunDated(st: Reports.State, qs: seq<Reports.Request>)
    requires Dated(st.table) && forall q | q in qs :: DatedOk(q)
    ensures Dated(Reports.Run(st, qs).table)
  {
    hide Dated, DatedOk, Reports.Write, Reports.Enrol;
    if qs != [] {
      RunDated(st, qs[..|qs| - 1]);
      var before := Reports.Run(st, qs[..|qs| - 1]);
      WriteDated(before.table, before.registry, qs[|qs| - 1]);
    }
  }

  /** The table at each page of a walk: `writes[i]` are the requests served
      between page i and page i + 1. */
  function TablesSeen(st: Reports.State, writes: seq<seq<Reports.Request>>): (ts: seq<ReportTable>)
    ensures |ts| == |writes| + 1 && ts[0] == st.table
    decreases |writes|
  {
    if writes == [] then [st.table] else [st.table] + TablesSeen(Reports.Run(st, writes[0]), writes[1..])
  }

  lemma {:induction false} SeenEvolve(st: Reports.State, writes: seq<seq<Reports.Request>>)
    requires Reports.StateInv(st) && Dated(st.table)
    requires forall qs, q | qs in writes && q in qs :: DatedOk(q)
    ensures Evolution(TablesSeen(st, writes))
    decreases |writes|
  {
    hide Evolves, Reports.Run, DatedOk, Reports.Derived, Reports.Enrolled, Reports.OneRowPerSlot, Reports.ValidRegistry;
    var ts := TablesSeen(st, writes);
    if writes != [] {
      var later := Reports.Run(st, writes[0]);
      Reports.RunInv(st, writes[0]);
      RunDated(st, writes[0]);
      SeenEvolve(later, writes[1..]);
      assert ts == [st.table] + TablesSeen(later, writes[1..]);
    }
  }

  /** A parent pages through the timeline while teachers record, correct, hide
      and delete observations, and pupils and activities are added, between the
      pages: nothing comes twice or out of order, and what stays visible
      throughout a finished walk comes exactly once. */
  lemma WalkUnderWrites(st: Reports.State, writes: seq<seq<Reports.Request>>, q: Query, pkid: nat)
    requires Reports.StateInv(st) && Dated(st.table) && q.pageSize > 0
    requires forall qs, r | qs in writes && r in qs :: DatedOk(r)
    ensures Evolution(TablesSeen(st, writes))
    ensures var items := Items(Walk(TablesSeen(st, writes), q, None));
      StrictlyDescending(items) && forall i, j | 0 <= i < j < |items| :: items[i].pkid != items[j].pkid
    ensures var ts := TablesSeen(st, writes); var walk := Walk(ts, q, None);
      Finished(walk) && AlwaysInFeed(ts[..|walk|], q, pkid)
      ==> exists i :: 0 <= i < |Items(walk)| && Items(walk)[i].pkid == pkid
  {
    hide Walk, AlwaysInFeed, Items, Reports.StateInv, Dated, DatedOk, Evolves, Printable;
    SeenEvolve(st, writes);
    var ts := TablesSeen(st, writes);
    var walk := Walk(ts, q, None);
    WalkDescends(ts, q, None, None);
    forall i, j | 0 <= i < j < |Items(walk)| ensures Items(walk)[i].pkid != Items(walk)[j].pkid {
      WalkNoDuplicates(ts, q, i, j);
    }
    if Finished(walk) && AlwaysInFeed(ts[..|walk|], q, pkid) { WalkComplete(ts, q, pkid); }
  }

  // ── scores on the scale, from raw value to snapshot ──────────────────────

  /** Every recorded score is on the 0-100 scale, so are all averages over them. */
  lemma RecordedScoresOnScale(st: Reports.State, qs: seq<Reports.Request>)
    requires Reports.StateInv(st)
    ensures forall r | r in Reports.Run(st, qs).table.rows :: r.normalisedScore.Some? && OnScale(r.normalisedScore)
  {
    hide Normalisation.Normalise, Normalisation.ValidateRawValue, Reports.ValidRegistry, Reports.Run;
    Reports.RunInv(st, qs);
    var later := Reports.Run(st, qs);
    forall r | r in later.table.rows ensures r.normalisedScore.Some? && OnScale(r.normalisedScore) {
      var a :| a in later.registry.activities && r.normalisedScore == Some(Normalisation.Normalise(r.rawValue, a));
      Normalisation.NormaliseOnScale(r.rawValue, a);
    }
  }

  predicate ReportsOnScale(reports: seq<DailyReport>) { forall r | r in reports :: OnScale(r.normalisedScore) }

  predicate ItemOnScale(it: Item) { OnScale(it.averageScore) && OnScale(it.firstScore) && OnScale(it.lastScore) }

  /** Observations, snapshots and items all carry scores on the scale. */
  predicate DbOnScale(db: Db) {
    && ReportsOnScale(db.reports)
    && (forall s | s in db.snapshots :: OnScale(s.overallScore))
    && (forall it | it in db.items :: ItemOnScale(it))
  }

  lemma StoredOnScale(figure: Option<real>)
    requires OnScale(figure)
    ensures OnScale(Stored(figure))
  {
    if figure.Some? {
      Normalisation.Round2Monotone(0.0, figure.value);
      Normalisation.Round2Monotone(figure.value, 100.0);
      assert (0.0 * 100.0 + 0.5).Floor == 0 && (100.0 * 100.0 + 0.5).Floor == 10000;
    }
  }

  lemma {:induction false} BuiltOnScale(id: nat, aggs: seq<ActivityAggregation>)
    requires forall a | a in aggs :: OnScale(a.averageScore) && OnScale(a.firstScore) && OnScale(a.lastScore)
    ensures forall it | it in BuildItems(id, aggs) :: ItemOnScale(it)
  {
    hide OnScale, Stored;
    if aggs != [] {
      var front, last := aggs[..|aggs| - 1], aggs[|aggs| - 1];
      assert aggs == front + [last];
      BuiltOnScale(id, front);
      StoredOnScale(last.averageScore);
      StoredOnScale(last.firstScore);
      StoredOnScale(last.lastScore);
    }
  }

  lemma GenerateOnScale(db: Db, student: Student, schoolPkid: nat, p: Period, creator: nat, fault: Fault)
    requires DbOnScale(db)
    ensures DbOnScale(Generate(db, student, schoolPkid, p, creator, fault).db)
  {
    hide PeriodAggregations, OnScale, ItemOnScale, BuildItems, Stored, ComputeOverallScore;
    PeriodOnScale(db.reports, db.curriculum, schoolPkid, student.pkid, p.start, p.end);
    var base := Cleared(db, schoolPkid, student.pkid, p);
    var aggs := PeriodAggregations(db.reports, db.curriculum, schoolPkid, student.pkid, p.start, p.end);
    StoredOnScale(ComputeOverallScore(aggs));
    BuiltOnScale(base.nextId, aggs);
  }

  lemma {:induction false} BulkOnScale(db: Db, pupils: seq<Student>, schoolPkid: nat, p: Period, creator: nat,
          faults: Faults)
    requires DbOnScale(db)
    ensures DbOnScale(Bulk(db, pupils, schoolPkid, p, creator, faults).db)
  {
    hide DbOnScale, Generate;
    if pupils != [] {
      var front, last := pupils[..|pupils| - 1], pupils[|pupils| - 1];
      BulkOnScale(db, front, schoolPkid, p, creator, faults);
      GenerateOnScale(Bulk(db, front, schoolPkid, p, creator, faults).db, last, schoolPkid, p, creator,
        FaultOf(faults, last.pkid));
    }
  }

  predicate RequestOnScale(q: SnapshotRuns.Request) { q.Elsewhere? ==> ReportsOnScale(q.reports) }

  lemma StepOnScale(db: Db, q: SnapshotRuns.Request)
    requires DbOnScale(db) && RequestOnScale(q)
    ensures DbOnScale(SnapshotRuns.Step(db, q))
  {
    hide OnScale, ItemOnScale, Generate, Bulk, ReportsOnScale;
    match q
    case GenerateOne(pkid, school, p, creator, fault) =>
      var s := StudentByPkid(db.students, pkid, school);
      if s.Some? { GenerateOnScale(db, s.value, school, p, creator, fault); }
    case GenerateAll(school, p, creator, faults) =>
      BulkOnScale(db, Filter(db.students, InSchool(school)), school, p, creator, faults);
    case ReviewOne(_, _, _, _, _) =>
    case PublishOne(_, _, _, _) =>
    case SendOne(_, _, _, _) =>
    case ReadOne(_, _, _, _) =>
    case Elsewhere(_, _, _, _, _) =>
  }

  /** In every reachable state every figure of every report is on the 0-100
      scale, as long as the observations are. */
  lemma {:induction false} SnapshotsOnScale(db: Db, qs: seq<SnapshotRuns.Request>)
    requires DbOnScale(db) && forall q | q in qs :: RequestOnScale(q)
    ensures DbOnScale(SnapshotRuns.Run(db, qs))
  {
    hide DbOnScale, SnapshotRuns.Step, RequestOnScale;
    if qs != [] {
      SnapshotsOnScale(db, qs[..|qs| - 1]);
      StepOnScale(SnapshotRuns.Run(db, qs[..|qs| - 1]), qs[|qs| - 1]);
    }
  }

  // ── from observations to report items ────────────────────────────────────

  /** The item tells exactly the observations `b`, oldest first. */
  ghost predicate Tells(it: Item, b: seq<DailyReport>, cur: Curriculum) {
    && b != [] && SortedBy(b, Chronological)
    && it.activityName == NameOf(cur, it.activityPkid)
    && it.learningAreaName == PrimaryArea(cur.areaRows, it.activityPkid)
    && it.observationCount == |b| && it.latestRawValue == b[|b| - 1].rawValue
    && it.averageScore == Stored(MeanOf(b, ScoreOf))
    && it.firstScore == Stored(FirstGiven(b, ScoreOf)) && it.lastScore == Stored(LastGiven(b, ScoreOf))
    && exists scores :: Lists(b, ScoreOf, scores) && HalvesTell(scores, it.trend)
  }

  lemma {:induction false} BuiltFrom(id: nat, aggs: seq<ActivityAggregation>, it: Item)
    requires it in BuildItems(id, aggs)
    ensures exists a :: a in aggs && it == BuildItem(id, a)
  {
    var front, last := aggs[..|aggs| - 1], aggs[|aggs| - 1];
    assert aggs == front + [last];
    if it in BuildItems(id, front) { BuiltFrom(id, front, it); }
  }

  lemma ItemTells(id: nat, a: ActivityAggregation, b: seq<DailyReport>, cur: Curriculum)
    requires Describes(a, b)
    requires a.activityName == NameOf(cur, a.activityPkid)
    requires a.learningAreaName == PrimaryArea(cur.areaRows, a.activityPkid)
    ensures Tells(BuildItem(id, a), b, cur)
  {
    hide SortedBy, HalvesTell, Lists, MeanOf, Filter, Normalisation.Round2;
  }

  /** From observation to report: every item of a freshly generated report tells,
      in chronological order, exactly the student's observations of its activity
      in the period, each once. */
  lemma ItemsTellThePeriod(db: Db, student: Student, p: Period, creator: nat, it: Item)
    requires Inv(db) && student in db.students
    requires var out := Generate(db, student, student.schoolPkid, p, creator, NoFault);
      out.result.Ok? && it in ItemsOf(out.db.items, out.result.value)
    ensures exists b ::
      var wanted := OfActivity(student.schoolPkid, student.pkid, it.activityPkid, p.start, p.end);
      Tells(it, b, db.curriculum) && multiset(b) == multiset(Filter(db.reports, wanted))
  {
    hide PeriodAggregations, Tells, Describes, ItemsOf, OfActivity, Inv, RemoveSnapshot;
    var school := student.schoolPkid;
    var aggs := PeriodAggregations(db.reports, db.curriculum, school, student.pkid, p.start, p.end);
    var i := PeriodIndex(db.snapshots, school, student.pkid, p);
    var base := Cleared(db, school, student.pkid, p);
    if i < |db.snapshots| { RemoveInv(db, db.snapshots[i]); }
    InvParts(base);
    ClearedNext(db, school, student.pkid, p);
    DraftItems(base, aggs, base.nextId);
    BuiltFrom(base.nextId, aggs, it);
    var a :| a in aggs && it == BuildItem(base.nextId, a);
    PeriodIsFaithful(db.reports, db.curriculum, school, student.pkid, p.start, p.end, a);
    var b :| Describes(a, b) && multiset(b)
      == multiset(Filter(db.reports, OfActivity(school, student.pkid, a.activityPkid, p.start, p.end)));
    ItemTells(base.nextId, a, b, db.curriculum);
  }

  lemma ClearedNext(db: Db, schoolPkid: nat, studentPkid: nat, p: Period)
    ensures var base := Cleared(db, schoolPkid, studentPkid, p); base.nextId == db.nextId && base.reports == db.reports
  {
  }

  /** The part of the period an item is about, oldest first. */
  ghost predicate PartOf(db: Db, student: Student, p: Period, it: Item, b: seq<DailyReport>) {
    && Tells(it, b, db.curriculum)
    && multiset(b)
       == multiset(Filter(db.reports, OfActivity(student.schoolPkid, student.pkid, it.activityPkid, p.start, p.end)))
  }

  /** The mean of the scores of one activity's observations. */
  function PartMean(b: seq<DailyReport>): Option<real> { MeanOf(b, ScoreOf) }

  lemma {:induction false} PartsOf(db: Db, student: Student, p: Period, id: nat, aggs: seq<ActivityAggregation>)
    returns (parts: seq<seq<DailyReport>>)
    requires forall a | a in aggs ::
      a in PeriodAggregations(db.reports, db.curriculum, student.schoolPkid, student.pkid, p.start, p.end)
    ensures |parts| == |aggs|
    ensures forall i | 0 <= i < |aggs| ::
      PartOf(db, student, p, BuildItems(id, aggs)[i], parts[i]) && PartMean(parts[i]) == aggs[i].averageScore
  {
    hide PeriodAggregations, Describes, Tells, OfActivity, Filter, BuildItem, MeanOf, PartOf;
    parts := [];
    if aggs != [] {
      var front, a := aggs[..|aggs| - 1], aggs[|aggs| - 1];
      parts := PartsOf(db, student, p, id, front);
      assert a in aggs;
      var b := OnePart(db, student, p, id, a);
      parts := parts + [b];
    }
  }

  lemma OnePart(db: Db, student: Student, p: Period, id: nat, a: ActivityAggregation) returns (b: seq<DailyReport>)
    requires a in PeriodAggregations(db.reports, db.curriculum, student.schoolPkid, student.pkid, p.start, p.end)
    ensures PartOf(db, student, p, BuildItem(id, a), b) && PartMean(b) == a.averageScore
  {
    hide PeriodAggregations, Tells, OfActivity, Filter, MeanOf, Lists, HalvesTell, SortedBy;
    PeriodIsFaithful(db.reports, db.curriculum, student.schoolPkid, student.pkid, p.start, p.end, a);
    b :| Describes(a, b) && multiset(b)
      == multiset(Filter(db.reports, OfActivity(student.schoolPkid, student.pkid, a.activityPkid, p.start, p.end)));
    ItemTells(id, a, b, db.curriculum);
  }

  /** Rows with the same values have the same mean. */
  lemma {:induction false} SameMean<T, U>(rows: seq<T>, f: T -> Option<real>, others: seq<U>, g: U -> Option<real>)
    requires |rows| == |others| && forall i | 0 <= i < |rows| :: f(rows[i]) == g(others[i])
    ensures |Filter(rows, Has(f))| == |Filter(others, Has(g))| && SumOf(rows, f) == SumOf(others, g)
    ensures MeanOf(rows, f) == MeanOf(others, g)
  {
    if rows != [] { SameMean(rows[1..], f, others[1..], g); }
  }

  lemma ItemTrendsOf(id: nat, aggs: seq<ActivityAggregation>)
    ensures ItemTrends(BuildItems(id, aggs)) == TrendsOf(aggs)
  {
    BuiltAt(id, aggs);
  }

  lemma {:induction false} BuiltAt(id: nat, aggs: seq<ActivityAggregation>)
    ensures forall i | 0 <= i < |aggs| :: BuildItems(id, aggs)[i] == BuildItem(id, aggs[i])
  {
    hide BuildItem;
    if aggs != [] { BuiltAt(id, aggs[..|aggs| - 1]); }
  }

  function ItemBefore(rank: string -> real): (Item, Item) -> bool {
    (a: Item, b: Item) =>
      rank(SortArea(a)) < rank(SortArea(b))
      || (rank(SortArea(a)) == rank(SortArea(b)) && rank(a.activityName) <= rank(b.activityName))
  }

  /** Items without a learning area come where an area called zzz would. */
  function SortArea(it: Item): string { match it.learningAreaName case Some(name) => name case None => "zzz" }

  /** One item for each activity observed in the period, by area and name. */
  ghost predicate ItemsListed(db: Db, student: Student, p: Period, items: seq<Item>) {
    && (forall r | r in db.reports && InWindow(student.schoolPkid, student.pkid, p.start, p.end)(r) ::
          exists it :: it in items && it.activityPkid == r.activityPkid)
    && (forall i, j | 0 <= i < j < |items| :: items[i].activityPkid != items[j].activityPkid)
    && SortedBy(items, ItemBefore(db.curriculum.rank))
  }

  /** A report's figures and items, in terms of the observations: it counts those
      of the period; each item tells its part of them; the overall score is the
      mean of the parts' means, stored to two decimals; the trend is the vote of
      the items. */
  ghost predicate FiguresTold(db: Db, student: Student, p: Period, s: Snapshot, items: seq<Item>) {
    && s.totalObservations
       == |Filter(db.reports, InWindow(student.schoolPkid, student.pkid, p.start, p.end))|
    && Voted(ItemTrends(items), s.trend)
    && exists parts: seq<seq<DailyReport>> ::
         && |parts| == |items| && (forall i | 0 <= i < |items| :: PartOf(db, student, p, items[i], parts[i]))
         && s.overallScore == Stored(MeanOf(parts, PartMean))
  }

  function AggsOf(db: Db, student: Student, p: Period): seq<ActivityAggregation> {
    PeriodAggregations(db.reports, db.curriculum, student.schoolPkid, student.pkid, p.start, p.end)
  }

  lemma SameSortArea(id: nat, a: ActivityAggregation)
    ensures SortArea(BuildItem(id, a)) == AreaSortKey(a)
  {
  }

  lemma BuiltBefore(id: nat, a: ActivityAggregation, b: ActivityAggregation, rank: string -> real)
    requires ByAreaThenName(rank)(a, b)
    ensures ItemBefore(rank)(BuildItem(id, a), BuildItem(id, b))
  {
    SameSortArea(id, a);
    SameSortArea(id, b);
    hide SortArea, AreaSortKey;
  }

  lemma AggregationsListed(db: Db, student: Student, p: Period, id: nat)
    ensures ItemsListed(db, student, p, BuildItems(id, AggsOf(db, student, p)))
  {
    hide PeriodAggregations, BuildItems, ItemBefore, ByAreaThenName;
    var aggs, wanted := AggsOf(db, student, p), InWindow(student.schoolPkid, student.pkid, p.start, p.end);
    var items := BuildItems(id, aggs);
    BuiltAt(id, aggs);
    forall r | r in db.reports && wanted(r) ensures exists it :: it in items && it.activityPkid == r.activityPkid {
      PeriodListsActivities(db.reports, db.curriculum, student.schoolPkid, student.pkid, p.start, p.end, r);
      var i :| 0 <= i < |aggs| && aggs[i].activityPkid == r.activityPkid;
      assert items[i] in items;
    }
    PeriodInOrder(db.reports, db.curriculum, student.schoolPkid, student.pkid, p.start, p.end);
    forall i, j | 0 <= i < j < |items| ensures ItemBefore(db.curriculum.rank)(items[i], items[j]) {
      BuiltBefore(id, aggs[i], aggs[j], db.curriculum.rank);
    }
  }

  lemma AggregationsTold(db: Db, student: Student, p: Period, s: Snapshot, id: nat)
    requires s.totalObservations == TotalObservations(AggsOf(db, student, p))
    requires s.overallScore == Stored(ComputeOverallScore(AggsOf(db, student, p)))
    requires s.trend == ComputeOverallTrend(AggsOf(db, student, p))
    ensures FiguresTold(db, student, p, s, BuildItems(id, AggsOf(db, student, p)))
  {
    hide PeriodAggregations, Filter, PartOf, MeanOf, Voted, TotalObservations, Stored, ComputeOverallScore, BuildItems;
    var aggs := AggsOf(db, student, p);
    PeriodConserves(db.reports, db.curriculum, student.schoolPkid, student.pkid, p.start, p.end);
    ItemTrendsOf(id, aggs);
    MajorityByCounts(TrendsOf(aggs));
    var parts := PartsOf(db, student, p, id, aggs);
    OverallIsMean(aggs);
    SameMean(aggs, AverageOf, parts, PartMean);
  }

  /** From observations to a whole report: a generation that succeeds leaves one
      report of the student and period, a draft nobody has touched, whose figures
      and items tell exactly the observations of the period. */
  lemma ReportTellsThePeriod(db: Db, student: Student, p: Period, creator: nat)
    requires Inv(db) && student in db.students && !Final(db, student.schoolPkid, student.pkid, p)
    ensures var out := Generate(db, student, student.schoolPkid, p, creator, NoFault);
      && out.result.Ok? && out.db.reports == db.reports
      && exists s :: SnapshotsFor(out.db, student.schoolPkid, student.pkid, p) == [s]
           && s == Snapshot(out.result.value, student.schoolPkid, student.pkid, p, s.totalObservations, s.overallScore,
             s.trend, Draft, None, None, None, None, None, creator, None)
           && ItemsListed(db, student, p, ItemsOf(out.db.items, s.id))
           && FiguresTold(db, student, p, s, ItemsOf(out.db.items, s.id))
  {
    hide Inv, PeriodAggregations, ItemsListed, FiguresTold, ItemsOf, BuildItems, RemoveSnapshot, Filter, Final;
    hide TotalObservations, ComputeOverallScore, ComputeOverallTrend, Stored;
    var school := student.schoolPkid;
    var aggs := PeriodAggregations(db.reports, db.curriculum, school, student.pkid, p.start, p.end);
    var i, base := PeriodIndex(db.snapshots, school, student.pkid, p), Cleared(db, school, student.pkid, p);
    FinalIsFirst(db, school, student.pkid, p);
    if i < |db.snapshots| { RemoveInv(db, db.snapshots[i]); }
    ClearedKey(db, student, p);
    InvParts(base);
    ClearedNext(db, school, student.pkid, p);
    var s := NewSnapshot(base.nextId, student, school, p, aggs, creator);
    FilterNone(base.snapshots, ForKey(school, student.pkid, p));
    FilterConcat(base.snapshots, [s], ForKey(school, student.pkid, p));
    FilterAll([s], ForKey(school, student.pkid, p));
    DraftItems(base, aggs, base.nextId);
    AggregationsListed(db, student, p, s.id);
    AggregationsTold(db, student, p, s, s.id);
  }

  // ── the admin summary over recorded observations ─────────────────────────

  /** Over observations that requests recorded, the admin summary counts every
      pupil once and agrees with the pupils' own reports. */
  lemma SummaryOverRecorded(st: Reports.State, qs: seq<Reports.Request>, db: Db, schoolPkid: nat, from: int, to: int)
    requires Reports.StateInv(st)
    requires var later := Reports.Run(st, qs);
      db.reports == later.table.rows && db.students == later.registry.students
    ensures var s := AdminSummary(db, schoolPkid, from, to);
      && s.activeStudents + |s.studentsWithNoActivity| == s.totalStudents
      && PupilTotals(db, schoolPkid, Filter(db.students, InSchool(schoolPkid)), from, to) == s.totalObservations
  {
    hide AdminSummary, PupilTotals, Reports.Run, Filter;
    Reports.RunInv(st, qs);
    var later := Reports.Run(st, qs);
    forall r | r in db.reports
      ensures exists s :: s in db.students && s.pkid == r.studentPkid && s.schoolPkid == r.schoolPkid
    {
      assert Reports.Enrolled(later.registry, r);
    }
    EveryPupilCounted(db, schoolPkid, from, to);
    PupilsAddUpToSchool(db, schoolPkid, from, to);
  }
}
