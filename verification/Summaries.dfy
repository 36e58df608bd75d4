/** The views computed from observations and snapshot items: learning-area
    rollups of a report and the admin weekly summary. Every one of them counts
    each observation exactly once. */
module Summaries {
  import opened Collections
  import opened Entities
  import opened DecimalText
  import opened Aggregation
  import opened Snapshots
  import opened SnapshotRuns
  import opened BulkGeneration

  datatype Band = Excellent | Good | Developing | NeedsSupport

  function ScoreToBand(score: Option<real>): Option<Band> {
    if score.None? then None
    else if score.value >= 80.0 then Some(Excellent)
    else if score.value >= 60.0 then Some(Good)
    else if score.value >= 40.0 then Some(Developing)
    else Some(NeedsSupport)
  }

  const UNCATEGORISED := "Uncategorised"

  function AreaName(name: Option<string>): string {
    if name.Some? then name.value else UNCATEGORISED
  }

  // ── learning-area rollups of a report ────────────────────────────────────

  datatype Rollup = Rollup(
    areaName: string, activityCount: nat, totalObservations: int,
    averageScore: Option<real>, trend: Option<Trend>, band: Option<Band>)

  function AreaOfItem(it: Item): string { AreaName(it.learningAreaName) }

  function AverageOfItem(it: Item): Option<real> { it.averageScore }

  function ItemTrends(items: seq<Item>): seq<Option<Trend>> {
    seq(|items|, i requires 0 <= i < |items| => items[i].trend)
  }

  function RollupOf(name: string, items: seq<Item>): Rollup {
    var average := Avg(Values(items, AverageOfItem));
    Rollup(name, |items|, Total(items, ItemCount), average, MajorityTrend(ItemTrends(items)), ScoreToBand(average))
  }

  function RollupsFor(items: seq<Item>, areas: seq<string>): (r: seq<Rollup>)
    ensures |r| == |areas|
  {
    if areas == [] then []
    else RollupsFor(items, areas[..|areas| - 1])
         + [RollupOf(areas[|areas| - 1], Bucket(items, AreaOfItem, areas[|areas| - 1]))]
  }

  /** One rollup per area, in order of first appearance. */
  function Rollups(items: seq<Item>): seq<Rollup> { RollupsFor(items, KeysOf(items, AreaOfItem)) }

  method ComputeLearningAreaRollups(items: seq<Item>) returns (rollups: seq<Rollup>)
    ensures rollups == Rollups(items)
  {
    hide Bucket, KeysOf, RollupOf;
    var order, byArea := GroupBy(items, AreaOfItem);
    rollups := [];
    for i := 0 to |order|
      invariant rollups == RollupsFor(items, order[..i])
    {
      assert order[..i + 1][..i] == order[..i];
      rollups := rollups + [RollupOf(order[i], byArea[order[i]])];
    }
    assert order[..|order|] == order;
  }

  function RollupCount(r: Rollup): int { r.totalObservations }

  function RollupActivities(r: Rollup): int { r.activityCount }

  function OneItem(it: Item): int { 1 }

  lemma {:induction false} TotalOneItem(items: seq<Item>)
    ensures Total(items, OneItem) == |items|
  {
    if items != [] { TotalOneItem(items[..|items| - 1]); }
  }

  lemma {:induction false} RollupTotals(items: seq<Item>, areas: seq<string>)
    ensures Total(RollupsFor(items, areas), RollupCount) == GroupedTotal(items, AreaOfItem, areas, ItemCount)
    ensures Total(RollupsFor(items, areas), RollupActivities) == GroupedTotal(items, AreaOfItem, areas, OneItem)
  {
    if areas != [] {
      var front := areas[..|areas| - 1];
      RollupTotals(items, front);
      var r := RollupsFor(items, areas);
      assert r[..|r| - 1] == RollupsFor(items, front);
      TotalOneItem(Bucket(items, AreaOfItem, areas[|areas| - 1]));
    }
  }

  lemma {:induction false} RollupAt(items: seq<Item>, areas: seq<string>, i: nat)
    requires i < |areas|
    ensures RollupsFor(items, areas)[i] == RollupOf(areas[i], Bucket(items, AreaOfItem, areas[i]))
  {
    if i < |areas| - 1 { RollupAt(items, areas[..|areas| - 1], i); }
  }

  /** The rollups of a report's items count every activity and every observation
      once, list no area twice and leave none out. */
  lemma RollupsConserve(items: seq<Item>)
    ensures Total(Rollups(items), RollupCount) == Total(items, ItemCount)
    ensures Total(Rollups(items), RollupActivities) == |items|
    ensures forall i, j | 0 <= i < j < |Rollups(items)| :: Rollups(items)[i].areaName != Rollups(items)[j].areaName
    ensures forall it | it in items ::
      exists i :: 0 <= i < |Rollups(items)| && Rollups(items)[i].areaName == AreaOfItem(it)
  {
    hide RollupsFor, GroupedTotal, Total, KeysOf, Bucket;
    var areas := KeysOf(items, AreaOfItem);
    forall i | 0 <= i < |areas| ensures Rollups(items)[i].areaName == areas[i] { RollupAt(items, areas, i); }
    forall it | it in items
      ensures exists i :: 0 <= i < |Rollups(items)| && Rollups(items)[i].areaName == AreaOfItem(it)
    {
      KeysCover(items, AreaOfItem, it);
      var i :| 0 <= i < |areas| && areas[i] == AreaOfItem(it);
      assert Rollups(items)[i].areaName == AreaOfItem(it);
    }
    RollupTotals(items, KeysOf(items, AreaOfItem));
    GroupingConserves(items, AreaOfItem, ItemCount);
    GroupingConserves(items, AreaOfItem, OneItem);
    TotalOneItem(items);
    KeysDistinct(items, AreaOfItem);
  }

  /** In every reachable state the rollups a report shows add up to its headline count. */
  lemma HeadlineMatchesRollups(db: Db, s: Snapshot)
    requires Inv(db) && s in db.snapshots
    ensures Total(Rollups(ItemsOf(db.items, s.id)), RollupCount) == s.totalObservations
  {
    hide Rollups, ItemsOf, RowsOk, ReceiptsOk, EventsOk;
    RollupsConserve(ItemsOf(db.items, s.id));
  }

  lemma {:induction false} RollupDescribes(items: seq<Item>, areas: seq<string>, r: Rollup)
    requires r in RollupsFor(items, areas)
    ensures r.areaName in areas && r == RollupOf(r.areaName, Bucket(items, AreaOfItem, r.areaName))
  {
    hide Bucket, MajorityTrend, Avg, Total, ScoreToBand;
    if r in RollupsFor(items, areas[..|areas| - 1]) { RollupDescribes(items, areas[..|areas| - 1], r); }
  }

  function OfArea(name: string): Item -> bool { (it: Item) => AreaOfItem(it) == name }

  /** The bands are steps of twenty points, the lowest open downwards. */
  predicate Banded(score: Option<real>, band: Option<Band>) {
    match band
    case None => score.None?
    case Some(Excellent) => score.Some? && 80.0 <= score.value
    case Some(Good) => score.Some? && 60.0 <= score.value < 80.0
    case Some(Developing) => score.Some? && 40.0 <= score.value < 60.0
    case Some(NeedsSupport) => score.Some? && score.value < 40.0
  }

  lemma BandsCover(score: Option<real>)
    ensures Banded(score, ScoreToBand(score))
  {
  }

  /** A rollup summarises exactly the items of its area: how many there are, what
      they count, the mean of their averages with its band, and the majority of
      their trends; its average stays on the scale when theirs do. */
  lemma RollupIsFaithful(items: seq<Item>, r: Rollup)
    requires r in Rollups(items)
    ensures var b := Filter(items, OfArea(r.areaName));
      && r.activityCount == |b| && r.totalObservations == Total(b, ItemCount)
      && r.averageScore == MeanOf(b, AverageOfItem) && Banded(r.averageScore, r.band)
      && Voted(ItemTrends(b), r.trend)
    ensures (forall it | it in items :: OnScale(it.averageScore)) ==> OnScale(r.averageScore)
  {
    hide MajorityTrend, Filter, Bucket, KeysOf, RollupsFor, Values, MeanOf, Voted, Total, ScoreToBand, Banded, Sum;
    var b := Filter(items, OfArea(r.areaName));
    RollupDescribes(items, KeysOf(items, AreaOfItem), r);
    BucketIsFilter(items, AreaOfItem, r.areaName, OfArea(r.areaName));
    AverageIsMean(b, AverageOfItem);
    BandsCover(r.averageScore);
    MajorityByCounts(ItemTrends(b));
    if (forall it | it in items :: OnScale(it.averageScore)) && Values(b, AverageOfItem) != [] {
      AvgBetween(Values(b, AverageOfItem), 0.0, 100.0);
    }
  }

  // ── items by snapshot ────────────────────────────────────────────────────

  /** An item row whose snapshot relation may not have been loaded. */
  datatype LoadedItem = LoadedItem(snapshot: Option<nat>, item: Item)

  function LoadedFor(id: nat): LoadedItem -> bool { (l: LoadedItem) => l.snapshot == Some(id) }

  lemma FilterAppend<T>(s: seq<T>, x: T, p: T -> bool)
    ensures Filter(s + [x], p) == Filter(s, p) + if p(x) then [x] else []
  {
    FilterConcat(s, [x], p);
  }

  /** The buckets after some rows: an id has one exactly when a row names it. */
  ghost predicate Grouped(items: seq<LoadedItem>, grouped: map<nat, seq<LoadedItem>>) {
    forall id: nat ::
      if id in grouped then grouped[id] == Filter(items, LoadedFor(id)) && grouped[id] != []
      else Filter(items, LoadedFor(id)) == []
  }

  lemma GroupOne(items: seq<LoadedItem>, l: LoadedItem, grouped: map<nat, seq<LoadedItem>>)
    requires Grouped(items, grouped)
    ensures l.snapshot.None? ==> Grouped(items + [l], grouped)
    ensures l.snapshot.Some? ==>
      var id := l.snapshot.value;
      Grouped(items + [l], grouped[id := (if id in grouped then grouped[id] else []) + [l]])
  {
    hide Filter;
    forall id: nat
      ensures Filter(items + [l], LoadedFor(id))
           == Filter(items, LoadedFor(id)) + if l.snapshot == Some(id) then [l] else []
    {
      FilterAppend(items, l, LoadedFor(id));
    }
  }

  lemma GroupedMeans(items: seq<LoadedItem>, grouped: map<nat, seq<LoadedItem>>)
    requires Grouped(items, grouped)
    ensures forall id: nat :: id in grouped <==> exists l :: l in items && l.snapshot == Some(id)
    ensures forall id | id in grouped :: grouped[id] == Filter(items, LoadedFor(id))
  {
    forall id: nat ensures id in grouped <==> exists l :: l in items && l.snapshot == Some(id) {
      if id in grouped { assert grouped[id][0] in Filter(items, LoadedFor(id)); }
      if l :| l in items && l.snapshot == Some(id) { assert l in Filter(items, LoadedFor(id)); }
    }
  }

  method GroupSnapshotItems(items: seq<LoadedItem>) returns (grouped: map<nat, seq<LoadedItem>>)
    ensures forall id: nat :: id in grouped <==> exists l :: l in items && l.snapshot == Some(id)
    ensures forall id | id in grouped :: grouped[id] == Filter(items, LoadedFor(id))
  {
    grouped := map[];
    assert Grouped([], grouped);
    hide Grouped, Filter;
    for i := 0 to |items|
      invariant Grouped(items[..i], grouped)
    {
      var l := items[i];
      assert items[..i + 1] == items[..i] + [l];
      GroupOne(items[..i], l, grouped);
      if l.snapshot.Some? {
        var id := l.snapshot.value;
        grouped := grouped[id := (if id in grouped then grouped[id] else []) + [l]];
      }
    }
    assert items[..|items|] == items;
    GroupedMeans(items, grouped);
  }

  // ── admin weekly summary ─────────────────────────────────────────────────

  datatype ActivityBreakdown = ActivityBreakdown(
    activityPkid: nat, activityName: string, learningAreaName: Option<string>,
    observationCount: nat, averageScore: Option<real>, band: Option<Band>)

  datatype AreaBreakdown = AreaBreakdown(
    learningAreaName: string, observationCount: int, averageScore: Option<real>, band: Option<Band>)

  datatype Summary = Summary(
    totalObservations: nat, activeStudents: nat, totalStudents: nat, coveragePercent: int,
    studentsWithNoActivity: seq<Student>, byLearningArea: seq<AreaBreakdown>, byActivity: seq<ActivityBreakdown>)

  function InSchoolWindow(schoolPkid: nat, from: int, to: int): DailyReport -> bool {
    (r: DailyReport) => r.schoolPkid == schoolPkid && from <= r.date <= to
  }

  function StudentOf(r: DailyReport): nat { r.studentPkid }

  function Unobserved(observed: seq<nat>): Student -> bool { (s: Student) => s.pkid !in observed }

  function BreakdownOf(rows: seq<DailyReport>, k: nat, cur: Curriculum): ActivityBreakdown {
    var b := Bucket(rows, ActivityOf, k);
    var average := Avg(Values(b, ScoreOf));
    ActivityBreakdown(k, NameOf(cur, k), PrimaryArea(cur.areaRows, k), |b|, average, ScoreToBand(average))
  }

  function Breakdowns(rows: seq<DailyReport>, ks: seq<nat>, cur: Curriculum): (r: seq<ActivityBreakdown>)
    ensures |r| == |ks|
  {
    if ks == [] then [] else Breakdowns(rows, ks[..|ks| - 1], cur) + [BreakdownOf(rows, ks[|ks| - 1], cur)]
  }

  function ByName(rank: string -> real): (ActivityBreakdown, ActivityBreakdown) -> bool {
    (a: ActivityBreakdown, b: ActivityBreakdown) => rank(a.activityName) <= rank(b.activityName)
  }

  function ByAreaName(rank: string -> real): (AreaBreakdown, AreaBreakdown) -> bool {
    (a: AreaBreakdown, b: AreaBreakdown) => rank(a.learningAreaName) <= rank(b.learningAreaName)
  }

  function AreaOfBreakdown(a: ActivityBreakdown): string { AreaName(a.learningAreaName) }

  function BreakdownCount(a: ActivityBreakdown): int { a.observationCount }

  function AverageOfRow(a: ActivityBreakdown): Option<real> { a.averageScore }

  function AreaBreakdownOf(rows: seq<ActivityBreakdown>, area: string): AreaBreakdown {
    var b := Bucket(rows, AreaOfBreakdown, area);
    var average := Avg(Values(b, AverageOfRow));
    AreaBreakdown(area, Total(b, BreakdownCount), average, ScoreToBand(average))
  }

  function AreaBreakdowns(rows: seq<ActivityBreakdown>, areas: seq<string>): (r: seq<AreaBreakdown>)
    ensures |r| == |areas|
  {
    if areas == [] then [] else AreaBreakdowns(rows, areas[..|areas| - 1]) + [AreaBreakdownOf(rows, areas[|areas| - 1])]
  }

  /** Math.round of a percentage; zero when there is nobody. */
  function Coverage(active: nat, total: nat): int {
    if total == 0 then 0 else (active as real / total as real * 100.0 + 0.5).Floor
  }

  function AdminSummary(db: Db, schoolPkid: nat, from: int, to: int): Summary {
    var rows := Filter(db.reports, InSchoolWindow(schoolPkid, from, to));
    var pupils := Filter(db.students, InSchool(schoolPkid));
    var observed := KeysOf(rows, StudentOf);
    var byActivity := SortBy(Breakdowns(rows, KeysOf(rows, ActivityOf), db.curriculum), ByName(db.curriculum.rank));
    var byArea := SortBy(AreaBreakdowns(byActivity, KeysOf(byActivity, AreaOfBreakdown)),
      ByAreaName(db.curriculum.rank));
    Summary(|rows|, |observed|, |pupils|, Coverage(|observed|, |pupils|),
            Filter(pupils, Unobserved(observed)), byArea, byActivity)
  }

  /** What the loop over the activity rows has put into one area's bucket. */
  datatype AreaTally = AreaTally(scores: seq<real>, count: int)

  function BucketOf(rows: seq<ActivityBreakdown>, area: string): AreaTally {
    var b := Bucket(rows, AreaOfBreakdown, area);
    AreaTally(Values(b, AverageOfRow), Total(b, BreakdownCount))
  }

  lemma BucketGrows(rows: seq<ActivityBreakdown>, last: ActivityBreakdown, area: string)
    ensures BucketOf(rows + [last], area)
         == if AreaOfBreakdown(last) != area then BucketOf(rows, area)
            else AreaTally(BucketOf(rows, area).scores
              + (if last.averageScore.Some? then [last.averageScore.value] else []),
                            BucketOf(rows, area).count + last.observationCount)
  {
    var u := rows + [last];
    assert u[..|u| - 1] == rows;
    var b := Bucket(u, AreaOfBreakdown, area);
    if AreaOfBreakdown(last) == area {
      assert b[..|b| - 1] == Bucket(rows, AreaOfBreakdown, area);
      ValuesConcat(Bucket(rows, AreaOfBreakdown, area), [last], AverageOfRow);
    }
  }

  method FillAreaBuckets(rows: seq<ActivityBreakdown>) returns (order: seq<string>, buckets: map<string, AreaTally>)
    ensures order == KeysOf(rows, AreaOfBreakdown)
    ensures forall k :: k in buckets <==> k in order
    ensures forall k | k in buckets :: buckets[k] == BucketOf(rows, k)
  {
    hide BucketOf;
    order, buckets := [], map[];
    for i := 0 to |rows|
      invariant order == KeysOf(rows[..i], AreaOfBreakdown)
      invariant forall k :: k in buckets <==> k in order
      invariant forall k | k in buckets :: buckets[k] == BucketOf(rows[..i], k)
    {
      assert rows[..i + 1] == rows[..i] + [rows[i]];
      var k := AreaOfBreakdown(rows[i]);
      if k !in buckets {
        EmptyBucket(rows[..i], k);
        order := order + [k];
      }
      var bucket := if k in buckets then buckets[k] else AreaTally([], 0);
      bucket := bucket.(count := bucket.count + rows[i].observationCount);
      if rows[i].averageScore.Some? { bucket := bucket.(scores := bucket.scores + [rows[i].averageScore.value]); }
      buckets := buckets[k := bucket];
      forall area ensures area in buckets ==> buckets[area] == BucketOf(rows[..i + 1], area) {
        BucketGrows(rows[..i], rows[i], area);
      }
    }
    assert rows[..|rows|] == rows;
  }

  lemma EmptyBucket(rows: seq<ActivityBreakdown>, k: string)
    requires k !in KeysOf(rows, AreaOfBreakdown)
    ensures BucketOf(rows, k) == AreaTally([], 0)
  {
    NoBucket(rows, AreaOfBreakdown, k);
  }

  method BreakDownByArea(rows: seq<ActivityBreakdown>) returns (result: seq<AreaBreakdown>)
    ensures result == AreaBreakdowns(rows, KeysOf(rows, AreaOfBreakdown))
  {
    var order, buckets := FillAreaBuckets(rows);
    result := [];
    for i := 0 to |order|
      invariant result == AreaBreakdowns(rows, order[..i])
    {
      assert order[..i + 1][..i] == order[..i];
      var average := Avg(buckets[order[i]].scores);
      result := result + [AreaBreakdown(order[i], buckets[order[i]].count, average, ScoreToBand(average))];
    }
    assert order[..|order|] == order;
  }

  method BreakDownByActivity(rows: seq<DailyReport>, cur: Curriculum) returns (byActivity: seq<ActivityBreakdown>)
    ensures byActivity == Breakdowns(rows, KeysOf(rows, ActivityOf), cur)
  {
    hide PrimaryArea, KeysOf, Bucket;
    var order, byPkid := GroupBy(rows, ActivityOf);
    var areas := ResolvePrimaryLearningAreas(cur.areaRows);
    byActivity := [];
    for i := 0 to |order|
      invariant byActivity == Breakdowns(rows, order[..i], cur)
    {
      var k := order[i];
      assert order[..i + 1][..i] == order[..i];
      var average := Avg(Values(byPkid[k], ScoreOf));
      var area := if k in areas then Some(areas[k]) else None;
      byActivity := byActivity + [ActivityBreakdown(k, NameOf(cur, k), area, |byPkid[k]|, average,
        ScoreToBand(average))];
    }
    assert order[..|order|] == order;
  }

  method GetAdminWeeklySummary(db: Db, schoolPkid: nat, from: int, to: int) returns (summary: Summary)
    ensures summary == AdminSummary(db, schoolPkid, from, to)
  {
    hide Filter, Breakdowns, AreaBreakdowns, SortBy, KeysOf;
    var rows := Filter(db.reports, InSchoolWindow(schoolPkid, from, to));
    var pupils := Filter(db.students, InSchool(schoolPkid));
    var observed, _ := GroupBy(rows, StudentOf);
    var idle := Filter(pupils, Unobserved(observed));
    var byActivity := BreakDownByActivity(rows, db.curriculum);
    byActivity := SortBy(byActivity, ByName(db.curriculum.rank));
    var byArea := BreakDownByArea(byActivity);
    byArea := SortBy(byArea, ByAreaName(db.curriculum.rank));
    summary := Summary(|rows|, |observed|, |pupils|, Coverage(|observed|, |pupils|), idle, byArea, byActivity);
  }

  // ── the summary adds up ──────────────────────────────────────────────────

  function AreaCount(a: AreaBreakdown): int { a.observationCount }

  lemma {:induction false} BreakdownTotals(rows: seq<DailyReport>, ks: seq<nat>, cur: Curriculum)
    ensures Total(Breakdowns(rows, ks, cur), BreakdownCount) == GroupedTotal(rows, ActivityOf, ks, One)
  {
    if ks != [] {
      var front := ks[..|ks| - 1];
      BreakdownTotals(rows, front, cur);
      var r := Breakdowns(rows, ks, cur);
      assert r[..|r| - 1] == Breakdowns(rows, front, cur);
      TotalOne(Bucket(rows, ActivityOf, ks[|ks| - 1]));
    }
  }

  lemma {:induction false} AreaTotals(rows: seq<ActivityBreakdown>, areas: seq<string>)
    ensures Total(AreaBreakdowns(rows, areas), AreaCount) == GroupedTotal(rows, AreaOfBreakdown, areas, BreakdownCount)
  {
    if areas != [] {
      var front := areas[..|areas| - 1];
      AreaTotals(rows, front);
      var r := AreaBreakdowns(rows, areas);
      assert r[..|r| - 1] == AreaBreakdowns(rows, front);
    }
  }

  /** The activity rows and the learning-area rows each add up to the observations of the window. */
  lemma SummaryConserves(db: Db, schoolPkid: nat, from: int, to: int)
    ensures var s := AdminSummary(db, schoolPkid, from, to);
      && Total(s.byActivity, BreakdownCount) == s.totalObservations
      && Total(s.byLearningArea, AreaCount) == s.totalObservations
  {
    hide Filter, Breakdowns, AreaBreakdowns, KeysOf, SortBy, Bucket, GroupedTotal, Total;
    var rows := Filter(db.reports, InSchoolWindow(schoolPkid, from, to));
    var ks := KeysOf(rows, ActivityOf);
    var plain := Breakdowns(rows, ks, db.curriculum);
    var byActivity := SortBy(plain, ByName(db.curriculum.rank));
    BreakdownTotals(rows, ks, db.curriculum);
    GroupingConserves(rows, ActivityOf, One);
    TotalOne(rows);
    SortPermutes(plain, ByName(db.curriculum.rank));
    TotalPermutes(plain, byActivity, BreakdownCount);
    var areas := AreaBreakdowns(byActivity, KeysOf(byActivity, AreaOfBreakdown));
    AreaTotals(byActivity, KeysOf(byActivity, AreaOfBreakdown));
    GroupingConserves(byActivity, AreaOfBreakdown, BreakdownCount);
    SortPermutes(areas, ByAreaName(db.curriculum.rank));
    TotalPermutes(areas, SortBy(areas, ByAreaName(db.curriculum.rank)), AreaCount);
  }

  /** Every observation is about a pupil of the school it was recorded in. */
  ghost predicate EnrolledReports(db: Db) {
    forall r | r in db.reports ::
      exists st :: st in db.students && st.pkid == r.studentPkid && st.schoolPkid == r.schoolPkid
  }

  function PupilPkids(pupils: seq<Student>): (r: seq<nat>)
    ensures |r| == |pupils|
    ensures forall i | 0 <= i < |r| :: r[i] == pupils[i].pkid
  {
    seq(|pupils|, i requires 0 <= i < |pupils| => pupils[i].pkid)
  }

  function InSeq(xs: seq<nat>): nat -> bool { (k: nat) => k in xs }

  lemma {:induction false} PkidFilter(pupils: seq<Student>, observed: seq<nat>)
    ensures |Filter(pupils, Unobserved(observed))| + |Filter(PupilPkids(pupils), InSeq(observed))| == |pupils|
  {
    if pupils != [] {
      PkidFilter(pupils[1..], observed);
      assert PupilPkids(pupils)[1..] == PupilPkids(pupils[1..]);
    }
  }

  lemma PupilsDistinct(db: Db, schoolPkid: nat)
    requires DistinctStudents(db.students)
    ensures Distinct(PupilPkids(Filter(db.students, InSchool(schoolPkid))))
  {
    var pupils := Filter(db.students, InSchool(schoolPkid));
    assert Pairwise(db.students, OtherPupil);
    hide DistinctStudents, Filter;
    FilterPairwise(db.students, InSchool(schoolPkid), OtherPupil);
    forall i, j | 0 <= i < j < |pupils| ensures pupils[i].pkid != pupils[j].pkid {
      assert OtherPupil(pupils[i], pupils[j]);
    }
  }

  lemma PupilListed(db: Db, schoolPkid: nat, r: DailyReport)
    requires EnrolledReports(db) && r in db.reports && r.schoolPkid == schoolPkid
    ensures r.studentPkid in PupilPkids(Filter(db.students, InSchool(schoolPkid)))
  {
    var pupils := Filter(db.students, InSchool(schoolPkid));
    var st :| st in db.students && st.pkid == r.studentPkid && st.schoolPkid == r.schoolPkid;
    var i :| 0 <= i < |pupils| && pupils[i] == st;
    assert PupilPkids(pupils)[i] == r.studentPkid;
  }

  lemma ObservedArePupils(db: Db, schoolPkid: nat, from: int, to: int)
    requires DistinctStudents(db.students) && EnrolledReports(db)
    ensures var pkids := PupilPkids(Filter(db.students, InSchool(schoolPkid)));
      && Distinct(pkids)
      && forall k | k in KeysOf(Filter(db.reports, InSchoolWindow(schoolPkid, from, to)), StudentOf) :: k in pkids
  {
    var pupils := Filter(db.students, InSchool(schoolPkid));
    var rows := Filter(db.reports, InSchoolWindow(schoolPkid, from, to));
    PupilsDistinct(db, schoolPkid);
    hide DistinctStudents, Distinct, KeysOf, EnrolledReports, PupilPkids;
    forall k | k in KeysOf(rows, StudentOf) ensures k in PupilPkids(pupils) {
      var r := KeysOccur(rows, StudentOf, k);
      PupilListed(db, schoolPkid, r);
    }
  }

  // ── what the rows of the summary say ─────────────────────────────────────

  function OfActivityIn(schoolPkid: nat, activityPkid: nat, from: int, to: int): DailyReport -> bool {
    (r: DailyReport) => r.schoolPkid == schoolPkid && r.activityPkid == activityPkid && from <= r.date <= to
  }

  function RowPkid(a: ActivityBreakdown): nat { a.activityPkid }

  function RowArea(a: AreaBreakdown): string { a.learningAreaName }

  function OfActivityRow(k: nat): DailyReport -> bool { (r: DailyReport) => r.activityPkid == k }

  /** The row of an activity tells exactly the observations `b`. */
  predicate RowTells(row: ActivityBreakdown, b: seq<DailyReport>, cur: Curriculum) {
    && b != [] && row.observationCount == |b|
    && row.averageScore == MeanOf(b, ScoreOf) && Banded(row.averageScore, row.band)
    && row.activityName == NameOf(cur, row.activityPkid)
    && row.learningAreaName == PrimaryArea(cur.areaRows, row.activityPkid)
  }

  lemma BreakdownTells(rows: seq<DailyReport>, k: nat, cur: Curriculum)
    requires k in KeysOf(rows, ActivityOf)
    ensures RowTells(BreakdownOf(rows, k, cur), Filter(rows, OfActivityRow(k)), cur)
  {
    hide Filter, KeysOf, Values, MeanOf, ScoreToBand, Banded, PrimaryArea;
    BucketIsFilter(rows, ActivityOf, k, OfActivityRow(k));
    KeyHasBucket(rows, k);
    AverageIsMean(Filter(rows, OfActivityRow(k)), ScoreOf);
    BandsCover(BreakdownOf(rows, k, cur).averageScore);
  }

  lemma {:induction false} BreakdownAt(rows: seq<DailyReport>, ks: seq<nat>, cur: Curriculum, i: nat)
    requires i < |ks|
    ensures Breakdowns(rows, ks, cur)[i] == BreakdownOf(rows, ks[i], cur)
  {
    if i < |ks| - 1 { BreakdownAt(rows, ks[..|ks| - 1], cur, i); }
  }

  /** The activity rows of the summary: every activity observed in the window has
      exactly one, which tells exactly its observations, and they come by name. */
  lemma ActivityRowsTell(db: Db, schoolPkid: nat, from: int, to: int)
    ensures var rows := AdminSummary(db, schoolPkid, from, to).byActivity;
      && SortedBy(rows, ByName(db.curriculum.rank))
      && (forall i, j | 0 <= i < j < |rows| :: rows[i].activityPkid != rows[j].activityPkid)
      && (forall row | row in rows ::
            RowTells(row, Filter(db.reports, OfActivityIn(schoolPkid, row.activityPkid, from, to)), db.curriculum))
      && forall r | r in db.reports && InSchoolWindow(schoolPkid, from, to)(r) ::
           exists row :: row in rows && row.activityPkid == r.activityPkid
  {
    hide Filter, KeysOf, SortBy, Breakdowns, AreaBreakdowns, BreakdownOf, RowTells, Coverage;
    var rows, cur := Filter(db.reports, InSchoolWindow(schoolPkid, from, to)), db.curriculum;
    var ks := KeysOf(rows, ActivityOf);
    var plain := Breakdowns(rows, ks, cur);
    var sorted := SortBy(plain, ByName(cur.rank));
    KeysDistinct(rows, ActivityOf);
    SortPermutes(plain, ByName(cur.rank));
    SortSorts(plain, ByName(cur.rank));
    SameMembers(plain, sorted);
    forall i | 0 <= i < |ks|
      ensures plain[i].activityPkid == ks[i]
      ensures RowTells(plain[i], Filter(db.reports, OfActivityIn(schoolPkid, ks[i], from, to)), cur)
    {
      BreakdownAt(rows, ks, cur, i);
      BreakdownTells(rows, ks[i], cur);
      BreakdownKey(rows, ks[i], cur);
      FilterNested(db.reports, InSchoolWindow(schoolPkid, from, to), OfActivityRow(ks[i]),
        OfActivityIn(schoolPkid, ks[i], from, to));
    }
    KeysStayApart(plain, sorted, RowPkid);
    forall r | r in db.reports && InSchoolWindow(schoolPkid, from, to)(r)
      ensures exists row :: row in sorted && row.activityPkid == r.activityPkid
    {
      KeysCover(rows, ActivityOf, r);
      var i :| 0 <= i < |ks| && ks[i] == r.activityPkid;
      assert plain[i] in plain;
    }
  }

  lemma BreakdownKey(rows: seq<DailyReport>, k: nat, cur: Curriculum)
    ensures BreakdownOf(rows, k, cur).activityPkid == k
  {
  }

  function OfBreakdownArea(name: string): ActivityBreakdown -> bool {
    (a: ActivityBreakdown) => AreaOfBreakdown(a) == name
  }

  /** The row of a learning area tells exactly the activity rows `b`. */
  predicate AreaTells(row: AreaBreakdown, b: seq<ActivityBreakdown>) {
    && b != [] && row.observationCount == Total(b, BreakdownCount)
    && row.averageScore == MeanOf(b, AverageOfRow) && Banded(row.averageScore, row.band)
  }

  lemma AreaBreakdownTells(rows: seq<ActivityBreakdown>, area: string)
    requires area in KeysOf(rows, AreaOfBreakdown)
    ensures AreaTells(AreaBreakdownOf(rows, area), Filter(rows, OfBreakdownArea(area)))
  {
    hide Filter, KeysOf, Values, MeanOf, ScoreToBand, Banded, Total;
    BucketIsFilter(rows, AreaOfBreakdown, area, OfBreakdownArea(area));
    var r := KeysOccur(rows, AreaOfBreakdown, area);
    assert r in Filter(rows, OfBreakdownArea(area));
    AverageIsMean(Filter(rows, OfBreakdownArea(area)), AverageOfRow);
    BandsCover(AreaBreakdownOf(rows, area).averageScore);
  }

  lemma {:induction false} AreaBreakdownAt(rows: seq<ActivityBreakdown>, areas: seq<string>, i: nat)
    requires i < |areas|
    ensures AreaBreakdowns(rows, areas)[i] == AreaBreakdownOf(rows, areas[i])
  {
    if i < |areas| - 1 { AreaBreakdownAt(rows, areas[..|areas| - 1], i); }
  }

  lemma AreaBreakdownKey(rows: seq<ActivityBreakdown>, area: string)
    ensures AreaBreakdownOf(rows, area).learningAreaName == area
  {
  }

  /** The area rows of the summary: every area with an activity row has exactly
      one, which tells exactly its activity rows, and they come by name. */
  lemma AreaRowsTell(db: Db, schoolPkid: nat, from: int, to: int)
    ensures var s := AdminSummary(db, schoolPkid, from, to);
      && SortedBy(s.byLearningArea, ByAreaName(db.curriculum.rank))
      && (forall i, j | 0 <= i < j < |s.byLearningArea| ::
            s.byLearningArea[i].learningAreaName != s.byLearningArea[j].learningAreaName)
      && (forall row | row in s.byLearningArea ::
            AreaTells(row, Filter(s.byActivity, OfBreakdownArea(row.learningAreaName))))
      && forall a | a in s.byActivity ::
           exists row :: row in s.byLearningArea && row.learningAreaName == AreaOfBreakdown(a)
  {
    hide Filter, KeysOf, SortBy, Breakdowns, AreaBreakdowns, AreaBreakdownOf, AreaTells, Coverage, AreaOfBreakdown;
    var byActivity := AdminSummary(db, schoolPkid, from, to).byActivity;
    var areas, leq := KeysOf(byActivity, AreaOfBreakdown), ByAreaName(db.curriculum.rank);
    var plain := AreaBreakdowns(byActivity, areas);
    var sorted := SortBy(plain, leq);
    KeysDistinct(byActivity, AreaOfBreakdown);
    SortPermutes(plain, leq);
    SortSorts(plain, leq);
    SameMembers(plain, sorted);
    forall i | 0 <= i < |areas|
      ensures plain[i].learningAreaName == areas[i]
      ensures AreaTells(plain[i], Filter(byActivity, OfBreakdownArea(areas[i])))
    {
      AreaBreakdownAt(byActivity, areas, i);
      AreaBreakdownTells(byActivity, areas[i]);
      AreaBreakdownKey(byActivity, areas[i]);
    }
    KeysStayApart(plain, sorted, RowArea);
    forall a | a in byActivity ensures exists row :: row in sorted && row.learningAreaName == AreaOfBreakdown(a) {
      KeysCover(byActivity, AreaOfBreakdown, a);
      var i :| 0 <= i < |areas| && areas[i] == AreaOfBreakdown(a);
      assert plain[i] in plain;
    }
  }

  /** The pupils of the school of whom nothing was recorded in the window. */
  ghost predicate Idle(db: Db, schoolPkid: nat, from: int, to: int, s: Student) {
    s.schoolPkid == schoolPkid
      && forall r | r in db.reports && r.schoolPkid == schoolPkid && from <= r.date <= to :: r.studentPkid != s.pkid
  }

  lemma IdleListed(db: Db, schoolPkid: nat, from: int, to: int)
    ensures var idle := AdminSummary(db, schoolPkid, from, to).studentsWithNoActivity;
      forall s :: s in idle <==> s in db.students && Idle(db, schoolPkid, from, to, s)
  {
    hide KeysOf, SortBy, Breakdowns, AreaBreakdowns, Coverage;
    var rows := Filter(db.reports, InSchoolWindow(schoolPkid, from, to));
    var observed := KeysOf(rows, StudentOf);
    forall s: Student | s.schoolPkid == schoolPkid
      ensures s.pkid in observed <==> !Idle(db, schoolPkid, from, to, s)
    {
      if s.pkid in observed {
        var r := KeysOccur(rows, StudentOf, s.pkid);
        assert r in db.reports && r.studentPkid == s.pkid;
      } else {
        forall r | r in rows ensures r.studentPkid != s.pkid { KeysCover(rows, StudentOf, r); }
      }
    }
  }

  /** The whole number of per cent nearest to the share; of nothing, zero. */
  predicate NearestPercent(percent: int, part: int, total: int) {
    -total <= 2 * (percent * total - 100 * part) <= total && (total == 0 ==> percent == 0)
  }

  lemma CoverageRounds(active: nat, total: nat)
    requires active <= total
    ensures NearestPercent(Coverage(active, total), active, total)
    ensures total == 0 ==> Coverage(active, total) == 0
  {
    if total > 0 {
      var q := active as real / total as real * 100.0;
      ShareInPercent(active as real, total as real);
      NearestWhole((q + 0.5).Floor, active, total, q);
    }
  }

  lemma ShareInPercent(part: real, whole: real)
    requires whole > 0.0
    ensures part / whole * 100.0 * whole == 100.0 * part
  {
    var q := part / whole;
    assert q * whole == part;
    assert q * 100.0 * whole == 100.0 * (q * whole);
  }

  lemma NearestWhole(c: int, active: nat, total: nat, q: real)
    requires total > 0 && q * total as real == 100.0 * active as real && c == (q + 0.5).Floor
    ensures NearestPercent(c, active, total)
  {
    var product, t := c * total, total as real;
    WholeProduct(c, total, product);
    var away := (product - 100 * active) as real;
    HalfAway(c as real - q, c as real, q, t, away);
    assert -t <= 2.0 * away <= t;
  }

  lemma HalfAway(d: real, c: real, q: real, t: real, away: real)
    requires t > 0.0 && -0.5 <= d <= 0.5 && d == c - q && away == c * t - q * t
    ensures -t <= 2.0 * away <= t
  {
    assert d * t == away;
    NonNegativeTimes(0.5 - d, t);
    NonNegativeTimes(0.5 + d, t);
    assert (0.5 - d) * t == 0.5 * t - d * t && (0.5 + d) * t == 0.5 * t + d * t;
  }

  lemma NonNegativeTimes(x: real, t: real)
    requires x >= 0.0 && t > 0.0
    ensures x * t >= 0.0
  {
  }

  lemma WholeProduct(c: int, total: nat, product: int)
    requires product == c * total
    ensures product as real == c as real * total as real
  {
  }

  /** The pupils without activity are exactly those of whom nothing was recorded,
      the others are active, and the coverage is their share in per cent, rounded;
      it reads 100 exactly when at most one pupil in 200 is missing. */
  lemma EveryPupilCounted(db: Db, schoolPkid: nat, from: int, to: int)
    requires DistinctStudents(db.students) && EnrolledReports(db)
    ensures var s := AdminSummary(db, schoolPkid, from, to);
      && s.totalObservations == |Filter(db.reports, InSchoolWindow(schoolPkid, from, to))|
      && s.totalStudents == |Filter(db.students, InSchool(schoolPkid))|
      && (forall st :: st in s.studentsWithNoActivity <==> st in db.students && Idle(db, schoolPkid, from, to, st))
      && s.activeStudents + |s.studentsWithNoActivity| == s.totalStudents
      && 0 <= s.coveragePercent <= 100 && NearestPercent(s.coveragePercent, s.activeStudents, s.totalStudents)
      && (s.totalStudents > 0 ==> (s.coveragePercent == 100 <==> 200 * |s.studentsWithNoActivity| <= s.totalStudents))
  {
    hide Filter, KeysOf, SortBy, Breakdowns, AreaBreakdowns, Idle, Coverage, NearestPercent;
    var pupils := Filter(db.students, InSchool(schoolPkid));
    var observed := KeysOf(Filter(db.reports, InSchoolWindow(schoolPkid, from, to)), StudentOf);
    ObservedArePupils(db, schoolPkid, from, to);
    KeysDistinct(Filter(db.reports, InSchoolWindow(schoolPkid, from, to)), StudentOf);
    CountMembers(observed, PupilPkids(pupils), InSeq(observed));
    PkidFilter(pupils, observed);
    IdleListed(db, schoolPkid, from, to);
    CoverageRounds(|observed|, |pupils|);
    if |pupils| > 0 { CoverageBounds(|observed|, |pupils|); }
  }

  function Pupil(i: nat): Student { Student(i, NatToString(i), 1, "Ada") }

  function Seen(i: nat): DailyReport { DailyReport(i + 1, 1, i, 1, 0, 0, "yes", Some(100.0), None, true) }

  /** A school of 200 pupils of whom all but the last were observed. */
  function OneUnseen(cur: Curriculum): Db {
    Db(seq(200, (i: nat) => Pupil(i)), [], {}, seq(199, (i: nat) => Seen(i)), cur, [], [], [], [], 1)
  }

  /** One pupil in 200 without any observation, and the coverage still shows 100 percent. */
  lemma OneUnseenShowsFull(cur: Curriculum)
    ensures var s := AdminSummary(OneUnseen(cur), 1, 0, 6);
      s.totalStudents == 200 && |s.studentsWithNoActivity| == 1 && s.coveragePercent == 100
  {
    hide SortBy, Breakdowns, AreaBreakdowns, Coverage, NatToString, KeysOf, Filter;
    var db := OneUnseen(cur);
    FilterAll(db.reports, InSchoolWindow(1, 0, 6));
    FilterAll(db.students, InSchool(1));
    KeysInOrder(db.reports, StudentOf);
    forall i, j | 0 <= i < j < 200
      ensures db.students[i].pkid != db.students[j].pkid && db.students[i].id != db.students[j].id
    {
      if NatToString(i) == NatToString(j) { NumeralsDiffer(i, j); }
    }
    forall r | r in db.reports
      ensures exists st :: st in db.students && st.pkid == r.studentPkid && st.schoolPkid == r.schoolPkid
    {
      assert db.students[r.studentPkid] == Pupil(r.studentPkid);
    }
    EveryPupilCounted(db, 1, 0, 6);
  }

  lemma CoverageBounds(active: nat, total: nat)
    requires active <= total && total > 0
    ensures 0 <= Coverage(active, total) <= 100
    ensures Coverage(active, total) == 100 <==> 200 * (total - active) <= total
  {
    var a, t := active as real, total as real;
    DivideBounds(a, t, 0.0, 1.0);
    RatioAtLeast(a, t, 0.995);
    assert a >= 0.995 * t <==> 200.0 * a >= 199.0 * t;
  }

  lemma RatioAtLeast(a: real, t: real, c: real)
    requires t > 0.0
    ensures a / t >= c <==> a >= c * t
  {
    var q := a / t;
    assert (q - c) * t == a - c * t;
    if q < c { NegativeProduct(q - c, t); }
  }

  // ── pupils' reports against the admin view ───────────────────────────────

  lemma {:induction false} GroupedCovers(rows: seq<DailyReport>, ks: seq<nat>)
    requires Distinct(ks)
    requires forall r | r in rows :: r.studentPkid in ks
    ensures GroupedTotal(rows, StudentOf, ks, One) == |rows|
  {
    if rows == [] {
      GroupedNothing(ks);
    } else {
      var init, last := rows[..|rows| - 1], rows[|rows| - 1];
      assert rows == init + [last];
      GroupedCovers(init, ks);
      GroupedTotalStep(init, last, StudentOf, ks, One);
    }
  }

  lemma {:induction false} GroupedNothing(ks: seq<nat>)
    ensures GroupedTotal([], StudentOf, ks, One) == 0
  {
    if ks != [] { GroupedNothing(ks[..|ks| - 1]); }
  }

  function AboutStudent(pkid: nat): DailyReport -> bool { (r: DailyReport) => r.studentPkid == pkid }

  /** The observation counts of the pupils' own aggregations, added up. */
  function PupilTotals(db: Db, schoolPkid: nat, pupils: seq<Student>, from: int, to: int): int {
    if pupils == [] then 0
    else
      PupilTotals(db, schoolPkid, pupils[..|pupils| - 1], from, to)
      + TotalObservations(
          PeriodAggregations(db.reports, db.curriculum, schoolPkid, pupils[|pupils| - 1].pkid, from, to))
  }

  lemma {:induction false} PupilTotalsGroup(db: Db, schoolPkid: nat, pupils: seq<Student>, from: int, to: int)
    ensures PupilTotals(db, schoolPkid, pupils, from, to)
         == GroupedTotal(Filter(db.reports, InSchoolWindow(schoolPkid, from, to)), StudentOf, PupilPkids(pupils), One)
  {
    hide PeriodAggregations, Filter, Bucket;
    if pupils != [] {
      var front, k := pupils[..|pupils| - 1], pupils[|pupils| - 1].pkid;
      var rows := Filter(db.reports, InSchoolWindow(schoolPkid, from, to));
      PupilTotalsGroup(db, schoolPkid, front, from, to);
      assert PupilPkids(pupils)[..|pupils| - 1] == PupilPkids(front);
      PeriodConserves(db.reports, db.curriculum, schoolPkid, k, from, to);
      BucketIsFilter(rows, StudentOf, k, AboutStudent(k));
      FilterNested(db.reports, InSchoolWindow(schoolPkid, from, to), AboutStudent(k),
        InWindow(schoolPkid, k, from, to));
      TotalOne(Bucket(rows, StudentOf, k));
    }
  }

  /** What the pupils' own reports count for a window is what the admin summary counts. */
  lemma PupilsAddUpToSchool(db: Db, schoolPkid: nat, from: int, to: int)
    requires DistinctStudents(db.students) && EnrolledReports(db)
    ensures PupilTotals(db, schoolPkid, Filter(db.students, InSchool(schoolPkid)), from, to)
         == AdminSummary(db, schoolPkid, from, to).totalObservations
  {
    hide PeriodAggregations, Filter, KeysOf, PupilTotals, GroupedTotal, Breakdowns, AreaBreakdowns;
    var pupils := Filter(db.students, InSchool(schoolPkid));
    var rows := Filter(db.reports, InSchoolWindow(schoolPkid, from, to));
    PupilTotalsGroup(db, schoolPkid, pupils, from, to);
    ObservedArePupils(db, schoolPkid, from, to);
    forall r | r in rows ensures r.studentPkid in PupilPkids(pupils) { KeysCover(rows, StudentOf, r); }
    GroupedCovers(rows, PupilPkids(pupils));
  }

  /** The headline counts of the pupils' snapshots of a period, added up. */
  function SnapshotTotals(db: Db, schoolPkid: nat, pupils: seq<Student>, p: Period): int
    requires forall s | s in pupils :: SnapshotsFor(db, schoolPkid, s.pkid, p) != []
  {
    if pupils == [] then 0
    else
      SnapshotTotals(db, schoolPkid, pupils[..|pupils| - 1], p)
      + SnapshotsFor(db, schoolPkid, pupils[|pupils| - 1].pkid, p)[0].totalObservations
  }

  lemma {:induction false} ServedTotals(db: Db, u: Db, schoolPkid: nat, pupils: seq<Student>, p: Period)
    requires forall s | s in pupils :: Served(db, u, schoolPkid, s.pkid, p) && !Final(db, schoolPkid, s.pkid, p)
    requires forall s | s in pupils :: SnapshotsFor(u, schoolPkid, s.pkid, p) != []
    ensures SnapshotTotals(u, schoolPkid, pupils, p) == PupilTotals(db, schoolPkid, pupils, p.start, p.end)
  {
    hide SnapshotsFor, PeriodAggregations, FigureList, Final, ItemsOf;
    if pupils != [] {
      assert pupils[|pupils| - 1] in pupils;
      ServedTotals(db, u, schoolPkid, pupils[..|pupils| - 1], p);
    }
  }

  /** After a bulk run that was rolled back for nobody, for a period nothing of
      which was out yet, the pupils' snapshots together count every observation
      of the school in that period exactly once. */
  lemma BulkAgreesWithSummary(db: Db, schoolPkid: nat, p: Period, creator: nat, faults: Faults)
    requires Inv(db) && EnrolledReports(db)
    requires forall s | s in db.students && s.schoolPkid == schoolPkid ::
      !Final(db, schoolPkid, s.pkid, p) && FaultOf(faults, s.pkid) != RolledBack
    ensures
      var pupils := Filter(db.students, InSchool(schoolPkid));
      var u := BulkGenerate(db, schoolPkid, p, creator, faults).db;
      && (forall s | s in pupils :: SnapshotsFor(u, schoolPkid, s.pkid, p) != [])
      && SnapshotTotals(u, schoolPkid, pupils, p) == AdminSummary(u, schoolPkid, p.start, p.end).totalObservations
  {
    hide Inv, Bulk, Final, AdminSummary, Filter, SnapshotTotals, PupilTotals, SnapshotsFor;
    hide PeriodAggregations, FigureList, Pupils, FaultOf;
    var pupils, u := Filter(db.students, InSchool(schoolPkid)), BulkGenerate(db, schoolPkid, p, creator, faults).db;
    BulkRun(db, schoolPkid, p, creator, faults);
    BulkInv(db, pupils, schoolPkid, p, creator, faults);
    InvParts(db);
    forall s | s in pupils ensures Served(db, u, schoolPkid, s.pkid, p) {
      assert LeftWith(db, u, schoolPkid, s.pkid, p, FaultOf(faults, s.pkid));
    }
    ServedTotals(db, u, schoolPkid, pupils, p);
    PupilsAddUpToSchool(db, schoolPkid, p.start, p.end);
    SummaryReads(db, u, schoolPkid, p.start, p.end);
  }

  lemma SummaryReads(db: Db, u: Db, schoolPkid: nat, from: int, to: int)
    requires u.students == db.students && u.reports == db.reports && u.curriculum == db.curriculum
    ensures AdminSummary(u, schoolPkid, from, to) == AdminSummary(db, schoolPkid, from, to)
  {
  }
}
