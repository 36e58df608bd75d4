/** The parent dashboard as it is computed from the published snapshots of a student. */
module Dashboard {
  import opened Collections
  import opened Entities
  import opened Aggregation
  import opened Snapshots
  import opened SnapshotRuns
  import opened Summaries
  import opened Uuids
  import TextReaders

  datatype AreaScore = AreaScore(areaName: string, score: Option<real>)

  datatype AreaCard = AreaCard(areaName: string, score: Option<real>, trend: Option<Trend>, hue: nat)

  datatype ActivityCard = ActivityCard(
    activityPkid: nat, activityName: string, areaName: Option<string>,
    averageScore: Option<real>, trend: Option<Trend>, sparkline: seq<real>)

  datatype View = View(
    overallScore: Option<real>, areas: seq<AreaCard>, activities: seq<ActivityCard>, lastUpdated: Option<int>)

  // ── small pieces ─────────────────────────────────────────────────────────

  /** Strictly more than five points either way. */
  function DeltaTrend(current: Option<real>, previous: Option<real>): Option<Trend> {
    if current.None? || previous.None? then None
    else if current.value - previous.value > 5.0 then Some(Improving)
    else if current.value - previous.value < -5.0 then Some(Declining)
    else Some(Stable)
  }

  /** The trend from one score to the next: a change of more than five points
      either way; unknown when either score is. */
  predicate TrendBetween(before: Option<real>, after: Option<real>, trend: Option<Trend>) {
    match trend
    case None => before.None? || after.None?
    case Some(Improving) => before.Some? && after.Some? && after.value > before.value + 5.0
    case Some(Declining) => before.Some? && after.Some? && after.value < before.value - 5.0
    case Some(Stable) => before.Some? && after.Some? && before.value - 5.0 <= after.value <= before.value + 5.0
  }

  lemma DeltaTells(current: Option<real>, previous: Option<real>)
    ensures TrendBetween(previous, current, DeltaTrend(current, previous))
  {
  }

  /** Seen from the other side a trend is the opposite one. */
  lemma DeltaTrendMirrors(current: Option<real>, previous: Option<real>)
    ensures DeltaTrend(previous, current) == Opposite(DeltaTrend(current, previous))
  {
  }

  /** The dashboard and the report judge two successive scores alike, except at a
      difference of exactly five points: the report calls that a trend already. */
  lemma TrendRulesDifferAtFive(previous: real, current: real)
    ensures DeltaTrend(Some(current), Some(previous)) == ComputeTrend([previous, current])
       <==> current - previous != 5.0 && current - previous != -5.0
  {
    var scores := [previous, current];
    assert scores[..1] == [previous] && scores[1..] == [current];
    AverageOfOne(previous);
    AverageOfOne(current);
  }

  lemma AverageOfOne(x: real)
    ensures Avg([x]) == Some(x)
  {
    assert [x][..0] == [];
    assert Sum([x]) == x;
  }

  /** The 32-bit signed value of a left shift by five. */
  function ShiftLeft5(h: int): int {
    var m := (h * 32) % 0x1_0000_0000;
    if m >= 0x8000_0000 then m - 0x1_0000_0000 else m
  }

  function HashOf(units: seq<nat>): int {
    if units == [] then 0
    else
      var h := HashOf(units[..|units| - 1]);
      ShiftLeft5(h) - h + units[|units| - 1]
  }

  /** The hash starts at zero, and each unit adds to it the difference that the
      shift makes: the 32-bit signed number congruent to 32 times the hash. */
  lemma HashStep(units: seq<nat>, u: nat)
    ensures HashOf([]) == 0
    ensures var shifted := HashOf(units + [u]) + HashOf(units) - u;
      && -0x8000_0000 <= shifted < 0x8000_0000
      && (shifted - 32 * HashOf(units)) % 0x1_0000_0000 == 0
  {
    assert (units + [u])[..|units|] == units;
    Wrapped(32 * HashOf(units));
  }

  lemma Wrapped(x: int)
    ensures (x - x % 0x1_0000_0000) % 0x1_0000_0000 == 0
    ensures (x % 0x1_0000_0000 - 0x1_0000_0000 - x) % 0x1_0000_0000 == 0
    ensures (x % 0x1_0000_0000 - x) % 0x1_0000_0000 == 0
  {
    var m := 0x1_0000_0000;
    var q := x / m;
    assert x == q * m + x % m;
    Multiple(q, m);
    Multiple(-q, m);
    Multiple(-q - 1, m);
  }

  lemma Multiple(k: int, m: int)
    requires m == 0x1_0000_0000
    ensures (k * m) % m == 0
  {
  }

  /** The units as the digits of a number in base 31. */
  function InBase31(units: seq<nat>): nat {
    if units == [] then 0 else InBase31(units[..|units| - 1]) * 31 + units[|units| - 1]
  }

  /** In 32 bits the hash is the number the units spell in base 31. */
  lemma {:induction false} HashInBase31(units: seq<nat>)
    ensures (HashOf(units) - InBase31(units)) % 0x1_0000_0000 == 0
  {
    if units != [] {
      var front, u := units[..|units| - 1], units[|units| - 1];
      HashInBase31(front);
      HashStep(front, u);
      assert front + [u] == units;
      Congruent(HashOf(units) + HashOf(front) - u, HashOf(front), InBase31(front));
    }
  }

  lemma Congruent(shifted: int, h: int, n: int)
    requires (shifted - 32 * h) % 0x1_0000_0000 == 0 && (h - n) % 0x1_0000_0000 == 0
    ensures (shifted - h - 31 * n) % 0x1_0000_0000 == 0
  {
    var m := 0x1_0000_0000;
    var p, q := (shifted - 32 * h) / m, (h - n) / m;
    assert shifted - h - 31 * n == (p + 31 * q) * m;
    Multiple(p + 31 * q, m);
  }

  function HueOf(seed: string): (hue: nat)
    ensures hue < 360
  {
    var h := HashOf(TextReaders.CodeUnits(seed));
    (if h < 0 then -h else h) % 360
  }

  ghost predicate Turned(distance: nat, hue: nat) {
    hue < 360 && exists turns: nat :: distance == Degrees(turns) + hue
  }

  function Degrees(turns: nat): nat { 360 * turns }

  /** The hue is the distance of the hash from zero, counted round a circle of 360. */
  lemma HueTells(seed: string)
    ensures var h := HashOf(TextReaders.CodeUnits(seed));
      Turned(if h < 0 then -h else h, HueOf(seed))
  {
    hide HashOf;
    var h := HashOf(TextReaders.CodeUnits(seed));
    var d := if h < 0 then -h else h;
    assert d == Degrees(d / 360) + HueOf(seed);
  }

  method ColorFrom(seed: string) returns (hue: nat)
    ensures hue == HueOf(seed)
  {
    var units := TextReaders.CodeUnits(seed);
    var hash := 0;
    for i := 0 to |units|
      invariant hash == HashOf(units[..i])
    {
      assert units[..i + 1][..i] == units[..i];
      hash := ShiftLeft5(hash) - hash + units[i];
    }
    assert units[..|units|] == units;
    hue := (if hash < 0 then -hash else hash) % 360;
  }

  function LastOf(s: seq<real>, n: nat): seq<real> { if |s| > n then s[|s| - n..] else s }

  // ── area scores ──────────────────────────────────────────────────────────

  function AreaScoresFor(items: seq<Item>, areas: seq<string>): (r: seq<AreaScore>)
    ensures |r| == |areas|
    ensures forall i | 0 <= i < |r| ::
      r[i] == AreaScore(areas[i], Avg(Values(Bucket(items, AreaOfItem, areas[i]), AverageOfItem)))
  {
    if areas == [] then []
    else
      var area := areas[|areas| - 1];
      AreaScoresFor(items, areas[..|areas| - 1])
      + [AreaScore(area, Avg(Values(Bucket(items, AreaOfItem, area), AverageOfItem)))]
  }

  /** groupAreaScores, in order of first appearance. */
  function AreaScores(items: seq<Item>): seq<AreaScore> { AreaScoresFor(items, KeysOf(items, AreaOfItem)) }

  method GroupAreaScores(items: seq<Item>) returns (scores: seq<AreaScore>)
    ensures scores == AreaScores(items)
  {
    var order, byArea := GroupBy(items, AreaOfItem);
    scores := [];
    for i := 0 to |order|
      invariant scores == AreaScoresFor(items, order[..i])
    {
      assert order[..i + 1][..i] == order[..i];
      scores := scores + [AreaScore(order[i], Avg(Values(byArea[order[i]], AverageOfItem)))];
    }
    assert order[..|order|] == order;
  }

  function ScoreIn(scores: seq<AreaScore>, area: string): Option<real> {
    if scores == [] then None else if scores[0].areaName == area then scores[0].score else ScoreIn(scores[1..], area)
  }

  function AreaCards(now: seq<AreaScore>, before: seq<AreaScore>): (r: seq<AreaCard>)
    ensures |r| == |now|
  {
    seq(|now|, i requires 0 <= i < |now| =>
      AreaCard(now[i].areaName, now[i].score, DeltaTrend(now[i].score, ScoreIn(before, now[i].areaName)),
        HueOf(now[i].areaName)))
  }

  /** The dashboard and the report show the same areas, in the same order, with the same averages. */
  lemma AreasMatchRollups(items: seq<Item>, i: nat)
    requires i < |AreaScores(items)|
    ensures |AreaScores(items)| == |Rollups(items)|
    ensures AreaScores(items)[i].areaName == Rollups(items)[i].areaName
    ensures AreaScores(items)[i].score == Rollups(items)[i].averageScore
  {
    RollupAt(items, KeysOf(items, AreaOfItem), i);
  }

  // ── activity series ──────────────────────────────────────────────────────

  function ActivityOfItem(it: Item): nat { it.activityPkid }

  /** An item without a score counts as zero in the series. */
  function Plotted(it: Item): real { if it.averageScore.Some? then it.averageScore.value else 0.0 }

  function Series(items: seq<Item>): (r: seq<real>)
    ensures |r| == |items|
  {
    if items == [] then [] else Series(items[..|items| - 1]) + [Plotted(items[|items| - 1])]
  }

  /** The items of some snapshots, snapshot after snapshot. */
  function ItemsOfAll(items: seq<Item>, snaps: seq<Snapshot>): seq<Item> {
    if snaps == [] then [] else ItemsOfAll(items, snaps[..|snaps| - 1]) + ItemsOf(items, snaps[|snaps| - 1].id)
  }

  /** One growing series of the loop, with the name and area it started with. */
  datatype SeriesRow = SeriesRow(name: string, areaName: Option<string>, series: seq<real>)

  function RowOf(bucket: seq<Item>): SeriesRow
    requires bucket != []
  {
    SeriesRow(bucket[0].activityName, bucket[0].learningAreaName, Series(bucket))
  }

  function CardOf(k: nat, row: SeriesRow): ActivityCard
    requires row.series != []
  {
    var series := LastOf(row.series, 8);
    var last, prev := Some(series[|series| - 1]), if |series| > 1 then Some(series[|series| - 2]) else None;
    ActivityCard(k, row.name, row.areaName, last, DeltaTrend(last, prev), series)
  }

  /** The items come snapshot after snapshot. */
  lemma {:induction false} ItemsInOrder(items: seq<Item>, a: seq<Snapshot>, b: seq<Snapshot>, s: Snapshot)
    ensures ItemsOfAll(items, a + b) == ItemsOfAll(items, a) + ItemsOfAll(items, b)
    ensures ItemsOfAll(items, [s]) == Filter(items, (it: Item) => it.snapshotId == s.id)
  {
    hide Filter;
    assert [s][..0] == [] && ItemsOfAll(items, []) == [];
    assert ItemsOf(items, s.id) == Filter(items, ItemOf(s.id));
    SameFilter(items, s.id);
    if b == [] {
      assert a + b == a;
    } else {
      assert (a + b)[..|a + b| - 1] == a + b[..|b| - 1];
      ItemsInOrder(items, a, b[..|b| - 1], s);
    }
  }

  lemma SameFilter(items: seq<Item>, id: nat)
    ensures Filter(items, ItemOf(id)) == Filter(items, (it: Item) => it.snapshotId == id)
  {
    FilterAgree(items, ItemOf(id), (it: Item) => it.snapshotId == id);
  }

  lemma ItemKeyHasBucket(rows: seq<Item>, k: nat)
    requires k in KeysOf(rows, ActivityOfItem)
    ensures Bucket(rows, ActivityOfItem, k) != []
  {
    var r := KeysOccur(rows, ActivityOfItem, k);
    BucketMembers(rows, ActivityOfItem, k);
    assert r in Bucket(rows, ActivityOfItem, k);
  }

  function CardsFor(rows: seq<Item>, ks: seq<nat>): (r: seq<ActivityCard>)
    requires forall k | k in ks :: k in KeysOf(rows, ActivityOfItem)
    ensures |r| == |ks|
  {
    if ks == [] then []
    else
      var k := ks[|ks| - 1];
      ItemKeyHasBucket(rows, k);
      CardsFor(rows, ks[..|ks| - 1]) + [CardOf(k, RowOf(Bucket(rows, ActivityOfItem, k)))]
  }

  function ActivityCards(rows: seq<Item>): seq<ActivityCard> { CardsFor(rows, KeysOf(rows, ActivityOfItem)) }

  lemma {:induction false} CardAt(rows: seq<Item>, ks: seq<nat>, i: nat)
    requires forall k | k in ks :: k in KeysOf(rows, ActivityOfItem)
    requires i < |ks|
    ensures Bucket(rows, ActivityOfItem, ks[i]) != []
    ensures CardsFor(rows, ks)[i] == CardOf(ks[i], RowOf(Bucket(rows, ActivityOfItem, ks[i])))
  {
    ItemKeyHasBucket(rows, ks[|ks| - 1]);
    if i < |ks| - 1 { CardAt(rows, ks[..|ks| - 1], i); }
  }

  function OfItemActivity(k: nat): Item -> bool { (it: Item) => it.activityPkid == k }

  /** No activity of the recent reports is without a card. */
  lemma EveryActivityHasCard(rows: seq<Item>, it: Item)
    requires it in rows
    ensures exists j :: 0 <= j < |ActivityCards(rows)| && ActivityCards(rows)[j].activityPkid == it.activityPkid
  {
    hide Bucket, KeysOf, CardsFor;
    var ks := KeysOf(rows, ActivityOfItem);
    KeysCover(rows, ActivityOfItem, it);
    var j :| 0 <= j < |ks| && ks[j] == it.activityPkid;
    CardAt(rows, ks, j);
    assert ActivityCards(rows)[j].activityPkid == it.activityPkid;
  }

  /** The point an item gives to the line of its activity. */
  predicate Point(it: Item, x: real) { it.averageScore == Some(x) || (it.averageScore == None && x == 0.0) }

  /** The card of an activity tells its items in the order of the reports: name
      and area of the first, a line through the scores of the last eight, the last
      point as the average shown, and the trend from the last point but one. */
  ghost predicate CardTells(card: ActivityCard, told: seq<Item>) {
    var line, n := card.sparkline, |card.sparkline|;
    && told != [] && n == (if |told| > 8 then 8 else |told|)
    && card.activityName == told[0].activityName && card.areaName == told[0].learningAreaName
    && (forall i | 0 <= i < n :: Point(told[|told| - n + i], line[i]))
    && card.averageScore == Some(line[n - 1])
    && TrendBetween(if n > 1 then Some(line[n - 2]) else None, card.averageScore, card.trend)
  }

  /** No activity gets two cards, each card tells exactly its activity's items,
      and its line stays on the 0-100 scale when the items do. */
  lemma CardsMatchActivities(rows: seq<Item>, i: nat)
    requires i < |ActivityCards(rows)|
    ensures forall j | 0 <= j < |ActivityCards(rows)| && j != i ::
      ActivityCards(rows)[j].activityPkid != ActivityCards(rows)[i].activityPkid
    ensures var card := ActivityCards(rows)[i];
      && CardTells(card, Filter(rows, OfItemActivity(card.activityPkid)))
      && ((forall it | it in rows :: OnScale(it.averageScore)) ==> forall x | x in card.sparkline :: 0.0 <= x <= 100.0)
  {
    hide Bucket, KeysOf, CardsFor, Filter, CardOf, CardTells;
    var ks := KeysOf(rows, ActivityOfItem);
    KeysDistinct(rows, ActivityOfItem);
    forall j | 0 <= j < |ks| ensures ActivityCards(rows)[j].activityPkid == ks[j] {
      CardAt(rows, ks, j);
      CardKey(ks[j], RowOf(Bucket(rows, ActivityOfItem, ks[j])));
    }
    CardAt(rows, ks, i);
    BucketIsFilter(rows, ActivityOfItem, ks[i], OfItemActivity(ks[i]));
    var told := Filter(rows, OfItemActivity(ks[i]));
    CardOfTold(ks[i], told);
    if forall it | it in rows :: OnScale(it.averageScore) {
      PlottedOnScale(told);
      LineInSeries(ks[i], told);
    }
  }

  lemma CardKey(k: nat, row: SeriesRow)
    requires row.series != []
    ensures CardOf(k, row).activityPkid == k
  {
  }

  lemma CardOfTold(k: nat, told: seq<Item>)
    requires told != []
    ensures CardTells(CardOf(k, RowOf(told)), told)
  {
    hide DeltaTrend, TrendBetween, Series;
    SeriesAt(told);
    var card := CardOf(k, RowOf(told));
    var n := |card.sparkline|;
    DeltaTells(card.averageScore, if n > 1 then Some(card.sparkline[n - 2]) else None);
  }

  lemma LineInSeries(k: nat, told: seq<Item>)
    requires told != []
    ensures forall x | x in CardOf(k, RowOf(told)).sparkline :: x in Series(told)
  {
    var series := Series(told);
    assert forall x | x in LastOf(series, 8) :: x in series;
  }

  lemma {:induction false} SeriesAt(items: seq<Item>)
    ensures forall i | 0 <= i < |items| :: Series(items)[i] == Plotted(items[i])
  {
    if items != [] { SeriesAt(items[..|items| - 1]); }
  }

  lemma {:induction false} PlottedOnScale(items: seq<Item>)
    requires forall it | it in items :: OnScale(it.averageScore)
    ensures forall x | x in Series(items) :: 0.0 <= x <= 100.0
  {
    if items != [] {
      assert items[|items| - 1] in items;
      PlottedOnScale(items[..|items| - 1]);
    }
  }

  ghost predicate Collected(rows: seq<Item>, order: seq<nat>, table: map<nat, SeriesRow>) {
    && order == KeysOf(rows, ActivityOfItem)
    && (forall k: nat :: k in table <==> k in order)
    && forall k | k in table ::
         Bucket(rows, ActivityOfItem, k) != [] && table[k] == RowOf(Bucket(rows, ActivityOfItem, k))
  }

  lemma CollectOne(rows: seq<Item>, it: Item, order: seq<nat>, table: map<nat, SeriesRow>)
    requires Collected(rows, order, table)
    ensures var k := it.activityPkid;
      var row := if k in table then table[k] else SeriesRow(it.activityName, it.learningAreaName, []);
      Collected(rows + [it], if k in table then order else order + [k],
                table[k := row.(series := row.series + [Plotted(it)])])
  {
    hide Bucket, KeysOf, RowOf;
    var k := it.activityPkid;
    KeysGrow(rows, it);
    OwnBucketGrows(rows, it);
    if k !in table { NoBucket(rows, ActivityOfItem, k); }
    forall j | j in table && j != k ensures Bucket(rows + [it], ActivityOfItem, j) == Bucket(rows, ActivityOfItem, j) {
      OtherBucketStays(rows, it, j);
    }
  }

  lemma KeysGrow(rows: seq<Item>, it: Item)
    ensures var ks := KeysOf(rows, ActivityOfItem);
      KeysOf(rows + [it], ActivityOfItem) == if it.activityPkid in ks then ks else ks + [it.activityPkid]
  {
    var u := rows + [it];
    assert u[..|u| - 1] == rows && u[|u| - 1] == it;
  }

  lemma OtherBucketStays(rows: seq<Item>, it: Item, j: nat)
    requires j != it.activityPkid
    ensures Bucket(rows + [it], ActivityOfItem, j) == Bucket(rows, ActivityOfItem, j)
  {
    var u := rows + [it];
    assert u[..|u| - 1] == rows && u[|u| - 1] == it;
  }

  /** The bucket of an item's activity gains the item; its row keeps the name and
      area it started with and gains a point. */
  lemma OwnBucketGrows(rows: seq<Item>, it: Item)
    ensures var b := Bucket(rows, ActivityOfItem, it.activityPkid);
      && Bucket(rows + [it], ActivityOfItem, it.activityPkid) == b + [it]
      && var row := if b == [] then SeriesRow(it.activityName, it.learningAreaName, []) else RowOf(b);
         RowOf(b + [it]) == row.(series := row.series + [Plotted(it)])
  {
    hide Plotted;
    var u, b := rows + [it], Bucket(rows, ActivityOfItem, it.activityPkid);
    assert u[..|u| - 1] == rows && u[|u| - 1] == it;
    assert (b + [it])[..|b|] == b;
  }

  method CollectSeries(items: seq<Item>, recent: seq<Snapshot>) returns (order: seq<nat>, table: map<nat, SeriesRow>)
    ensures Collected(ItemsOfAll(items, recent), order, table)
  {
    hide Collected;
    order, table := [], map[];
    CollectNone();
    for i := 0 to |recent|
      invariant Collected(ItemsOfAll(items, recent[..i]), order, table)
    {
      ghost var before := ItemsOfAll(items, recent[..i]);
      var snapItems := ItemsOf(items, recent[i].id);
      assert before + snapItems[..0] == before;
      for j := 0 to |snapItems|
        invariant Collected(before + snapItems[..j], order, table)
      {
        var it := snapItems[j];
        CollectOne(before + snapItems[..j], it, order, table);
        assert before + snapItems[..j] + [it] == before + snapItems[..j + 1];
        var row :=
          if it.activityPkid in table then table[it.activityPkid]
          else SeriesRow(it.activityName, it.learningAreaName, []);
        if it.activityPkid !in table { order := order + [it.activityPkid]; }
        table := table[it.activityPkid := row.(series := row.series + [Plotted(it)])];
      }
      assert snapItems[..|snapItems|] == snapItems;
      assert recent[..i + 1][..i] == recent[..i];
    }
    assert recent[..|recent|] == recent;
  }

  lemma CollectNone()
    ensures Collected([], [], map[])
  {
  }

  method RenderCards(ghost rows: seq<Item>, order: seq<nat>, table: map<nat, SeriesRow>)
    returns (cards: seq<ActivityCard>)
    requires Collected(rows, order, table)
    ensures cards == ActivityCards(rows)
  {
    hide Bucket, KeysOf, CardOf;
    cards := [];
    for i := 0 to |order|
      invariant cards == CardsFor(rows, order[..i])
    {
      assert order[..i + 1][..i] == order[..i];
      cards := cards + [CardOf(order[i], table[order[i]])];
    }
    assert order[..|order|] == order;
  }

  // ── the live answer ──────────────────────────────────────────────────────

  const SECONDS_PER_DAY := 86400

  function Cutoff(weeks: nat, now: int): int { now / SECONDS_PER_DAY - 7 * weeks }

  datatype Filters = Filters(reportType: Option<ReportType>, weeks: nat)

  predicate Wanted(s: Snapshot, f: Filters, now: int) {
    (f.reportType.Some? ==> s.period.reportType == f.reportType.value) && s.period.start >= Cutoff(f.weeks, now)
  }

  predicate EarlierPeriod(a: Snapshot, b: Snapshot) { a.period.start <= b.period.start }

  /** A student's reports that parents can see. */
  function OnShelf(schoolPkid: nat, studentPkid: nat): Snapshot -> bool {
    (s: Snapshot) => s.schoolPkid == schoolPkid && s.studentPkid == studentPkid && ParentVisible(s.status)
  }

  function WantedBy(f: Filters, now: int): Snapshot -> bool { (s: Snapshot) => Wanted(s, f, now) }

  function EmptyView(now: int): View { View(None, [], [], Some(now)) }

  /** The answer for a list of snapshots in period order. */
  function ViewOf(items: seq<Item>, snaps: seq<Snapshot>, now: int): View {
    if snaps == [] then EmptyView(now)
    else
      var latest := snaps[|snaps| - 1];
      var before := if |snaps| > 1 then ItemsOf(items, snaps[|snaps| - 2].id) else [];
      var recent := if |snaps| > 8 then snaps[|snaps| - 8..] else snaps;
      View(latest.overallScore,
           AreaCards(AreaScores(ItemsOf(items, latest.id)), AreaScores(before)),
           ActivityCards(ItemsOfAll(items, recent)),
           latest.publishedAt)
  }

  /** The dashboard of a student, whoever of the guardians asks. */
  function Live(db: Db, student: Student, f: Filters, now: int): View {
    var shelf := Filter(db.snapshots, OnShelf(student.schoolPkid, student.pkid));
    ViewOf(db.items, SortBy(Filter(shelf, WantedBy(f, now)), EarlierPeriod), now)
  }

  function StudentByUuid(rows: seq<Student>, text: string): Option<Student> {
    if rows == [] then None
    else if SameUuid(text, rows[0].id) then Some(rows[0])
    else StudentByUuid(rows[1..], text)
  }

  function VisibleTo(db: Db, schoolPkid: nat, studentPkid: nat, parentPkid: nat, f: Filters, now: int): Snapshot -> bool
  {
    (s: Snapshot) => s.schoolPkid == schoolPkid && s.studentPkid == studentPkid && ParentVisible(s.status)
      && Guardianship(parentPkid, s.studentPkid) in db.guardians && Wanted(s, f, now)
  }

  /** computeLiveDashboard for one caller. */
  function LiveFor(db: Db, schoolPkid: nat, userPkid: nat, text: string, f: Filters, now: int): View {
    var parent := ParentOf(db.parents, userPkid, schoolPkid);
    var student := StudentByUuid(db.students, text);
    if parent.None? || student.None? then EmptyView(now)
    else
      var found := Filter(db.snapshots, VisibleTo(db, schoolPkid, student.value.pkid, parent.value.pkid, f, now));
      ViewOf(db.items, SortBy(found, EarlierPeriod), now)
  }

  method ComputeLiveDashboard(db: Db, schoolPkid: nat, userPkid: nat, text: string, f: Filters, now: int)
    returns (view: View)
    ensures view == LiveFor(db, schoolPkid, userPkid, text, f, now)
  {
    hide Collected, AreaScores, ActivityCards, Filter, SortBy, StudentByUuid, ParentOf;
    hide ItemsOf, ItemsOfAll, AreaCards, VisibleTo;
    var parent := ParentOf(db.parents, userPkid, schoolPkid);
    var student := StudentByUuid(db.students, text);
    if parent.None? || student.None? { return EmptyView(now); }
    var found := Filter(db.snapshots, VisibleTo(db, schoolPkid, student.value.pkid, parent.value.pkid, f, now));
    var snaps := SortBy(found, EarlierPeriod);
    if snaps == [] { return EmptyView(now); }
    var latest := snaps[|snaps| - 1];
    var previousItems := if |snaps| > 1 then ItemsOf(db.items, snaps[|snaps| - 2].id) else [];
    var scoresNow := GroupAreaScores(ItemsOf(db.items, latest.id));
    var scoresPrev := GroupAreaScores(previousItems);
    var recent := if |snaps| > 8 then snaps[|snaps| - 8..] else snaps;
    var order, table := CollectSeries(db.items, recent);
    var cards := RenderCards(ItemsOfAll(db.items, recent), order, table);
    view := View(latest.overallScore, AreaCards(scoresNow, scoresPrev), cards, latest.publishedAt);
  }

  /** The parent guard: the caller is a parent in the school and a guardian of
      the student, who is enrolled there. */
  predicate Guarded(db: Db, schoolPkid: nat, userPkid: nat, text: string) {
    var parent, student := ParentOf(db.parents, userPkid, schoolPkid), StudentByUuid(db.students, text);
    && parent.Some? && student.Some? && student.value.schoolPkid == schoolPkid
    && Guardianship(parent.value.pkid, student.value.pkid) in db.guardians
  }

  /** All callers who pass the guard see the same dashboard. */
  lemma GuardedCallersAgree(db: Db, schoolPkid: nat, userPkid: nat, text: string, f: Filters, now: int)
    requires Guarded(db, schoolPkid, userPkid, text)
    ensures LiveFor(db, schoolPkid, userPkid, text, f, now) == Live(db, StudentByUuid(db.students, text).value, f, now)
  {
    hide ViewOf, SortBy;
    var parent, student := ParentOf(db.parents, userPkid, schoolPkid).value, StudentByUuid(db.students, text).value;
    FilterNested(db.snapshots, OnShelf(schoolPkid, student.pkid), WantedBy(f, now),
                 VisibleTo(db, schoolPkid, student.pkid, parent.pkid, f, now));
  }

  // ── what the live answer depends on ──────────────────────────────────────

  function Shelf(db: Db, schoolPkid: nat, studentPkid: nat): seq<Snapshot> {
    Filter(db.snapshots, OnShelf(schoolPkid, studentPkid))
  }

  /** The student's visible reports and their items are the same in both states. */
  ghost predicate SameShelf(db: Db, u: Db, schoolPkid: nat, studentPkid: nat) {
    && Shelf(u, schoolPkid, studentPkid) == Shelf(db, schoolPkid, studentPkid)
    && forall s | s in Shelf(db, schoolPkid, studentPkid) :: ItemsOf(u.items, s.id) == ItemsOf(db.items, s.id)
  }

  lemma {:induction false} SameItems(a: seq<Item>, b: seq<Item>, snaps: seq<Snapshot>)
    requires forall s | s in snaps :: ItemsOf(a, s.id) == ItemsOf(b, s.id)
    ensures ItemsOfAll(a, snaps) == ItemsOfAll(b, snaps)
  {
    if snaps != [] {
      assert snaps[|snaps| - 1] in snaps;
      SameItems(a, b, snaps[..|snaps| - 1]);
    }
  }

  lemma SameView(a: seq<Item>, b: seq<Item>, snaps: seq<Snapshot>, now: int)
    requires forall s | s in snaps :: ItemsOf(a, s.id) == ItemsOf(b, s.id)
    ensures ViewOf(a, snaps, now) == ViewOf(b, snaps, now)
  {
    hide ItemsOf, AreaCards, AreaScores, ActivityCards;
    if snaps != [] {
      assert snaps[|snaps| - 1] in snaps;
      assert |snaps| > 1 ==> snaps[|snaps| - 2] in snaps;
      SameItems(a, b, if |snaps| > 8 then snaps[|snaps| - 8..] else snaps);
    }
  }

  lemma SameShelfSameLive(db: Db, u: Db, student: Student, f: Filters, now: int)
    requires SameShelf(db, u, student.schoolPkid, student.pkid)
    ensures Live(u, student, f, now) == Live(db, student, f, now)
  {
    hide ViewOf, ItemsOf;
    var picked := Filter(Shelf(db, student.schoolPkid, student.pkid), WantedBy(f, now));
    SortPermutes(picked, EarlierPeriod);
    SameView(u.items, db.items, SortBy(picked, EarlierPeriod), now);
  }

  lemma SameShelfThrough(db: Db, u: Db, v: Db, schoolPkid: nat, studentPkid: nat)
    requires SameShelf(db, u, schoolPkid, studentPkid) && SameShelf(u, v, schoolPkid, studentPkid)
    ensures SameShelf(db, v, schoolPkid, studentPkid)
  {
  }

  lemma ClearKeepsShelf(db: Db, i: nat, schoolPkid: nat, studentPkid: nat)
    requires Inv(db) && i < |db.snapshots| && !ParentVisible(db.snapshots[i].status)
    ensures SameShelf(db, RemoveSnapshot(db, db.snapshots[i].id), schoolPkid, studentPkid)
  {
    hide Inv, ItemsOf;
    var o := db.snapshots[i];
    var shown := OnShelf(schoolPkid, studentPkid);
    forall s | s in db.snapshots && shown(s) ensures OtherSnapshot(o.id)(s) { IdsDiffer(db, o, s); }
    FilterAfter(db.snapshots, OtherSnapshot(o.id), shown);
    forall s | s in Shelf(db, schoolPkid, studentPkid)
      ensures ItemsOf(RemoveSnapshot(db, o.id).items, s.id) == ItemsOf(db.items, s.id)
    {
      ItemsOfOthers(db.items, o.id, s.id);
    }
  }

  lemma DraftKeepsShelf(db: Db, student: Student, p: Period, aggs: seq<ActivityAggregation>, creator: nat,
          schoolPkid: nat, studentPkid: nat)
    requires RowsOk(db) && ItemsOk(db)
    ensures SameShelf(db, WithDraft(db, student, student.schoolPkid, p, aggs, creator), schoolPkid, studentPkid)
  {
    hide ItemsOf, BuildItems;
    FilterConcat(db.snapshots, [NewSnapshot(db.nextId, student, student.schoolPkid, p, aggs, creator)],
      OnShelf(schoolPkid, studentPkid));
    forall s | s in Shelf(db, schoolPkid, studentPkid)
      ensures ItemsOf(db.items + BuildItems(db.nextId, aggs), s.id) == ItemsOf(db.items, s.id)
    {
      DraftItems(db, aggs, s.id);
    }
  }

  /** Regenerating a report never changes what any dashboard shows. */
  lemma GenerateKeepsShelf(db: Db, student: Student, p: Period, creator: nat, fault: Fault, schoolPkid: nat,
          studentPkid: nat)
    requires Inv(db) && student in db.students
    ensures SameShelf(db, Generate(db, student, student.schoolPkid, p, creator, fault).db, schoolPkid, studentPkid)
  {
    hide Inv, PeriodAggregations, SameShelf, RemoveSnapshot, WithDraft;
    var school := student.schoolPkid;
    StaysOnShelf(db, schoolPkid, studentPkid);
    if Commits(db, school, student.pkid, p, fault) {
      var i := PeriodIndex(db.snapshots, school, student.pkid, p);
      var base := Cleared(db, school, student.pkid, p);
      if i < |db.snapshots| { ClearKeepsShelf(db, i, schoolPkid, studentPkid); RemoveInv(db, db.snapshots[i]); }
      InvParts(base);
      var aggs := PeriodAggregations(db.reports, db.curriculum, school, student.pkid, p.start, p.end);
      DraftKeepsShelf(base, student, p, aggs, creator, schoolPkid, studentPkid);
      SameShelfThrough(db, base, WithDraft(base, student, school, p, aggs, creator), schoolPkid, studentPkid);
    }
  }

  lemma {:induction false} BulkKeepsShelf(db: Db, pupils: seq<Student>, school: nat, p: Period, creator: nat,
          faults: Faults, schoolPkid: nat, studentPkid: nat)
    requires Inv(db) && forall st | st in pupils :: st in db.students && st.schoolPkid == school
    ensures SameShelf(db, Bulk(db, pupils, school, p, creator, faults).db, schoolPkid, studentPkid)
  {
    hide Inv, Generate, SameShelf;
    StaysOnShelf(db, schoolPkid, studentPkid);
    if pupils != [] {
      var front, last := pupils[..|pupils| - 1], pupils[|pupils| - 1];
      assert last in pupils;
      BulkKeepsShelf(db, front, school, p, creator, faults, schoolPkid, studentPkid);
      BulkInv(db, front, school, p, creator, faults);
      var m := Bulk(db, front, school, p, creator, faults).db;
      GenerateKeepsShelf(m, last, p, creator, FaultOf(faults, last.pkid), schoolPkid, studentPkid);
      SameShelfThrough(db, m, Generate(m, last, school, p, creator, FaultOf(faults, last.pkid)).db, schoolPkid,
        studentPkid);
    }
  }

  lemma MoveKeepsShelf(db: Db, i: nat, saved: Snapshot, emitted: seq<Event>, schoolPkid: nat, studentPkid: nat)
    requires i < |db.snapshots|
    requires !OnShelf(schoolPkid, studentPkid)(db.snapshots[i]) && !OnShelf(schoolPkid, studentPkid)(saved)
    ensures SameShelf(db, db.(snapshots := db.snapshots[i := saved], events := db.events + emitted), schoolPkid,
      studentPkid)
  {
    FilterMap(db.snapshots, db.snapshots[i := saved], OnShelf(schoolPkid, studentPkid));
  }

  /** Reviewing a report, or publishing or sending another student's, changes no dashboard of this student. */
  lemma WorkflowKeepsShelf(db: Db, id: nat, school: nat, notes: Option<string>, user: nat, now: int, schoolPkid: nat,
          studentPkid: nat)
    ensures SameShelf(db, Review(db, id, school, notes, user, now).db, schoolPkid, studentPkid)
    ensures var out := Publish(db, id, school, user, now);
      (out.result.Ok? && out.result.value.studentPkid == studentPkid) || SameShelf(db, out.db, schoolPkid, studentPkid)
    ensures var out := Send(db, id, school, user, now);
      (out.result.Ok? && out.result.value.studentPkid == studentPkid) || SameShelf(db, out.db, schoolPkid, studentPkid)
  {
    hide ItemsOf, SameShelf;
    StaysOnShelf(db, schoolPkid, studentPkid);
    var i := IndexOf(db.snapshots, id, school);
    if i < |db.snapshots| {
      var o := db.snapshots[i];
      if PendingReview in Transitions(o.status) {
        MoveKeepsShelf(db, i, Reviewed(notes, user, now)(o), NoEvent(o), schoolPkid, studentPkid);
      }
      if o.studentPkid != studentPkid {
        if Published in Transitions(o.status) {
          MoveKeepsShelf(db, i, PublishedAt(user, now)(o), EmitPublished(o), schoolPkid, studentPkid);
        }
        if Sent in Transitions(o.status) {
          MoveKeepsShelf(db, i, SentAt(user, now)(o), EmitSent(o), schoolPkid, studentPkid);
        }
      }
    }
  }

  lemma StaysOnShelf(db: Db, schoolPkid: nat, studentPkid: nat)
    ensures SameShelf(db, db, schoolPkid, studentPkid)
  {
  }

  lemma PeriodsOrdered()
    ensures TotalPreorder(EarlierPeriod)
  {
  }

  /** The dashboard shows the latest report of those asked for: no other visible
      report of the type and within the weeks starts later, and the areas are
      those of its rollups. */
  lemma LiveShowsLatest(db: Db, student: Student, f: Filters, now: int)
    ensures var shown := Filter(Shelf(db, student.schoolPkid, student.pkid), WantedBy(f, now));
      var view := Live(db, student, f, now);
      if shown == [] then view == EmptyView(now)
      else exists s ::
        && s in shown && (forall t | t in shown :: t.period.start <= s.period.start)
        && view.overallScore == s.overallScore && view.lastUpdated == s.publishedAt
        && |view.areas| == |AreaScores(ItemsOf(db.items, s.id))|
        && forall i | 0 <= i < |view.areas| ::
             AreaScore(view.areas[i].areaName, view.areas[i].score) == AreaScores(ItemsOf(db.items, s.id))[i]
  {
    hide Filter, SortBy, AreaScores, ActivityCards, ItemsOf, ItemsOfAll;
    var shown := Filter(Shelf(db, student.schoolPkid, student.pkid), WantedBy(f, now));
    var snaps := SortBy(shown, EarlierPeriod);
    SortPermutes(shown, EarlierPeriod);
    PeriodsOrdered();
    SortSorts(shown, EarlierPeriod);
    if shown != [] {
      var latest := snaps[|snaps| - 1];
      forall t | t in shown ensures t.period.start <= latest.period.start {
        var i :| 0 <= i < |snaps| && snaps[i] == t;
        assert i == |snaps| - 1 || EarlierPeriod(snaps[i], snaps[|snaps| - 1]);
      }
      assert latest in shown;
    }
  }

  // ── what the live answer tells ───────────────────────────────────────────

  lemma {:induction false} ScoreFound(scores: seq<AreaScore>, area: string, i: nat)
    requires i < |scores| && scores[i].areaName == area
    requires forall j, k | 0 <= j < k < |scores| :: scores[j].areaName != scores[k].areaName
    ensures ScoreIn(scores, area) == scores[i].score
  {
    if i > 0 { ScoreFound(scores[1..], area, i - 1); }
  }

  lemma {:induction false} ScoreMissing(scores: seq<AreaScore>, area: string)
    requires forall j | 0 <= j < |scores| :: scores[j].areaName != area
    ensures ScoreIn(scores, area) == None
  {
    if scores != [] { ScoreMissing(scores[1..], area); }
  }

  /** The average of an area over some items; unknown without scored items. */
  function AreaMean(items: seq<Item>, area: string): Option<real> { MeanOf(Filter(items, OfArea(area)), AverageOfItem) }

  lemma AreaScoreAt(items: seq<Item>, i: nat)
    requires i < |AreaScores(items)|
    ensures var areas := KeysOf(items, AreaOfItem);
      |AreaScores(items)| == |areas| && AreaScores(items)[i] == AreaScore(areas[i], AreaMean(items, areas[i]))
  {
    hide KeysOf, Filter, Values, MeanOf;
    var area := KeysOf(items, AreaOfItem)[i];
    BucketIsFilter(items, AreaOfItem, area, OfArea(area));
    AverageIsMean(Filter(items, OfArea(area)), AverageOfItem);
  }

  lemma ScoreInIsMean(items: seq<Item>, area: string)
    ensures ScoreIn(AreaScores(items), area) == AreaMean(items, area)
  {
    hide KeysOf, Filter, MeanOf, AreaScores, AreaOfItem;
    var areas, scores := KeysOf(items, AreaOfItem), AreaScores(items);
    KeysDistinct(items, AreaOfItem);
    ScoresPerArea(items);
    forall i | 0 <= i < |scores| ensures scores[i] == AreaScore(areas[i], AreaMean(items, areas[i])) {
      AreaScoreAt(items, i);
    }
    if area in areas {
      var i :| 0 <= i < |areas| && areas[i] == area;
      ScoreFound(scores, area, i);
    } else {
      ScoreMissing(scores, area);
      forall it | it in items ensures AreaOfItem(it) != area { KeysCover(items, AreaOfItem, it); }
      FilterNone(items, OfArea(area));
      NoMean();
    }
  }

  lemma ScoresPerArea(items: seq<Item>)
    ensures |AreaScores(items)| == |KeysOf(items, AreaOfItem)|
  {
  }

  lemma NoMean()
    ensures MeanOf([], AverageOfItem) == None
  {
  }

  /** The area cards tell, for exactly the areas of the items `now`, their average
      there, the trend from their average in the items `before`, and their hue. */
  ghost predicate AreasTell(cards: seq<AreaCard>, now: seq<Item>, before: seq<Item>) {
    && (forall it | it in now :: exists c :: c in cards && c.areaName == AreaOfItem(it))
    && (forall i, j | 0 <= i < j < |cards| :: cards[i].areaName != cards[j].areaName)
    && forall c | c in cards ::
         && Filter(now, OfArea(c.areaName)) != []
         && c.score == AreaMean(now, c.areaName)
         && TrendBetween(AreaMean(before, c.areaName), c.score, c.trend)
         && c.hue == HueOf(c.areaName)
  }

  lemma CardsTellAreas(now: seq<Item>, before: seq<Item>)
    ensures AreasTell(AreaCards(AreaScores(now), AreaScores(before)), now, before)
  {
    hide KeysOf, Filter, AreaMean, AreaScores, HueOf, DeltaTrend, TrendBetween, ScoreIn;
    var areas, cards := KeysOf(now, AreaOfItem), AreaCards(AreaScores(now), AreaScores(before));
    KeysDistinct(now, AreaOfItem);
    ScoresPerArea(now);
    forall i | 0 <= i < |cards|
      ensures && cards[i].areaName == areas[i] && Filter(now, OfArea(areas[i])) != []
              && cards[i].score == AreaMean(now, areas[i])
              && TrendBetween(AreaMean(before, areas[i]), cards[i].score, cards[i].trend)
              && cards[i].hue == HueOf(areas[i])
    {
      AreaScoreAt(now, i);
      ScoreInIsMean(before, areas[i]);
      DeltaTells(AreaMean(now, areas[i]), AreaMean(before, areas[i]));
      var it := KeysOccur(now, AreaOfItem, areas[i]);
      assert it in Filter(now, OfArea(areas[i]));
    }
    forall it | it in now ensures exists c :: c in cards && c.areaName == AreaOfItem(it) {
      KeysCover(now, AreaOfItem, it);
      var i :| 0 <= i < |areas| && areas[i] == AreaOfItem(it);
      assert cards[i] in cards;
    }
  }

  /** A report the dashboard takes into account. */
  predicate Counts(s: Snapshot, student: Student, f: Filters, now: int) {
    && s.schoolPkid == student.schoolPkid && s.studentPkid == student.pkid
    && (s.status == Published || s.status == Sent)
    && (f.reportType == None || f.reportType == Some(s.period.reportType))
    && (s.period.start + 7 * f.weeks + 1) * 24 * 60 * 60 > now
  }

  lemma ShownCounts(s: Snapshot, student: Student, f: Filters, now: int)
    ensures Counts(s, student, f, now)
      <==> OnShelf(student.schoolPkid, student.pkid)(s) && WantedBy(f, now)(s)
  {
  }

  /** The whole live answer: with `snaps` the reports that count, in the order of
      their periods, it shows the overall score and time of the last, its areas
      with their trends from the last but one, and the activities of the last eight. */
  lemma LiveTells(db: Db, student: Student, f: Filters, now: int)
    ensures exists snaps: seq<Snapshot> ::
      && SortedBy(snaps, EarlierPeriod)
      && (forall s :: multiset(snaps)[s] == if Counts(s, student, f, now) then multiset(db.snapshots)[s] else 0)
      && var view, n := Live(db, student, f, now), |snaps|;
         if n == 0 then view == View(None, [], [], Some(now))
         else
           && view.overallScore == snaps[n - 1].overallScore && view.lastUpdated == snaps[n - 1].publishedAt
           && AreasTell(view.areas, ItemsOf(db.items, snaps[n - 1].id),
                        if n > 1 then ItemsOf(db.items, snaps[n - 2].id) else [])
           && view.activities == ActivityCards(ItemsOfAll(db.items, if n > 8 then snaps[n - 8..] else snaps))
  {
    hide Filter, SortBy, AreaScores, AreaCards, ActivityCards, ItemsOf, ItemsOfAll, AreasTell, Counts, Wanted;
    var shelf := Filter(db.snapshots, OnShelf(student.schoolPkid, student.pkid));
    var shown := Filter(shelf, WantedBy(f, now));
    var snaps := SortBy(shown, EarlierPeriod);
    SortPermutes(shown, EarlierPeriod);
    PeriodsOrdered();
    SortSorts(shown, EarlierPeriod);
    forall s ensures multiset(snaps)[s] == if Counts(s, student, f, now) then multiset(db.snapshots)[s] else 0 {
      ShownCounts(s, student, f, now);
      FilterCount(db.snapshots, OnShelf(student.schoolPkid, student.pkid), s);
      FilterCount(shelf, WantedBy(f, now), s);
    }
    if snaps != [] {
      CardsTellAreas(ItemsOf(db.items, snaps[|snaps| - 1].id),
        if |snaps| > 1 then ItemsOf(db.items, snaps[|snaps| - 2].id) else []);
    }
  }
}
