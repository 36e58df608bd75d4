/** The aggregation service: per-activity statistics of one student's
    observations in a period, the overall score and the trend rules. */
module Aggregation {
  import opened Collections
  import opened Entities

  // ── averages ─────────────────────────────────────────────────────────────

  function Sum(values: seq<real>): real {
    if values == [] then 0.0 else Sum(values[..|values| - 1]) + values[|values| - 1]
  }

  function Avg(values: seq<real>): Option<real> {
    if values == [] then None else Some(Sum(values) / |values| as real)
  }

  lemma {:induction false} SumConcat(a: seq<real>, b: seq<real>)
    ensures Sum(a + b) == Sum(a) + Sum(b)
  {
    if b == [] {
      assert a + b == a;
    } else {
      assert (a + b)[..|a + b| - 1] == a + b[..|b| - 1];
      SumConcat(a, b[..|b| - 1]);
    }
  }

  lemma {:induction false} SumBetween(values: seq<real>, lo: real, hi: real)
    requires forall v | v in values :: lo <= v <= hi
    ensures lo * |values| as real <= Sum(values) <= hi * |values| as real
  {
    if values != [] {
      var front := values[..|values| - 1];
      forall v | v in front ensures lo <= v <= hi { assert v in values; }
      SumBetween(front, lo, hi);
      assert values[|values| - 1] in values;
      var n := (|values| - 1) as real;
      assert |values| as real == n + 1.0;
      assert lo * (n + 1.0) == lo * n + lo && hi * (n + 1.0) == hi * n + hi;
    }
  }

  lemma NegativeProduct(x: real, n: real)
    requires n > 0.0
    ensures x < 0.0 ==> x * n < 0.0
  {
  }

  lemma DivideBounds(total: real, n: real, lo: real, hi: real)
    requires n > 0.0 && lo * n <= total <= hi * n
    ensures lo <= total / n <= hi
  {
    var q := total / n;
    assert (q - lo) * n == total - lo * n && (hi - q) * n == hi * n - total;
    NegativeProduct(q - lo, n);
    NegativeProduct(hi - q, n);
  }

  lemma Share(total: real, n: real, q: real)
    requires n > 0.0 && total == q * n
    ensures total / n == q
  {
  }

  /** An average lies between any bounds its inputs respect, in particular
      between the least and the greatest of them. */
  lemma AvgBetween(values: seq<real>, lo: real, hi: real)
    requires values != []
    requires forall v | v in values :: lo <= v <= hi
    ensures Avg(values).Some? && lo <= Avg(values).value <= hi
  {
    SumBetween(values, lo, hi);
    DivideBounds(Sum(values), |values| as real, lo, hi);
  }

  function Shifted(values: seq<real>, c: real): seq<real> {
    seq(|values|, i requires 0 <= i < |values| => values[i] + c)
  }

  lemma {:induction false} SumShifted(values: seq<real>, c: real)
    ensures Sum(Shifted(values, c)) == Sum(values) + c * |values| as real
  {
    if values != [] {
      var front := values[..|values| - 1];
      SumShifted(front, c);
      var s := Shifted(values, c);
      assert s[..|s| - 1] == Shifted(front, c);
      var n := |front| as real;
      assert |values| as real == n + 1.0;
      assert c * (n + 1.0) == c * n + c;
    }
  }

  lemma AvgShifted(values: seq<real>, c: real)
    requires values != []
    ensures Avg(Shifted(values, c)).Some?
    ensures Avg(Shifted(values, c)).value == Avg(values).value + c
  {
    SumShifted(values, c);
    var n := |values| as real;
    var q := Sum(values) / n;
    assert Sum(values) == q * n && (q + c) * n == q * n + c * n;
    Share(Sum(Shifted(values, c)), n, q + c);
  }

  /** The scores seen from the other end of the 0-100 scale. */
  function Mirrored(values: seq<real>): seq<real> {
    seq(|values|, i requires 0 <= i < |values| => 100.0 - values[i])
  }

  lemma {:induction false} SumMirrored(values: seq<real>)
    ensures Sum(Mirrored(values)) == 100.0 * |values| as real - Sum(values)
  {
    if values != [] {
      var front := values[..|values| - 1];
      SumMirrored(front);
      var s := Mirrored(values);
      assert s[..|s| - 1] == Mirrored(front);
    }
  }

  lemma AvgMirrored(values: seq<real>)
    requires values != []
    ensures Avg(Mirrored(values)).Some?
    ensures Avg(Mirrored(values)).value == 100.0 - Avg(values).value
  {
    SumMirrored(values);
    var n := |values| as real;
    var q := Sum(values) / n;
    assert Sum(values) == q * n && (100.0 - q) * n == 100.0 * n - q * n;
    Share(Sum(Mirrored(values)), n, 100.0 - q);
  }

  // ── means of a column that may be null ───────────────────────────────────

  /** The values there are, in order. */
  function Values<T>(rows: seq<T>, f: T -> Option<real>): (r: seq<real>)
    ensures forall v | v in r :: exists x :: x in rows && f(x) == Some(v)
  {
    if rows == [] then []
    else
      var rest := Values(rows[1..], f);
      if f(rows[0]).Some? then [f(rows[0]).value] + rest else rest
  }

  function Has<T>(f: T -> Option<real>): T -> bool { (x: T) => f(x).Some? }

  function SumOf<T>(rows: seq<T>, f: T -> Option<real>): real {
    if rows == [] then 0.0 else SumOf(rows[1..], f) + if f(rows[0]).Some? then f(rows[0]).value else 0.0
  }

  /** The sum of the values by the number of rows that have one. */
  function MeanOf<T>(rows: seq<T>, f: T -> Option<real>): Option<real> {
    var given := Filter(rows, Has(f));
    if given == [] then None else Some(SumOf(rows, f) / |given| as real)
  }

  function FirstGiven<T>(rows: seq<T>, f: T -> Option<real>): Option<real> {
    var given := Filter(rows, Has(f));
    if given == [] then None else f(given[0])
  }

  function LastGiven<T>(rows: seq<T>, f: T -> Option<real>): Option<real> {
    var given := Filter(rows, Has(f));
    if given == [] then None else f(given[|given| - 1])
  }

  /** The values are those of the rows that have one, row by row. */
  ghost predicate Lists<T>(rows: seq<T>, f: T -> Option<real>, values: seq<real>) {
    var given := Filter(rows, Has(f));
    |values| == |given| && forall i | 0 <= i < |given| :: f(given[i]) == Some(values[i])
  }

  lemma {:induction false} ValuesListed<T>(rows: seq<T>, f: T -> Option<real>)
    ensures Lists(rows, f, Values(rows, f))
  {
    if rows != [] {
      ValuesListed(rows[1..], f);
      ValuesStep(rows, f);
      hide Values, Filter;
    }
  }

  lemma ValuesStep<T>(rows: seq<T>, f: T -> Option<real>)
    requires rows != []
    ensures if f(rows[0]).Some? then
        && Values(rows, f) == [f(rows[0]).value] + Values(rows[1..], f)
        && Filter(rows, Has(f)) == [rows[0]] + Filter(rows[1..], Has(f))
      else Values(rows, f) == Values(rows[1..], f) && Filter(rows, Has(f)) == Filter(rows[1..], Has(f))
  {
  }

  lemma SumOfOne(x: real)
    ensures Sum([x]) == x
  {
    assert [x][..0] == [];
  }

  lemma {:induction false} ValuesAddUp<T>(rows: seq<T>, f: T -> Option<real>)
    ensures Sum(Values(rows, f)) == SumOf(rows, f)
  {
    if rows != [] {
      ValuesAddUp(rows[1..], f);
      if f(rows[0]).Some? {
        SumConcat([f(rows[0]).value], Values(rows[1..], f));
        SumOfOne(f(rows[0]).value);
      }
    }
  }

  /** Averaging the values there are gives the mean of the column. */
  lemma AverageIsMean<T>(rows: seq<T>, f: T -> Option<real>)
    ensures Avg(Values(rows, f)) == MeanOf(rows, f)
  {
    hide Sum, SumOf, Filter, Values;
    ValuesListed(rows, f);
    ValuesAddUp(rows, f);
  }

  lemma {:induction false} ValuesConcat<T>(a: seq<T>, b: seq<T>, f: T -> Option<real>)
    ensures Values(a + b, f) == Values(a, f) + Values(b, f)
  {
    if a == [] {
      assert a + b == b;
    } else {
      assert (a + b)[1..] == a[1..] + b;
      ValuesConcat(a[1..], b, f);
    }
  }

  // ── trend of one activity ────────────────────────────────────────────────

  const TREND_THRESHOLD: real := 5.0

  function TrendOfDelta(delta: real): Trend {
    if delta >= TREND_THRESHOLD then Improving
    else if delta <= -TREND_THRESHOLD then Declining
    else Stable
  }

  /** Compares the mean of the first half of the chronological scores with the
      mean of the second half; the middle score of an odd list is in the second. */
  function ComputeTrend(scores: seq<real>): Option<Trend> {
    if |scores| < 2 then None
    else
      var mid := |scores| / 2;
      Some(TrendOfDelta(Avg(scores[mid..]).value - Avg(scores[..mid]).value))
  }

  lemma HalvesDelta(early: real, late: real, m: real, k: real)
    requires m > 0.0 && k > 0.0
    ensures late / k - early / m >= TREND_THRESHOLD <==> late * m - early * k >= 5.0 * (m * k)
    ensures late / k - early / m <= -TREND_THRESHOLD <==> early * k - late * m >= 5.0 * (m * k)
  {
    var p, q := late / k, early / m;
    assert p * k == late && q * m == early;
    assert p * k * m == p * (m * k) && q * m * k == q * (m * k);
    assert (p - q - 5.0) * (m * k) == late * m - early * k - 5.0 * (m * k);
    assert (q - p - 5.0) * (m * k) == early * k - late * m - 5.0 * (m * k);
    Positive(m, k);
    NegativeProduct(p - q - 5.0, m * k);
    NegativeProduct(q - p - 5.0, m * k);
  }

  lemma Positive(m: real, k: real)
    requires m > 0.0 && k > 0.0
    ensures m * k > 0.0
  {
  }

  /** The trend of a series by the sums of its halves, the middle score of an odd
      series in the second: IMPROVING when the second half averages at least five
      points more, DECLINING when at least five less, STABLE in between. */
  ghost predicate HalvesTell(scores: seq<real>, trend: Option<Trend>) {
    if |scores| < 2 then trend == None
    else
      var mid := |scores| / 2;
      var m, k := mid as real, (|scores| - mid) as real;
      var gain := Sum(scores[mid..]) * m - Sum(scores[..mid]) * k;
      trend == if gain >= 5.0 * (m * k) then Some(Improving)
               else if -gain >= 5.0 * (m * k) then Some(Declining) else Some(Stable)
  }

  lemma TrendByHalves(scores: seq<real>)
    ensures HalvesTell(scores, ComputeTrend(scores))
  {
    hide Sum;
    if |scores| >= 2 {
      var mid := |scores| / 2;
      HalvesDelta(Sum(scores[..mid]), Sum(scores[mid..]), mid as real, (|scores| - mid) as real);
    }
  }

  function Opposite(t: Option<Trend>): Option<Trend> {
    match t
    case Some(Improving) => Some(Declining)
    case Some(Declining) => Some(Improving)
    case _ => t
  }

  ghost predicate Rising(scores: seq<real>) { forall i, j | 0 <= i < j < |scores| :: scores[i] <= scores[j] }

  ghost predicate Falling(scores: seq<real>) { forall i, j | 0 <= i < j < |scores| :: scores[i] >= scores[j] }

  /** A series that never falls is never DECLINING; one that never rises is never IMPROVING. */
  lemma MonotoneTrend(scores: seq<real>)
    ensures Rising(scores) ==> ComputeTrend(scores) != Some(Declining)
    ensures Falling(scores) ==> ComputeTrend(scores) != Some(Improving)
  {
    if |scores| >= 2 {
      hide Sum;
      var mid := |scores| / 2;
      if Rising(scores) { HalvesBetween(scores[..mid], scores[mid..], scores[0], scores[mid], scores[|scores| - 1]); }
      if Falling(scores) { HalvesBetween(scores[mid..], scores[..mid], scores[|scores| - 1], scores[mid], scores[0]); }
    }
  }

  lemma HalvesBetween(low: seq<real>, high: seq<real>, bottom: real, middle: real, top: real)
    requires low != [] && high != []
    requires forall i | 0 <= i < |low| :: bottom <= low[i] <= middle
    requires forall i | 0 <= i < |high| :: middle <= high[i] <= top
    ensures Avg(low).Some? && Avg(high).Some? && Avg(low).value <= middle <= Avg(high).value
  {
    AvgBetween(low, bottom, middle);
    AvgBetween(high, middle, top);
  }

  /** Raising every score by the same amount keeps the trend. */
  lemma TrendShiftInvariant(scores: seq<real>, c: real)
    ensures ComputeTrend(Shifted(scores, c)) == ComputeTrend(scores)
  {
    if |scores| >= 2 {
      var mid, s := |scores| / 2, Shifted(scores, c);
      assert s[..mid] == Shifted(scores[..mid], c) && s[mid..] == Shifted(scores[mid..], c);
      AvgShifted(scores[..mid], c);
      AvgShifted(scores[mid..], c);
    }
  }

  /** Reading the scale upside down swaps IMPROVING and DECLINING. */
  lemma TrendMirrors(scores: seq<real>)
    ensures ComputeTrend(Mirrored(scores)) == Opposite(ComputeTrend(scores))
  {
    if |scores| >= 2 {
      var mid, s := |scores| / 2, Mirrored(scores);
      assert s[..mid] == Mirrored(scores[..mid]) && s[mid..] == Mirrored(scores[mid..]);
      AvgMirrored(scores[..mid]);
      AvgMirrored(scores[mid..]);
    }
  }

  // ── aggregation of one activity ──────────────────────────────────────────

  datatype ActivityAggregation = ActivityAggregation(
    activityPkid: nat,
    activityName: string,
    learningAreaName: Option<string>,
    observationCount: nat,
    averageScore: Option<real>,
    firstScore: Option<real>,
    lastScore: Option<real>,
    trend: Option<Trend>,
    latestRawValue: string,
    scores: seq<real>)

  /** One row of the join of learning areas with their activities. */
  datatype AreaRow = AreaRow(activityPkid: nat, areaName: string)

  /** What the aggregation reads besides the observations: activity names and
      the area rows of the school in the order the query returns them. `rank`
      stands for the collation of the database and of localeCompare. */
  datatype Curriculum = Curriculum(names: map<nat, string>, areaRows: seq<AreaRow>, rank: string -> real)

  function NameOf(cur: Curriculum, activityPkid: nat): string {
    if activityPkid in cur.names then cur.names[activityPkid] else ""
  }

  /** The area of the first row of the activity. */
  function PrimaryArea(rows: seq<AreaRow>, activityPkid: nat): Option<string> {
    if rows == [] then None
    else
      var before := PrimaryArea(rows[..|rows| - 1], activityPkid);
      if before.None? && rows[|rows| - 1].activityPkid == activityPkid
      then Some(rows[|rows| - 1].areaName) else before
  }

  method ResolvePrimaryLearningAreas(rows: seq<AreaRow>) returns (result: map<nat, string>)
    ensures forall a: nat :: a in result <==> PrimaryArea(rows, a).Some?
    ensures forall a | a in result :: PrimaryArea(rows, a) == Some(result[a])
  {
    result := map[];
    for i := 0 to |rows|
      invariant forall a: nat :: a in result <==> PrimaryArea(rows[..i], a).Some?
      invariant forall a | a in result :: PrimaryArea(rows[..i], a) == Some(result[a])
    {
      assert rows[..i + 1][..i] == rows[..i];
      if rows[i].activityPkid !in result {
        result := result[rows[i].activityPkid := rows[i].areaName];
      }
    }
    assert rows[..|rows|] == rows;
  }

  /** When the query orders the rows by name, the primary area is the least name. */
  lemma {:induction false} PrimaryAreaIsLeast(rows: seq<AreaRow>, rank: string -> real, r: AreaRow)
    requires forall i, j | 0 <= i < j < |rows| :: rank(rows[i].areaName) <= rank(rows[j].areaName)
    requires r in rows
    ensures PrimaryArea(rows, r.activityPkid).Some?
    ensures rank(PrimaryArea(rows, r.activityPkid).value) <= rank(r.areaName)
    ensures AreaRow(r.activityPkid, PrimaryArea(rows, r.activityPkid).value) in rows
  {
    var front, last := rows[..|rows| - 1], rows[|rows| - 1];
    assert rows == front + [last];
    if r in front {
      PrimaryAreaIsLeast(front, rank, r);
    } else if PrimaryArea(front, r.activityPkid).Some? {
      PrimaryAreaPresent(front, r.activityPkid);
      var k :| 0 <= k < |front| && front[k] == AreaRow(r.activityPkid, PrimaryArea(front, r.activityPkid).value);
      assert rank(rows[k].areaName) <= rank(rows[|rows| - 1].areaName);
    }
  }

  lemma {:induction false} PrimaryAreaPresent(rows: seq<AreaRow>, a: nat)
    requires PrimaryArea(rows, a).Some?
    ensures AreaRow(a, PrimaryArea(rows, a).value) in rows
  {
    var front, last := rows[..|rows| - 1], rows[|rows| - 1];
    assert rows == front + [last];
    if PrimaryArea(front, a).Some? { PrimaryAreaPresent(front, a); }
  }

  function ScoreOf(r: DailyReport): Option<real> { r.normalisedScore }

  function AggregateActivity(rows: seq<DailyReport>, activityPkid: nat, name: string,
          area: Option<string>): ActivityAggregation
    requires rows != []
  {
    var scores := Values(rows, ScoreOf);
    ActivityAggregation(
      activityPkid, name, area, |rows|, Avg(scores),
      if scores == [] then None else Some(scores[0]),
      if scores == [] then None else Some(scores[|scores| - 1]),
      ComputeTrend(scores), rows[|rows| - 1].rawValue, scores)
  }

  // ── aggregation of a period ──────────────────────────────────────────────

  function InWindow(schoolPkid: nat, studentPkid: nat, from: int, to: int): DailyReport -> bool {
    (r: DailyReport) => r.schoolPkid == schoolPkid && r.studentPkid == studentPkid && from <= r.date <= to
  }

  predicate Chronological(a: DailyReport, b: DailyReport) {
    a.date < b.date || (a.date == b.date && a.createdAt <= b.createdAt)
  }

  /** The observations of the period in chronological order. */
  function WindowReports(reports: seq<DailyReport>, schoolPkid: nat, studentPkid: nat, from: int,
          to: int): seq<DailyReport>
  {
    SortBy(Filter(reports, InWindow(schoolPkid, studentPkid, from, to)), Chronological)
  }

  function ActivityOf(r: DailyReport): nat { r.activityPkid }

  /** One aggregation per activity, in order of first observation. */
  function Aggregations(rows: seq<DailyReport>, ks: seq<nat>, cur: Curriculum): (r: seq<ActivityAggregation>)
    requires forall k | k in ks :: k in KeysOf(rows, ActivityOf)
    ensures |r| == |ks|
  {
    if ks == [] then []
    else
      var k := ks[|ks| - 1];
      KeyHasBucket(rows, k);
      Aggregations(rows, ks[..|ks| - 1], cur)
      + [AggregateActivity(Bucket(rows, ActivityOf, k), k, NameOf(cur, k), PrimaryArea(cur.areaRows, k))]
  }

  lemma KeyHasBucket(rows: seq<DailyReport>, k: nat)
    requires k in KeysOf(rows, ActivityOf)
    ensures Bucket(rows, ActivityOf, k) != []
  {
    var r := KeysOccur(rows, ActivityOf, k);
    BucketMembers(rows, ActivityOf, k);
    assert r in Bucket(rows, ActivityOf, k);
  }

  function AreaSortKey(a: ActivityAggregation): string {
    if a.learningAreaName.Some? then a.learningAreaName.value else "zzz"
  }

  /** By learning-area name, then activity name. */
  function ByAreaThenName(rank: string -> real): (ActivityAggregation, ActivityAggregation) -> bool {
    (a: ActivityAggregation, b: ActivityAggregation) =>
      rank(AreaSortKey(a)) < rank(AreaSortKey(b))
      || (rank(AreaSortKey(a)) == rank(AreaSortKey(b)) && rank(a.activityName) <= rank(b.activityName))
  }

  /** What aggregateStudentPeriod returns. */
  function PeriodAggregations(
    reports: seq<DailyReport>, cur: Curriculum, schoolPkid: nat, studentPkid: nat, from: int, to: int)
    : seq<ActivityAggregation>
  {
    var rows := WindowReports(reports, schoolPkid, studentPkid, from, to);
    SortBy(Aggregations(rows, KeysOf(rows, ActivityOf), cur), ByAreaThenName(cur.rank))
  }

  lemma NothingObserved(cur: Curriculum)
    ensures SortBy(Aggregations([], KeysOf([], ActivityOf), cur), ByAreaThenName(cur.rank)) == []
  {
  }

  method AggregateStudentPeriod(
    reports: seq<DailyReport>, cur: Curriculum, schoolPkid: nat, studentPkid: nat, from: int, to: int)
    returns (aggregations: seq<ActivityAggregation>)
    ensures aggregations == PeriodAggregations(reports, cur, schoolPkid, studentPkid, from, to)
  {
    hide PrimaryArea, KeysOf, Bucket, SortBy, Filter, AggregateActivity;
    var rows := WindowReports(reports, schoolPkid, studentPkid, from, to);
    if rows == [] {
      NothingObserved(cur);
      return [];
    }
    var areas := ResolvePrimaryLearningAreas(cur.areaRows);
    var order, byActivity := GroupBy(rows, ActivityOf);
    aggregations := [];
    for i := 0 to |order|
      invariant aggregations == Aggregations(rows, order[..i], cur)
    {
      var k := order[i];
      assert order[..i + 1][..i] == order[..i];
      KeyHasBucket(rows, k);
      var area := if k in areas then Some(areas[k]) else None;
      aggregations := aggregations + [AggregateActivity(byActivity[k], k, NameOf(cur, k), area)];
    }
    assert order[..|order|] == order;
    aggregations := SortBy(aggregations, ByAreaThenName(cur.rank));
  }

  function PkidOfAggregation(a: ActivityAggregation): nat { a.activityPkid }

  function CountOf(a: ActivityAggregation): int { a.observationCount }

  function TotalObservations(aggs: seq<ActivityAggregation>): int { Total(aggs, CountOf) }

  function One(r: DailyReport): int { 1 }

  lemma {:induction false} TotalOne(rows: seq<DailyReport>)
    ensures Total(rows, One) == |rows|
  {
    if rows != [] { TotalOne(rows[..|rows| - 1]); }
  }

  lemma {:induction false} CountsAreBucketSizes(rows: seq<DailyReport>, ks: seq<nat>, cur: Curriculum)
    requires forall k | k in ks :: k in KeysOf(rows, ActivityOf)
    ensures TotalObservations(Aggregations(rows, ks, cur)) == GroupedTotal(rows, ActivityOf, ks, One)
  {
    if ks != [] {
      var front, k := ks[..|ks| - 1], ks[|ks| - 1];
      CountsAreBucketSizes(rows, front, cur);
      var aggs := Aggregations(rows, ks, cur);
      assert aggs[..|aggs| - 1] == Aggregations(rows, front, cur);
      TotalOne(Bucket(rows, ActivityOf, k));
    }
  }

  /** Grouping loses and duplicates nothing: the observation counts of a period
      add up to the number of observations the period holds. */
  lemma PeriodConserves(reports: seq<DailyReport>, cur: Curriculum, schoolPkid: nat, studentPkid: nat, from: int,
          to: int)
    ensures TotalObservations(PeriodAggregations(reports, cur, schoolPkid, studentPkid, from, to))
         == |Filter(reports, InWindow(schoolPkid, studentPkid, from, to))|
  {
    var rows := WindowReports(reports, schoolPkid, studentPkid, from, to);
    var aggs := Aggregations(rows, KeysOf(rows, ActivityOf), cur);
    SortPermutes(Filter(reports, InWindow(schoolPkid, studentPkid, from, to)), Chronological);
    SortPermutes(aggs, ByAreaThenName(cur.rank));
    TotalPermutes(aggs, SortBy(aggs, ByAreaThenName(cur.rank)), CountOf);
    CountsAreBucketSizes(rows, KeysOf(rows, ActivityOf), cur);
    GroupingConserves(rows, ActivityOf, One);
    TotalOne(rows);
  }

  lemma {:induction false} BucketSorted(rows: seq<DailyReport>, k: nat)
    requires SortedBy(rows, Chronological)
    ensures SortedBy(Bucket(rows, ActivityOf, k), Chronological)
  {
    if rows != [] {
      var front, last := rows[..|rows| - 1], rows[|rows| - 1];
      BucketSorted(front, k);
      BucketMembers(front, ActivityOf, k);
      var b := Bucket(front, ActivityOf, k);
      forall i | 0 <= i < |b| ensures Chronological(b[i], last) {
        assert b[i] in b && b[i] in front;
      }
    }
  }

  /** The aggregation of `a` describes exactly the observations `b`, oldest first. */
  ghost predicate Describes(a: ActivityAggregation, b: seq<DailyReport>) {
    && b != []
    && SortedBy(b, Chronological)
    && a.observationCount == |b|
    && a.averageScore == MeanOf(b, ScoreOf)
    && a.firstScore == FirstGiven(b, ScoreOf) && a.lastScore == LastGiven(b, ScoreOf)
    && Lists(b, ScoreOf, a.scores) && HalvesTell(a.scores, a.trend)
    && a.latestRawValue == b[|b| - 1].rawValue
    && (forall r | r in b :: Chronological(r, b[|b| - 1]))
  }

  lemma ChronologicalOrders()
    ensures TotalPreorder(Chronological)
  {
  }

  lemma {:induction false} AggregationsDescribe(rows: seq<DailyReport>, ks: seq<nat>, cur: Curriculum,
          a: ActivityAggregation)
    requires forall k | k in ks :: k in KeysOf(rows, ActivityOf)
    requires SortedBy(rows, Chronological)
    requires a in Aggregations(rows, ks, cur)
    ensures a.activityPkid in ks
    ensures a.activityName == NameOf(cur, a.activityPkid)
    ensures a.learningAreaName == PrimaryArea(cur.areaRows, a.activityPkid)
    ensures Describes(a, Bucket(rows, ActivityOf, a.activityPkid))
  {
    hide Bucket, Describes, PrimaryArea, Values, Avg, ComputeTrend, SortedBy;
    var front, k := ks[..|ks| - 1], ks[|ks| - 1];
    if a in Aggregations(rows, front, cur) {
      AggregationsDescribe(rows, front, cur, a);
    } else {
      KeyHasBucket(rows, k);
      BucketDescribed(rows, k, NameOf(cur, k), PrimaryArea(cur.areaRows, k));
    }
  }

  lemma BucketDescribed(rows: seq<DailyReport>, k: nat, name: string, area: Option<string>)
    requires SortedBy(rows, Chronological) && Bucket(rows, ActivityOf, k) != []
    ensures var b := Bucket(rows, ActivityOf, k); Describes(AggregateActivity(b, k, name, area), b)
  {
    hide Bucket, Values, ComputeTrend, HalvesTell, Sum, SumOf, Filter;
    var b := Bucket(rows, ActivityOf, k);
    BucketSorted(rows, k);
    ValuesListed(b, ScoreOf);
    AverageIsMean(b, ScoreOf);
    TrendByHalves(Values(b, ScoreOf));
    forall r | r in b ensures Chronological(r, b[|b| - 1]) {
      var i :| 0 <= i < |b| && b[i] == r;
    }
  }

  function OfActivity(schoolPkid: nat, studentPkid: nat, activityPkid: nat, from: int, to: int): DailyReport -> bool {
    (r: DailyReport) => r.schoolPkid == schoolPkid && r.studentPkid == studentPkid && r.activityPkid == activityPkid
      && from <= r.date <= to
  }

  lemma BucketOfPeriod(reports: seq<DailyReport>, schoolPkid: nat, studentPkid: nat, from: int, to: int, k: nat)
    ensures multiset(Bucket(WindowReports(reports, schoolPkid, studentPkid, from, to), ActivityOf, k))
         == multiset(Filter(reports, OfActivity(schoolPkid, studentPkid, k, from, to)))
  {
    hide Filter, SortBy, Bucket;
    var rows := WindowReports(reports, schoolPkid, studentPkid, from, to);
    var bucket, wanted := Bucket(rows, ActivityOf, k),
      Filter(reports, OfActivity(schoolPkid, studentPkid, k, from, to));
    SortPermutes(Filter(reports, InWindow(schoolPkid, studentPkid, from, to)), Chronological);
    forall x ensures multiset(bucket)[x] == multiset(wanted)[x] {
      BucketCount(rows, ActivityOf, k, x);
      FilterCount(reports, InWindow(schoolPkid, studentPkid, from, to), x);
      FilterCount(reports, OfActivity(schoolPkid, studentPkid, k, from, to), x);
    }
  }

  /** Every aggregation of a period describes, in chronological order, exactly
      the period's observations of its activity, each once. */
  lemma PeriodIsFaithful(
    reports: seq<DailyReport>, cur: Curriculum, schoolPkid: nat, studentPkid: nat, from: int, to: int,
      a: ActivityAggregation)
    requires a in PeriodAggregations(reports, cur, schoolPkid, studentPkid, from, to)
    ensures a.activityName == NameOf(cur, a.activityPkid)
    ensures a.learningAreaName == PrimaryArea(cur.areaRows, a.activityPkid)
    ensures exists b ::
      Describes(a, b) && multiset(b)
        == multiset(Filter(reports, OfActivity(schoolPkid, studentPkid, a.activityPkid, from, to)))
  {
    hide Describes;
    var sel := Filter(reports, InWindow(schoolPkid, studentPkid, from, to));
    var rows := WindowReports(reports, schoolPkid, studentPkid, from, to);
    ChronologicalOrders();
    SortSorts(sel, Chronological);
    var aggs := Aggregations(rows, KeysOf(rows, ActivityOf), cur);
    SortPermutes(aggs, ByAreaThenName(cur.rank));
    AggregationsDescribe(rows, KeysOf(rows, ActivityOf), cur, a);
    BucketOfPeriod(reports, schoolPkid, studentPkid, from, to, a.activityPkid);
  }

  lemma {:induction false} AggregationKeys(rows: seq<DailyReport>, ks: seq<nat>, cur: Curriculum)
    requires forall k | k in ks :: k in KeysOf(rows, ActivityOf)
    ensures forall i | 0 <= i < |ks| :: Aggregations(rows, ks, cur)[i].activityPkid == ks[i]
  {
    if ks != [] { AggregationKeys(rows, ks[..|ks| - 1], cur); }
  }

  /** No activity is listed twice in a period, and the list comes out by area
      name, then activity name. */
  lemma PeriodInOrder(reports: seq<DailyReport>, cur: Curriculum, schoolPkid: nat, studentPkid: nat, from: int, to: int)
    ensures var aggs := PeriodAggregations(reports, cur, schoolPkid, studentPkid, from, to);
      && SortedBy(aggs, ByAreaThenName(cur.rank))
      && forall i, j | 0 <= i < j < |aggs| :: aggs[i].activityPkid != aggs[j].activityPkid
  {
    hide Filter, SortBy, KeysOf, Aggregations;
    var rows := WindowReports(reports, schoolPkid, studentPkid, from, to);
    var plain := Aggregations(rows, KeysOf(rows, ActivityOf), cur);
    AggregationKeys(rows, KeysOf(rows, ActivityOf), cur);
    KeysDistinct(rows, ActivityOf);
    SortPermutes(plain, ByAreaThenName(cur.rank));
    SortSorts(plain, ByAreaThenName(cur.rank));
    KeysStayApart(plain, SortBy(plain, ByAreaThenName(cur.rank)), PkidOfAggregation);
  }

  /** Every observed activity is listed. */
  lemma PeriodListsActivities(
    reports: seq<DailyReport>, cur: Curriculum, schoolPkid: nat, studentPkid: nat, from: int, to: int, r: DailyReport)
    requires r in reports && InWindow(schoolPkid, studentPkid, from, to)(r)
    ensures var aggs := PeriodAggregations(reports, cur, schoolPkid, studentPkid, from, to);
      && (exists a :: a in aggs && a.activityPkid == r.activityPkid)
      && SortedBy(aggs, ByAreaThenName(cur.rank))
      && forall i, j | 0 <= i < j < |aggs| :: aggs[i].activityPkid != aggs[j].activityPkid
  {
    hide Filter, SortBy, KeysOf, Aggregations, Bucket;
    var rows := WindowReports(reports, schoolPkid, studentPkid, from, to);
    SortPermutes(Filter(reports, InWindow(schoolPkid, studentPkid, from, to)), Chronological);
    PeriodInOrder(reports, cur, schoolPkid, studentPkid, from, to);
    var ks := KeysOf(rows, ActivityOf);
    var plain := Aggregations(rows, ks, cur);
    KeysCover(rows, ActivityOf, r);
    AggregationKeys(rows, ks, cur);
    SortPermutes(plain, ByAreaThenName(cur.rank));
    var i :| 0 <= i < |ks| && ks[i] == r.activityPkid;
    assert plain[i] in plain;
  }

  predicate OnScale(s: Option<real>) { s.Some? ==> 0.0 <= s.value <= 100.0 }

  /** Scores on the 0-100 scale give activity averages on that scale. */
  lemma PeriodOnScale(
    reports: seq<DailyReport>, cur: Curriculum, schoolPkid: nat, studentPkid: nat, from: int, to: int)
    requires forall r | r in reports :: OnScale(r.normalisedScore)
    ensures forall a | a in PeriodAggregations(reports, cur, schoolPkid, studentPkid, from, to) ::
      OnScale(a.averageScore) && OnScale(a.firstScore) && OnScale(a.lastScore)
    ensures OnScale(ComputeOverallScore(PeriodAggregations(reports, cur, schoolPkid, studentPkid, from, to)))
  {
    var sel := Filter(reports, InWindow(schoolPkid, studentPkid, from, to));
    var rows := WindowReports(reports, schoolPkid, studentPkid, from, to);
    ChronologicalOrders();
    SortSorts(sel, Chronological);
    SortPermutes(sel, Chronological);
    var aggs := Aggregations(rows, KeysOf(rows, ActivityOf), cur);
    SortPermutes(aggs, ByAreaThenName(cur.rank));
    forall a | a in PeriodAggregations(reports, cur, schoolPkid, studentPkid, from, to)
      ensures OnScale(a.averageScore) && OnScale(a.firstScore) && OnScale(a.lastScore)
    {
      AggregationsOnScale(rows, KeysOf(rows, ActivityOf), cur, a);
    }
    OverallOnScale(PeriodAggregations(reports, cur, schoolPkid, studentPkid, from, to));
  }

  lemma {:induction false} AggregationsOnScale(rows: seq<DailyReport>, ks: seq<nat>, cur: Curriculum,
          a: ActivityAggregation)
    requires forall k | k in ks :: k in KeysOf(rows, ActivityOf)
    requires forall r | r in rows :: OnScale(r.normalisedScore)
    requires a in Aggregations(rows, ks, cur)
    ensures OnScale(a.averageScore) && OnScale(a.firstScore) && OnScale(a.lastScore)
  {
    var front, k := ks[..|ks| - 1], ks[|ks| - 1];
    if a in Aggregations(rows, front, cur) {
      AggregationsOnScale(rows, front, cur, a);
    } else {
      var b := Bucket(rows, ActivityOf, k);
      BucketMembers(rows, ActivityOf, k);
      var scores := Values(b, ScoreOf);
      assert forall v | v in scores :: 0.0 <= v <= 100.0;
      if scores != [] { AvgBetween(scores, 0.0, 100.0); }
    }
  }

  // ── overall figures ──────────────────────────────────────────────────────

  function AverageOf(a: ActivityAggregation): Option<real> { a.averageScore }

  function ComputeOverallScore(aggs: seq<ActivityAggregation>): Option<real> { Avg(Values(aggs, AverageOf)) }

  /** The overall score is the mean of the averages of the activities that have
      one, each activity weighing the same however often it was observed. */
  lemma OverallIsMean(aggs: seq<ActivityAggregation>)
    ensures ComputeOverallScore(aggs) == MeanOf(aggs, AverageOf)
  {
    AverageIsMean(aggs, AverageOf);
  }

  lemma OverallOnScale(aggs: seq<ActivityAggregation>)
    requires forall a | a in aggs :: OnScale(a.averageScore)
    ensures OnScale(ComputeOverallScore(aggs))
  {
    var scores := Values(aggs, AverageOf);
    if scores != [] { AvgBetween(scores, 0.0, 100.0); }
  }

  function TrendIs(t: Trend): Option<Trend> -> bool { (x: Option<Trend>) => x == Some(t) }

  function HasTrend(x: Option<Trend>): bool { x.Some? }

  /** Majority vote of the activity trends; ties are STABLE, no trend at all is null. */
  function MajorityTrend(trends: seq<Option<Trend>>): Option<Trend> {
    var improving := |Filter(trends, TrendIs(Improving))|;
    var declining := |Filter(trends, TrendIs(Declining))|;
    if Filter(trends, HasTrend) == [] then None
    else if improving > declining then Some(Improving)
    else if declining > improving then Some(Declining)
    else Some(Stable)
  }

  function TrendsOf(aggs: seq<ActivityAggregation>): seq<Option<Trend>> {
    seq(|aggs|, i requires 0 <= i < |aggs| => aggs[i].trend)
  }

  function ComputeOverallTrend(aggs: seq<ActivityAggregation>): Option<Trend> { MajorityTrend(TrendsOf(aggs)) }

  lemma {:induction false} TrendCount(trends: seq<Option<Trend>>, t: Trend)
    ensures |Filter(trends, TrendIs(t))| == multiset(trends)[Some(t)]
  {
    if trends != [] {
      TrendCount(trends[1..], t);
      assert trends == [trends[0]] + trends[1..];
    }
  }

  lemma {:induction false} SomeTrend(trends: seq<Option<Trend>>)
    ensures Filter(trends, HasTrend) == [] <==> forall t :: Some(t) !in multiset(trends)
  {
    forall t ensures Some(t) in multiset(trends) <==> Some(t) in trends {}
    var f := Filter(trends, HasTrend);
    if f != [] { assert f[0] in f && f[0].Some? && f[0] in trends; assert Some(f[0].value) in trends; }
    if t :| Some(t) in trends { assert Some(t) in f; }
  }

  /** The vote by counts: more rising than falling activities make it IMPROVING,
      fewer DECLINING, as many STABLE, and no trend at all none. */
  ghost predicate Voted(trends: seq<Option<Trend>>, vote: Option<Trend>) {
    var up, down := multiset(trends)[Some(Improving)], multiset(trends)[Some(Declining)];
    vote == if forall x | x in trends :: x == None then None
            else if up > down then Some(Improving) else if down > up then Some(Declining) else Some(Stable)
  }

  lemma MajorityByCounts(trends: seq<Option<Trend>>)
    ensures Voted(trends, MajorityTrend(trends))
  {
    TrendCount(trends, Improving);
    TrendCount(trends, Declining);
    if forall x | x in trends :: x == None {
      FilterNone(trends, HasTrend);
    } else {
      var x :| x in trends && x != None;
      assert x in Filter(trends, HasTrend);
    }
  }

  /** The vote does not depend on the order of the activities. */
  lemma MajorityPermutes(a: seq<Option<Trend>>, b: seq<Option<Trend>>)
    requires multiset(a) == multiset(b)
    ensures MajorityTrend(a) == MajorityTrend(b)
  {
    TrendCount(a, Improving);
    TrendCount(b, Improving);
    TrendCount(a, Declining);
    TrendCount(b, Declining);
    SomeTrend(a);
    SomeTrend(b);
  }

  function AllOpposite(trends: seq<Option<Trend>>): seq<Option<Trend>> {
    seq(|trends|, i requires 0 <= i < |trends| => Opposite(trends[i]))
  }

  lemma {:induction false} OppositeCount(trends: seq<Option<Trend>>, p: Option<Trend> -> bool, q: Option<Trend> -> bool)
    requires forall x | x in trends :: p(Opposite(x)) == q(x)
    ensures |Filter(AllOpposite(trends), p)| == |Filter(trends, q)|
  {
    hide Opposite;
    if trends != [] {
      var o := AllOpposite(trends);
      assert o[0] == Opposite(trends[0]) && o[1..] == AllOpposite(trends[1..]);
      OppositeCount(trends[1..], p, q);
    }
  }

  /** Swapping IMPROVING and DECLINING everywhere flips the vote. */
  lemma MajorityFlips(trends: seq<Option<Trend>>)
    ensures MajorityTrend(AllOpposite(trends)) == Opposite(MajorityTrend(trends))
  {
    OppositeCount(trends, TrendIs(Improving), TrendIs(Declining));
    OppositeCount(trends, TrendIs(Declining), TrendIs(Improving));
    OppositeCount(trends, HasTrend, HasTrend);
  }
}
