/** Rows of the reporting tables. Dates are day numbers counted from
    0000-01-01 (module Calendar), times are integer timestamps, scores are
    reals on the 0-100 scale. */
module Entities {
  import opened Collections

  datatype GradingType = Rubric | Numeric | YesNo | Frequency

  datatype GradingConfig =
    | NoConfig
    | NumericConfig(min: real, max: real)
    | FrequencyConfig(maxFrequency: real)

  datatype Activity = Activity(
    pkid: nat, id: string, schoolPkid: nat, name: string,
    gradingType: GradingType, gradingConfig: GradingConfig)

  datatype Student = Student(pkid: nat, id: string, schoolPkid: nat, fullName: string)

  datatype DailyReport = DailyReport(
    pkid: nat,
    schoolPkid: nat,
    studentPkid: nat,
    activityPkid: nat,
    date: int,
    createdAt: int,
    rawValue: string,
    normalisedScore: Option<real>,
    comments: Option<string>,
    visibleToParents: bool)

  /** The daily_report table in pkid order, with its serial. */
  datatype ReportTable = ReportTable(rows: seq<DailyReport>, nextPkid: nat)

  /** What every write to the table keeps: rows may come and go and their other
      columns may change, but an old row keeps its date, student and school, and
      a serial number is never given out twice. */
  ghost predicate Evolves(t: ReportTable, u: ReportTable) {
    && t.nextPkid <= u.nextPkid
    && forall r | r in u.rows && r.pkid < t.nextPkid ::
         exists o :: o in t.rows && o.pkid == r.pkid && SameIdentity(o, r)
  }

  predicate SameIdentity(o: DailyReport, r: DailyReport) {
    o.date == r.date && o.studentPkid == r.studentPkid && o.schoolPkid == r.schoolPkid
      && o.activityPkid == r.activityPkid
  }

  predicate ValidTable(t: ReportTable) {
    && (forall r | r in t.rows :: 0 < r.pkid < t.nextPkid)
    && (forall i, j | 0 <= i < j < |t.rows| :: t.rows[i].pkid < t.rows[j].pkid)
  }

  lemma EvolvesTransitive(t: ReportTable, u: ReportTable, v: ReportTable)
    requires Evolves(t, u) && Evolves(u, v)
    ensures Evolves(t, v)
  {
    forall r | r in v.rows && r.pkid < t.nextPkid
      ensures exists o :: o in t.rows && o.pkid == r.pkid && SameIdentity(o, r)
    {
      var m :| m in u.rows && m.pkid == r.pkid && SameIdentity(m, r);
      var o :| o in t.rows && o.pkid == m.pkid && SameIdentity(o, m);
    }
  }

  datatype Trend = Improving | Declining | Stable
}
