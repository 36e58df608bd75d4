/** The daily-report service: single and batch recording, correction and
    removal of observations over the daily_report table. */
module DailyReports {
  import opened Collections
  import opened Entities
  import opened Normalisation
  import opened TextReaders
  import opened Uuids

  datatype ReportError =
    | ActivityNotFound
    | StudentNotFound
    | ReportNotFound
    | EmptyBatch
    | NullRefused
    | BadValue(reason: RawValueError)

  /** The rows the service looks things up in. */
  datatype Registry = Registry(activities: seq<Activity>, students: seq<Student>)

  /** An optional field of a request: null is not the same as left out. */
  datatype Sent<T> = Absent | Null | Value(value: T)

  /** The column after a write of the field: null clears it. */
  function Chosen(sent: Sent<string>, stored: Option<string>): Option<string> {
    match sent
    case Absent => stored
    case Null => None
    case Value(text) => Some(text)
  }

  /** What one observation request carries besides its activity and day. */
  datatype Observation = Observation(studentId: string, rawValue: string, comments: Sent<string>)

  datatype Outcome = Outcome(table: ReportTable, result: Result<DailyReport, ReportError>)

  // ── lookups ──────────────────────────────────────────────────────────────

  function FindActivity(rows: seq<Activity>, id: string, schoolPkid: nat): Option<Activity> {
    if rows == [] then None
    else if SameUuid(id, rows[0].id) && rows[0].schoolPkid == schoolPkid then Some(rows[0])
    else FindActivity(rows[1..], id, schoolPkid)
  }

  function FindStudent(rows: seq<Student>, id: string, schoolPkid: nat): Option<Student> {
    if rows == [] then None
    else if SameUuid(id, rows[0].id) && rows[0].schoolPkid == schoolPkid then Some(rows[0])
    else FindStudent(rows[1..], id, schoolPkid)
  }

  /** studentMap.get: the batch compares the texts themselves. */
  function StudentByText(rows: seq<Student>, id: string, schoolPkid: nat): Option<Student> {
    if rows == [] then None
    else if id == rows[0].id && rows[0].schoolPkid == schoolPkid then Some(rows[0])
    else StudentByText(rows[1..], id, schoolPkid)
  }

  /** Uuids are stored in lower case; public ids of students and pkids are unique. */
  predicate ValidRegistry(reg: Registry) {
    && (forall s | s in reg.students :: ToLower(s.id) == s.id)
    && (forall i, j | 0 <= i < j < |reg.students| ::
          reg.students[i].id != reg.students[j].id && reg.students[i].pkid != reg.students[j].pkid)
    && (forall i, j | 0 <= i < j < |reg.activities| :: reg.activities[i].pkid != reg.activities[j].pkid)
  }

  // ── upsert ───────────────────────────────────────────────────────────────

  datatype Slot = Slot(studentPkid: nat, activityPkid: nat, date: int)

  function SlotOf(r: DailyReport): Slot { Slot(r.studentPkid, r.activityPkid, r.date) }

  /** Index of the row of a slot, or the number of rows. */
  function SlotIndex(rows: seq<DailyReport>, slot: Slot): (i: nat)
    ensures i <= |rows|
    ensures i < |rows| ==> SlotOf(rows[i]) == slot
    ensures forall j | 0 <= j < i :: SlotOf(rows[j]) != slot
  {
    if rows == [] then 0
    else if SlotOf(rows[0]) == slot then 0
    else 1 + SlotIndex(rows[1..], slot)
  }

  datatype Entry = Entry(slot: Slot, schoolPkid: nat, rawValue: string, normalisedScore: real, comments: Sent<string>,
    now: int)

  function Corrected(r: DailyReport, e: Entry): DailyReport {
    r.(rawValue := e.rawValue,
       normalisedScore := Some(e.normalisedScore),
       comments := Chosen(e.comments, r.comments))
  }

  function NewRow(pkid: nat, e: Entry): DailyReport {
    DailyReport(pkid, e.schoolPkid, e.slot.studentPkid, e.slot.activityPkid, e.slot.date, e.now,
                e.rawValue, Some(e.normalisedScore), Chosen(e.comments, None), true)
  }

  function UpsertRow(t: ReportTable, e: Entry): DailyReport {
    var i := SlotIndex(t.rows, e.slot);
    if i < |t.rows| then Corrected(t.rows[i], e) else NewRow(t.nextPkid, e)
  }

  function Upsert(t: ReportTable, e: Entry): ReportTable {
    var i := SlotIndex(t.rows, e.slot);
    if i < |t.rows| then ReportTable(t.rows[i := UpsertRow(t, e)], t.nextPkid)
    else ReportTable(t.rows + [UpsertRow(t, e)], t.nextPkid + 1)
  }

  function EntryOf(s: Student, a: Activity, schoolPkid: nat, date: int, o: Observation, now: int): Entry {
    Entry(Slot(s.pkid, a.pkid, date), schoolPkid, o.rawValue, Normalise(o.rawValue, a), o.comments, now)
  }

  // ── requests on values ───────────────────────────────────────────────────

  function SingleOutcome(t: ReportTable, reg: Registry, schoolPkid: nat, activityId: string, date: int, o: Observation,
          now: int): Outcome
  {
    var a := FindActivity(reg.activities, activityId, schoolPkid);
    var s := FindStudent(reg.students, o.studentId, schoolPkid);
    if a.None? then Outcome(t, Err(ActivityNotFound))
    else if s.None? then Outcome(t, Err(StudentNotFound))
    else RecordOutcome(t, s.value, a.value, schoolPkid, date, o, now)
  }

  function RecordOutcome(t: ReportTable, s: Student, a: Activity, schoolPkid: nat, date: int, o: Observation,
          now: int): Outcome
  {
    match ValidateRawValue(o.rawValue, a)
    case Err(e) => Outcome(t, Err(BadValue(e)))
    case Ok(_) =>
      var e := EntryOf(s, a, schoolPkid, date, o, now);
      Outcome(Upsert(t, e), Ok(UpsertRow(t, e)))
  }

  function ItemOutcome(t: ReportTable, reg: Registry, schoolPkid: nat, a: Activity, date: int, o: Observation,
          now: int): Outcome
  {
    var s := StudentByText(reg.students, o.studentId, schoolPkid);
    if s.None? then Outcome(t, Err(StudentNotFound))
    else RecordOutcome(t, s.value, a, schoolPkid, date, o, now)
  }

  datatype BatchState = BatchState(table: ReportTable, results: seq<Result<DailyReport, ReportError>>)

  /** The items processed one after another, errors captured per item. */
  function BatchItems(t: ReportTable, reg: Registry, schoolPkid: nat, a: Activity, date: int, items: seq<Observation>,
          now: int): (b: BatchState)
    ensures |b.results| == |items|
  {
    if items == [] then BatchState(t, [])
    else
      var before := BatchItems(t, reg, schoolPkid, a, date, items[..|items| - 1], now);
      var last := ItemOutcome(before.table, reg, schoolPkid, a, date, items[|items| - 1], now);
      BatchState(last.table, before.results + [last.result])
  }

  function Accepted(results: seq<Result<DailyReport, ReportError>>): nat {
    if results == [] then 0
    else Accepted(results[..|results| - 1]) + if results[|results| - 1].Ok? then 1 else 0
  }

  datatype Patch = Patch(rawValue: Option<string>, comments: Sent<string>, visibleToParents: Sent<bool>)

  function RowIndex(rows: seq<DailyReport>, pkid: nat, schoolPkid: nat): (i: nat)
    ensures i <= |rows|
    ensures i < |rows| ==> rows[i].pkid == pkid && rows[i].schoolPkid == schoolPkid
  {
    if rows == [] then 0
    else if rows[0].pkid == pkid && rows[0].schoolPkid == schoolPkid then 0
    else 1 + RowIndex(rows[1..], pkid, schoolPkid)
  }

  function ActivityByPkid(rows: seq<Activity>, pkid: nat): Option<Activity> {
    if rows == [] then None else if rows[0].pkid == pkid then Some(rows[0]) else ActivityByPkid(rows[1..], pkid)
  }

  function Patched(r: DailyReport, p: Patch, score: Option<real>): DailyReport {
    r.(rawValue := if score.Some? && p.rawValue.Some? then p.rawValue.value else r.rawValue,
       normalisedScore := if score.Some? then score else r.normalisedScore,
       comments := Chosen(p.comments, r.comments),
       visibleToParents := if p.visibleToParents.Value? then p.visibleToParents.value else r.visibleToParents)
  }

  /** An empty rawValue in the patch counts as absent, as null does; the
      visibility column takes no null. */
  function UpdateOutcome(t: ReportTable, reg: Registry, schoolPkid: nat, pkid: nat, p: Patch): Outcome {
    var i := RowIndex(t.rows, pkid, schoolPkid);
    if i == |t.rows| then Outcome(t, Err(ReportNotFound))
    else
      var a := ActivityByPkid(reg.activities, t.rows[i].activityPkid);
      if a.None? then Outcome(t, Err(ActivityNotFound))
      else if p.rawValue.Some? && p.rawValue.value != "" then
        match ValidateRawValue(p.rawValue.value, a.value)
        case Err(e) => Outcome(t, Err(BadValue(e)))
        case Ok(_) => SaveRow(t, i, p, Patched(t.rows[i], p, Some(Normalise(p.rawValue.value, a.value))))
      else SaveRow(t, i, p, Patched(t.rows[i], p, None))
  }

  function SaveRow(t: ReportTable, i: nat, p: Patch, r: DailyReport): Outcome
    requires i < |t.rows|
  {
    if p.visibleToParents.Null? then Outcome(t, Err(NullRefused))
    else Outcome(ReportTable(t.rows[i := r], t.nextPkid), Ok(r))
  }

  function RemoveOutcome(t: ReportTable, schoolPkid: nat, pkid: nat): Outcome {
    var i := RowIndex(t.rows, pkid, schoolPkid);
    if i == |t.rows| then Outcome(t, Err(ReportNotFound))
    else Outcome(ReportTable(t.rows[..i] + t.rows[i + 1..], t.nextPkid), Ok(t.rows[i]))
  }

  // ── the service ──────────────────────────────────────────────────────────

  class DailyReportService {
    /** The rows of the activity and student services. */
    var registry: Registry
    var rows: seq<DailyReport>
    var nextPkid: nat

    constructor (registry: Registry)
      ensures this.registry == registry && Table() == ReportTable([], 1)
    {
      this.registry := registry;
      rows, nextPkid := [], 1;
    }

    ghost function Table(): ReportTable
      reads this
    {
      ReportTable(rows, nextPkid)
    }

    method UpsertReport(e: Entry) returns (report: DailyReport)
      modifies this`rows, this`nextPkid
      ensures Table() == Upsert(old(Table()), e)
      ensures report == UpsertRow(old(Table()), e)
    {
      var i := SlotIndex(rows, e.slot);
      if i < |rows| {
        var existing := rows[i];
        existing := existing.(rawValue := e.rawValue, normalisedScore := Some(e.normalisedScore));
        if !e.comments.Absent? { existing := existing.(comments := Chosen(e.comments, None)); }
        rows := rows[i := existing];
        return existing;
      }
      report := DailyReport(nextPkid, e.schoolPkid, e.slot.studentPkid, e.slot.activityPkid, e.slot.date, e.now,
                            e.rawValue, Some(e.normalisedScore), Chosen(e.comments, None), true);
      rows, nextPkid := rows + [report], nextPkid + 1;
    }

    method CreateSingle(schoolPkid: nat, activityId: string, date: int, o: Observation, now: int)
      returns (result: Result<DailyReport, ReportError>)
      modifies this`rows, this`nextPkid
      ensures Outcome(Table(), result) == SingleOutcome(old(Table()), registry, schoolPkid, activityId, date, o, now)
    {
      var activity := FindActivity(registry.activities, activityId, schoolPkid);
      var student := FindStudent(registry.students, o.studentId, schoolPkid);
      if activity.None? { return Err(ActivityNotFound); }
      if student.None? { return Err(StudentNotFound); }
      var valid := ValidateRawValue(o.rawValue, activity.value);
      if valid.Err? { return Err(BadValue(valid.error)); }
      var report := UpsertReport(EntryOf(student.value, activity.value, schoolPkid, date, o, now));
      result := Ok(report);
    }

    method ProcessBatchItem(schoolPkid: nat, activity: Activity, date: int, o: Observation, now: int)
      returns (result: Result<DailyReport, ReportError>)
      modifies this`rows, this`nextPkid
      ensures Outcome(Table(), result) == ItemOutcome(old(Table()), registry, schoolPkid, activity, date, o, now)
    {
      var student := StudentByText(registry.students, o.studentId, schoolPkid);
      if student.None? { return Err(StudentNotFound); }
      var valid := ValidateRawValue(o.rawValue, activity);
      if valid.Err? { return Err(BadValue(valid.error)); }
      var report := UpsertReport(EntryOf(student.value, activity, schoolPkid, date, o, now));
      result := Ok(report);
    }

    method CreateBatch(schoolPkid: nat, activityId: string, date: int, items: seq<Observation>, now: int)
      returns (error: Option<ReportError>, succeeded: nat, failed: nat, results: seq<Result<DailyReport, ReportError>>)
      modifies this`rows, this`nextPkid
      ensures var a := FindActivity(registry.activities, activityId, schoolPkid);
        if a.None? then error == Some(ActivityNotFound) && Table() == old(Table()) && results == []
        else if items == [] then error == Some(EmptyBatch) && Table() == old(Table()) && results == []
        else
          && error == None
          && BatchState(Table(), results) == BatchItems(old(Table()), registry, schoolPkid, a.value, date, items, now)
      ensures succeeded == Accepted(results) && succeeded + failed == |results|
    {
      hide ItemOutcome, FindActivity;
      error, results, succeeded, failed := None, [], 0, 0;
      var activity := FindActivity(registry.activities, activityId, schoolPkid);
      if activity.None? { return Some(ActivityNotFound), 0, 0, []; }
      // An empty list of ids makes an IN condition the database cannot parse.
      if items == [] { return Some(EmptyBatch), 0, 0, []; }
      ghost var start := Table();
      for i := 0 to |items|
        invariant error == None
        invariant BatchState(Table(), results)
          == BatchItems(start, registry, schoolPkid, activity.value, date, items[..i], now)
        invariant succeeded == Accepted(results) && succeeded + failed == |results|
      {
        assert items[..i + 1][..i] == items[..i];
        var result := ProcessBatchItem(schoolPkid, activity.value, date, items[i], now);
        assert (results + [result])[..|results|] == results;
        results := results + [result];
        if result.Ok? { succeeded := succeeded + 1; } else { failed := failed + 1; }
      }
      assert items[..|items|] == items;
    }

    method Update(schoolPkid: nat, pkid: nat, p: Patch) returns (result: Result<DailyReport, ReportError>)
      modifies this`rows, this`nextPkid
      ensures Outcome(Table(), result) == UpdateOutcome(old(Table()), registry, schoolPkid, pkid, p)
    {
      var i := RowIndex(rows, pkid, schoolPkid);
      if i == |rows| { return Err(ReportNotFound); }
      var report := rows[i];
      var activity := ActivityByPkid(registry.activities, report.activityPkid);
      if activity.None? { return Err(ActivityNotFound); }
      if p.rawValue.Some? && p.rawValue.value != "" {
        var valid := ValidateRawValue(p.rawValue.value, activity.value);
        if valid.Err? { return Err(BadValue(valid.error)); }
        report := report.(rawValue := p.rawValue.value,
          normalisedScore := Some(Normalise(p.rawValue.value, activity.value)));
      }
      if !p.comments.Absent? { report := report.(comments := Chosen(p.comments, None)); }
      if p.visibleToParents.Null? { return Err(NullRefused); }
      if p.visibleToParents.Value? { report := report.(visibleToParents := p.visibleToParents.value); }
      rows := rows[i := report];
      result := Ok(report);
    }

    method Remove(schoolPkid: nat, pkid: nat) returns (result: Result<DailyReport, ReportError>)
      modifies this`rows, this`nextPkid
      ensures Outcome(Table(), result) == RemoveOutcome(old(Table()), schoolPkid, pkid)
    {
      var i := RowIndex(rows, pkid, schoolPkid);
      if i == |rows| { return Err(ReportNotFound); }
      result := Ok(rows[i]);
      rows := rows[..i] + rows[i + 1..];
    }
  }

  // ── reachable tables ─────────────────────────────────────────────────────

  datatype Request =
    | Single(schoolPkid: nat, activityId: string, date: int, item: Observation, now: int)
    | Batch(schoolPkid: nat, activityId: string, date: int, items: seq<Observation>, now: int)
    | Update(schoolPkid: nat, pkid: nat, patch: Patch)
    | Remove(schoolPkid: nat, pkid: nat)
    | CreateStudent(student: Student)
    | CreateActivity(activity: Activity)

  datatype State = State(table: ReportTable, registry: Registry)

  /** What a request leaves in the daily_report table. */
  function Write(t: ReportTable, reg: Registry, q: Request): ReportTable {
    match q
    case Single(school, activityId, date, o, now) => SingleOutcome(t, reg, school, activityId, date, o, now).table
    case Batch(school, activityId, date, items, now) =>
      var a := FindActivity(reg.activities, activityId, school);
      if a.None? then t else BatchItems(t, reg, school, a.value, date, items, now).table
    case Update(school, pkid, p) => UpdateOutcome(t, reg, school, pkid, p).table
    case Remove(school, pkid) => RemoveOutcome(t, school, pkid).table
    case CreateStudent(_) => t
    case CreateActivity(_) => t
  }

  /** New students and activities are rows the keys of their tables accept. */
  function Enrol(reg: Registry, q: Request): (r: Registry)
    ensures ValidRegistry(reg) ==> ValidRegistry(r)
    ensures reg.students <= r.students && reg.activities <= r.activities
  {
    var grown := match q
      case CreateStudent(s) => reg.(students := reg.students + [s])
      case CreateActivity(a) => reg.(activities := reg.activities + [a])
      case _ => reg;
    if ValidRegistry(grown) then grown else reg
  }

  function Apply(st: State, q: Request): State {
    State(Write(st.table, st.registry, q), Enrol(st.registry, q))
  }

  function Run(st: State, qs: seq<Request>): State {
    if qs == [] then st else Apply(Run(st, qs[..|qs| - 1]), qs[|qs| - 1])
  }

  /** The row's score is the score of its raw value under its activity. */
  ghost predicate Derived(reg: Registry, r: DailyReport) {
    exists a :: a in reg.activities && a.pkid == r.activityPkid && a.schoolPkid == r.schoolPkid
      && r.normalisedScore == Some(Normalise(r.rawValue, a)) && ValidateRawValue(r.rawValue, a).Ok?
  }

  ghost predicate Enrolled(reg: Registry, r: DailyReport) {
    exists s :: s in reg.students && s.pkid == r.studentPkid && s.schoolPkid == r.schoolPkid
  }

  ghost predicate OneRowPerSlot(rows: seq<DailyReport>) {
    forall i, j | 0 <= i < j < |rows| :: SlotOf(rows[i]) != SlotOf(rows[j])
  }

  ghost predicate Inv(t: ReportTable, reg: Registry) {
    && ValidTable(t) && t.nextPkid > 0
    && OneRowPerSlot(t.rows)
    && (forall r | r in t.rows :: Derived(reg, r))
    && (forall r | r in t.rows :: Enrolled(reg, r))
  }

  lemma FoundActivity(rows: seq<Activity>, id: string, schoolPkid: nat)
    ensures var a := FindActivity(rows, id, schoolPkid);
      a.Some? ==> a.value in rows && a.value.schoolPkid == schoolPkid && SameUuid(id, a.value.id)
  {
    if rows != [] && !(SameUuid(id, rows[0].id) && rows[0].schoolPkid == schoolPkid) {
      FoundActivity(rows[1..], id, schoolPkid);
    }
  }

  lemma FoundStudent(rows: seq<Student>, id: string, schoolPkid: nat)
    ensures var s := FindStudent(rows, id, schoolPkid);
      s.Some? ==> s.value in rows && s.value.schoolPkid == schoolPkid
    ensures var s := StudentByText(rows, id, schoolPkid);
      s.Some? ==> s.value in rows && s.value.schoolPkid == schoolPkid && s.value.id == id
  {
    if rows != [] { FoundStudent(rows[1..], id, schoolPkid); }
  }

  lemma FoundByPkid(rows: seq<Activity>, pkid: nat)
    ensures var a := ActivityByPkid(rows, pkid); a.Some? ==> a.value in rows && a.value.pkid == pkid
    ensures (exists a :: a in rows && a.pkid == pkid) ==> ActivityByPkid(rows, pkid).Some?
  {
    if rows != [] { FoundByPkid(rows[1..], pkid); }
  }

  lemma UpsertEvolves(t: ReportTable, e: Entry)
    requires ValidTable(t)
    ensures Evolves(t, Upsert(t, e))
  {
    var u := Upsert(t, e);
    var i := SlotIndex(t.rows, e.slot);
    forall r | r in u.rows && r.pkid < t.nextPkid
      ensures exists o :: o in t.rows && o.pkid == r.pkid && SameIdentity(o, r)
    {
      if i < |t.rows| && r == UpsertRow(t, e) {
        assert t.rows[i] in t.rows && SameIdentity(t.rows[i], r);
      } else {
        assert r in t.rows && SameIdentity(r, r);
      }
    }
  }

  lemma UpsertShape(t: ReportTable, e: Entry)
    requires ValidTable(t) && t.nextPkid > 0
    ensures ValidTable(Upsert(t, e))
    ensures forall r | r in Upsert(t, e).rows :: r == UpsertRow(t, e) || r in t.rows
  {
    hide Corrected, SlotOf;
    var i := SlotIndex(t.rows, e.slot);
    if i < |t.rows| { CorrectedKeeps(t.rows[i], e); }
  }

  lemma CorrectedKeeps(r: DailyReport, e: Entry)
    ensures Corrected(r, e).pkid == r.pkid && SlotOf(Corrected(r, e)) == SlotOf(r)
  {
  }

  lemma UpsertSlots(t: ReportTable, e: Entry)
    requires OneRowPerSlot(t.rows)
    ensures OneRowPerSlot(Upsert(t, e).rows)
  {
    hide Corrected, SlotOf;
    var i := SlotIndex(t.rows, e.slot);
    var u := Upsert(t, e);
    if i < |t.rows| {
      CorrectedKeeps(t.rows[i], e);
    } else {
      NewRowSlot(t.nextPkid, e);
    }
    forall k | 0 <= k < |u.rows| ensures SlotOf(u.rows[k]) == if k < |t.rows| then SlotOf(t.rows[k]) else e.slot { }
  }

  lemma NewRowSlot(pkid: nat, e: Entry)
    ensures SlotOf(NewRow(pkid, e)) == e.slot
  {
  }

  lemma UpsertInv(t: ReportTable, reg: Registry, e: Entry)
    requires Inv(t, reg)
    requires Derived(reg, UpsertRow(t, e)) && Enrolled(reg, UpsertRow(t, e))
    ensures Inv(Upsert(t, e), reg) && Evolves(t, Upsert(t, e))
  {
    UpsertEvolves(t, e);
    UpsertShape(t, e);
    UpsertSlots(t, e);
    hide Derived, Enrolled, Evolves, UpsertRow, OneRowPerSlot, ValidTable;
  }

  lemma SameStudentSameSchool(reg: Registry, r: DailyReport, s: Student)
    requires ValidRegistry(reg) && Enrolled(reg, r) && s in reg.students && s.pkid == r.studentPkid
    ensures r.schoolPkid == s.schoolPkid
  {
    var o :| o in reg.students && o.pkid == r.studentPkid && o.schoolPkid == r.schoolPkid;
    var i :| 0 <= i < |reg.students| && reg.students[i] == o;
    var j :| 0 <= j < |reg.students| && reg.students[j] == s;
  }

  lemma RecordInv(t: ReportTable, reg: Registry, s: Student, a: Activity, date: int, o: Observation, now: int)
    requires ValidRegistry(reg) && Inv(t, reg)
    requires s in reg.students && a in reg.activities && s.schoolPkid == a.schoolPkid
    ensures var u := RecordOutcome(t, s, a, s.schoolPkid, date, o, now).table; Inv(u, reg) && Evolves(t, u)
  {
    hide ValidateRawValue, Normalise, Evolves, Upsert, Inv, ValidRegistry;
    SelfEvolves(t);
    if ValidateRawValue(o.rawValue, a).Ok? {
      EntryRowInv(t, reg, s, a, date, o, now);
      UpsertInv(t, reg, EntryOf(s, a, s.schoolPkid, date, o, now));
    }
  }

  lemma EntryRowInv(t: ReportTable, reg: Registry, s: Student, a: Activity, date: int, o: Observation, now: int)
    requires ValidRegistry(reg) && Inv(t, reg)
    requires s in reg.students && a in reg.activities && s.schoolPkid == a.schoolPkid
    requires ValidateRawValue(o.rawValue, a).Ok?
    ensures var row := UpsertRow(t, EntryOf(s, a, s.schoolPkid, date, o, now)); Derived(reg, row) && Enrolled(reg, row)
  {
    hide ValidateRawValue, Normalise;
    var e := EntryOf(s, a, s.schoolPkid, date, o, now);
    var i, row := SlotIndex(t.rows, e.slot), UpsertRow(t, e);
    if i < |t.rows| {
      assert t.rows[i] in t.rows;
      SameStudentSameSchool(reg, t.rows[i], s);
    }
    assert a.pkid == row.activityPkid && a.schoolPkid == row.schoolPkid;
    assert s.pkid == row.studentPkid && s.schoolPkid == row.schoolPkid;
  }

  lemma SelfEvolves(t: ReportTable)
    ensures Evolves(t, t)
  {
    forall r | r in t.rows && r.pkid < t.nextPkid
      ensures exists o :: o in t.rows && o.pkid == r.pkid && SameIdentity(o, r)
    {
      assert r in t.rows && SameIdentity(r, r);
    }
  }

  lemma {:induction false} BatchInv(t: ReportTable, reg: Registry, a: Activity, date: int, items: seq<Observation>,
          now: int)
    requires ValidRegistry(reg) && Inv(t, reg) && a in reg.activities
    ensures var u := BatchItems(t, reg, a.schoolPkid, a, date, items, now).table; Inv(u, reg) && Evolves(t, u)
  {
    SelfEvolves(t);
    if items != [] {
      var before := BatchItems(t, reg, a.schoolPkid, a, date, items[..|items| - 1], now);
      BatchInv(t, reg, a, date, items[..|items| - 1], now);
      var o := items[|items| - 1];
      FoundStudent(reg.students, o.studentId, a.schoolPkid);
      var s := StudentByText(reg.students, o.studentId, a.schoolPkid);
      if s.Some? {
        RecordInv(before.table, reg, s.value, a, date, o, now);
        EvolvesTransitive(t, before.table, BatchItems(t, reg, a.schoolPkid, a, date, items, now).table);
      }
    }
  }

  lemma RewriteRowInv(t: ReportTable, reg: Registry, i: nat, r: DailyReport)
    requires Inv(t, reg) && i < |t.rows|
    requires r.pkid == t.rows[i].pkid && SameIdentity(t.rows[i], r) && Derived(reg, r)
    ensures var u := ReportTable(t.rows[i := r], t.nextPkid); Inv(u, reg) && Evolves(t, u)
  {
    hide Derived, Evolves;
    var u := ReportTable(t.rows[i := r], t.nextPkid);
    RewriteRowEvolves(t, i, r);
    assert Enrolled(reg, t.rows[i]);
    assert SlotOf(r) == SlotOf(t.rows[i]);
    forall x | x in u.rows ensures x == r || x in t.rows { }
    forall k | 0 <= k < |u.rows| ensures SlotOf(u.rows[k]) == SlotOf(t.rows[k]) && u.rows[k].pkid == t.rows[k].pkid { }
    hide SlotOf, SameIdentity;
  }

  lemma RewriteRowEvolves(t: ReportTable, i: nat, r: DailyReport)
    requires i < |t.rows| && r.pkid == t.rows[i].pkid && SameIdentity(t.rows[i], r)
    ensures Evolves(t, ReportTable(t.rows[i := r], t.nextPkid))
  {
    hide SameIdentity;
    var u := ReportTable(t.rows[i := r], t.nextPkid);
    SelfEvolves(t);
    forall x | x in u.rows && x.pkid < t.nextPkid
      ensures exists o :: o in t.rows && o.pkid == x.pkid && SameIdentity(o, x)
    {
      if x == r {
        assert t.rows[i] in t.rows && SameIdentity(t.rows[i], x);
      } else {
        assert x in t.rows;
      }
    }
  }

  lemma PatchedDerived(reg: Registry, o: DailyReport, a: Activity, p: Patch)
    requires ValidRegistry(reg) && Derived(reg, o) && a in reg.activities && a.pkid == o.activityPkid
    ensures Derived(reg, Patched(o, p, None))
    ensures p.rawValue.Some? && ValidateRawValue(p.rawValue.value, a).Ok?
            ==> Derived(reg, Patched(o, p, Some(Normalise(p.rawValue.value, a))))
  {
    hide Normalise, ValidateRawValue;
    var b :| b in reg.activities && b.pkid == o.activityPkid && b.schoolPkid == o.schoolPkid
      && o.normalisedScore == Some(Normalise(o.rawValue, b)) && ValidateRawValue(o.rawValue, b).Ok?;
    ActivityUnique(reg, a, b);
  }

  lemma UpdateInv(t: ReportTable, reg: Registry, schoolPkid: nat, pkid: nat, p: Patch)
    requires ValidRegistry(reg) && Inv(t, reg)
    ensures var u := UpdateOutcome(t, reg, schoolPkid, pkid, p).table; Inv(u, reg) && Evolves(t, u)
  {
    hide Normalise, ValidateRawValue, Derived, Inv, ValidRegistry;
    SelfEvolves(t);
    var i := RowIndex(t.rows, pkid, schoolPkid);
    if i < |t.rows| {
      var o := t.rows[i];
      FoundByPkid(reg.activities, o.activityPkid);
      var a := ActivityByPkid(reg.activities, o.activityPkid);
      RowDerived(t, reg, o);
      if a.Some? {
        PatchedDerived(reg, o, a.value, p);
        RewriteRowInv(t, reg, i, Patched(o, p, None));
        if p.rawValue.Some? && ValidateRawValue(p.rawValue.value, a.value).Ok? {
          RewriteRowInv(t, reg, i, Patched(o, p, Some(Normalise(p.rawValue.value, a.value))));
        }
      }
    }
  }

  lemma RowDerived(t: ReportTable, reg: Registry, r: DailyReport)
    requires Inv(t, reg) && r in t.rows
    ensures Derived(reg, r)
  {
  }

  lemma ActivityUnique(reg: Registry, a: Activity, b: Activity)
    requires ValidRegistry(reg) && a in reg.activities && b in reg.activities && a.pkid == b.pkid
    ensures a == b
  {
    var i :| 0 <= i < |reg.activities| && reg.activities[i] == a;
    var j :| 0 <= j < |reg.activities| && reg.activities[j] == b;
  }

  lemma RemoveInv(t: ReportTable, reg: Registry, schoolPkid: nat, pkid: nat)
    requires Inv(t, reg)
    ensures var u := RemoveOutcome(t, schoolPkid, pkid).table; Inv(u, reg) && Evolves(t, u)
  {
    hide Inv, Evolves, RowIndex;
    SelfEvolves(t);
    var i := RowIndex(t.rows, pkid, schoolPkid);
    if i < |t.rows| { DropRowInv(t, reg, i); }
  }

  lemma DropRowInv(t: ReportTable, reg: Registry, i: nat)
    requires Inv(t, reg) && i < |t.rows|
    ensures var u := ReportTable(t.rows[..i] + t.rows[i + 1..], t.nextPkid); Inv(u, reg) && Evolves(t, u)
  {
    hide Derived, Enrolled, SlotOf;
    var u := ReportTable(t.rows[..i] + t.rows[i + 1..], t.nextPkid);
    forall r | r in u.rows ensures r in t.rows { }
    forall k | 0 <= k < |u.rows| ensures u.rows[k] == t.rows[if k < i then k else k + 1] { }
    forall j, k | 0 <= j < k < |u.rows|
      ensures SlotOf(u.rows[j]) != SlotOf(u.rows[k]) && u.rows[j].pkid < u.rows[k].pkid
    {
      var a, b := if j < i then j else j + 1, if k < i then k else k + 1;
      assert SlotOf(t.rows[a]) != SlotOf(t.rows[b]);
    }
    forall r | r in u.rows && r.pkid < t.nextPkid
      ensures exists o :: o in t.rows && o.pkid == r.pkid && SameIdentity(o, r)
    {
      assert r in t.rows && SameIdentity(r, r);
    }
  }

  lemma WriteInv(t: ReportTable, reg: Registry, q: Request)
    requires ValidRegistry(reg) && Inv(t, reg)
    ensures Inv(Write(t, reg, q), reg) && Evolves(t, Write(t, reg, q))
  {
    hide Inv, ValidRegistry, ValidateRawValue, Normalise, Upsert, SameUuid, RecordOutcome;
    SelfEvolves(t);
    match q
    case Single(school, activityId, date, o, now) =>
      FoundActivity(reg.activities, activityId, school);
      FoundStudent(reg.students, o.studentId, school);
      var a, s := FindActivity(reg.activities, activityId, school), FindStudent(reg.students, o.studentId, school);
      if a.Some? && s.Some? { RecordInv(t, reg, s.value, a.value, date, o, now); }
    case Batch(school, activityId, date, items, now) =>
      FoundActivity(reg.activities, activityId, school);
      var a := FindActivity(reg.activities, activityId, school);
      if a.Some? { BatchInv(t, reg, a.value, date, items, now); }
    case Update(school, pkid, p) => UpdateInv(t, reg, school, pkid, p);
    case Remove(school, pkid) => RemoveInv(t, reg, school, pkid);
    case CreateStudent(_) =>
    case CreateActivity(_) =>
  }

  /** What holds of a table under a registry holds under any later one. */
  lemma InvGrows(t: ReportTable, reg: Registry, grown: Registry)
    requires Inv(t, reg) && reg.students <= grown.students && reg.activities <= grown.activities
    ensures Inv(t, grown)
  {
    hide Normalise, ValidateRawValue, OneRowPerSlot, ValidTable;
    forall r | r in t.rows ensures Derived(grown, r) && Enrolled(grown, r) {
      assert Derived(reg, r) && Enrolled(reg, r);
      var a :| a in reg.activities && a.pkid == r.activityPkid && a.schoolPkid == r.schoolPkid
        && r.normalisedScore == Some(Normalise(r.rawValue, a)) && ValidateRawValue(r.rawValue, a).Ok?;
      var s :| s in reg.students && s.pkid == r.studentPkid && s.schoolPkid == r.schoolPkid;
      assert a in grown.activities && s in grown.students;
    }
  }

  ghost predicate StateInv(st: State) { ValidRegistry(st.registry) && Inv(st.table, st.registry) }

  lemma ApplyInv(st: State, q: Request)
    requires StateInv(st)
    ensures StateInv(Apply(st, q)) && Evolves(st.table, Apply(st, q).table)
  {
    hide Inv, Evolves, Write, ValidRegistry;
    WriteInv(st.table, st.registry, q);
    InvGrows(Write(st.table, st.registry, q), st.registry, Enrol(st.registry, q));
  }

  /** In every reachable state, whoever is enrolled and whatever activities are
      created along the way, each score is the score of its raw value, no slot has
      two rows, and any later state is a legal evolution of an earlier one. */
  lemma {:induction false} RunInv(st: State, qs: seq<Request>)
    requires StateInv(st)
    ensures var later := Run(st, qs);
      && StateInv(later) && Evolves(st.table, later.table)
      && st.registry.students <= later.registry.students && st.registry.activities <= later.registry.activities
  {
    hide StateInv, Evolves, Apply;
    SelfEvolves(st.table);
    if qs != [] {
      var before := Run(st, qs[..|qs| - 1]);
      RunInv(st, qs[..|qs| - 1]);
      ApplyInv(before, qs[|qs| - 1]);
      EvolvesTransitive(st.table, before.table, Run(st, qs).table);
      ApplyGrows(before, qs[|qs| - 1]);
    }
  }

  lemma ApplyGrows(st: State, q: Request)
    ensures st.registry.students <= Apply(st, q).registry.students
    ensures st.registry.activities <= Apply(st, q).registry.activities
  {
  }

  lemma StartInv(reg: Registry)
    requires ValidRegistry(reg)
    ensures StateInv(State(ReportTable([], 1), reg))
  {
  }

  // ── a batch against single requests ──────────────────────────────────────

  predicate Accepts(reg: Registry, schoolPkid: nat, a: Activity, o: Observation) {
    StudentByText(reg.students, o.studentId, schoolPkid).Some? && ValidateRawValue(o.rawValue, a).Ok?
  }

  /** The entries of the items that resolve and validate, in order. */
  function AcceptedEntries(reg: Registry, schoolPkid: nat, a: Activity, date: int, items: seq<Observation>,
          now: int): seq<Entry>
  {
    if items == [] then []
    else
      var o := items[|items| - 1];
      AcceptedEntries(reg, schoolPkid, a, date, items[..|items| - 1], now)
      + if Accepts(reg, schoolPkid, a, o)
        then [EntryOf(StudentByText(reg.students, o.studentId, schoolPkid).value, a, schoolPkid, date, o, now)] else []
  }

  function UpsertAll(t: ReportTable, es: seq<Entry>): ReportTable {
    if es == [] then t else Upsert(UpsertAll(t, es[..|es| - 1]), es[|es| - 1])
  }

  lemma ItemAccepted(t: ReportTable, reg: Registry, schoolPkid: nat, a: Activity, date: int, o: Observation, now: int)
    ensures var out := ItemOutcome(t, reg, schoolPkid, a, date, o, now);
      && (out.result.Ok? <==> Accepts(reg, schoolPkid, a, o))
      && out.table == if Accepts(reg, schoolPkid, a, o)
           then
             var s := StudentByText(reg.students, o.studentId, schoolPkid).value;
             Upsert(t, EntryOf(s, a, schoolPkid, date, o, now))
           else t
  {
    hide ValidateRawValue, Normalise, Upsert;
  }

  /** A batch stores exactly its acceptable items: the final table is the fold of
      their upserts, and the i-th result succeeds exactly when the i-th item is acceptable. */
  lemma {:induction false} BatchIsFold(t: ReportTable, reg: Registry, schoolPkid: nat, a: Activity, date: int,
          items: seq<Observation>, now: int)
    ensures var b := BatchItems(t, reg, schoolPkid, a, date, items, now);
      && b.table == UpsertAll(t, AcceptedEntries(reg, schoolPkid, a, date, items, now))
      && forall i | 0 <= i < |items| :: b.results[i].Ok? <==> Accepts(reg, schoolPkid, a, items[i])
  {
    hide ItemOutcome, Accepts, Upsert, EntryOf;
    if items != [] {
      var init, last := items[..|items| - 1], items[|items| - 1];
      BatchIsFold(t, reg, schoolPkid, a, date, init, now);
      ItemAccepted(BatchItems(t, reg, schoolPkid, a, date, init, now).table, reg, schoolPkid, a, date, last, now);
      var front := AcceptedEntries(reg, schoolPkid, a, date, init, now);
      var es := AcceptedEntries(reg, schoolPkid, a, date, items, now);
      if Accepts(reg, schoolPkid, a, last) {
        assert es[..|es| - 1] == front;
      } else {
        assert es == front;
      }
    }
  }

  function RowAt(rows: seq<DailyReport>, slot: Slot): Option<DailyReport> {
    var i := SlotIndex(rows, slot);
    if i < |rows| then Some(rows[i]) else None
  }

  /** The last entry for a slot. */
  function LastFor(es: seq<Entry>, slot: Slot): Option<Entry> {
    if es == [] then None
    else if es[|es| - 1].slot == slot then Some(es[|es| - 1])
    else LastFor(es[..|es| - 1], slot)
  }

  lemma IndexIs(rows: seq<DailyReport>, slot: Slot, i: nat)
    requires i < |rows| && SlotOf(rows[i]) == slot
    requires forall j | 0 <= j < i :: SlotOf(rows[j]) != slot
    ensures SlotIndex(rows, slot) == i
  {
  }

  lemma UpsertAt(t: ReportTable, e: Entry, slot: Slot)
    ensures RowAt(Upsert(t, e).rows, slot) == if slot == e.slot then Some(UpsertRow(t, e)) else RowAt(t.rows, slot)
  {
    var u := Upsert(t, e);
    var i := SlotIndex(t.rows, e.slot);
    assert SlotOf(u.rows[i]) == e.slot && u.rows[i] == UpsertRow(t, e);
    forall j | 0 <= j < |t.rows| ensures SlotOf(u.rows[j]) == SlotOf(t.rows[j]) { }
    if slot == e.slot {
      IndexIs(u.rows, slot, i);
    } else {
      var k := SlotIndex(t.rows, slot);
      if k < |t.rows| { IndexIs(u.rows, slot, k); }
    }
  }

  /** After a run of upserts a slot holds the raw value and score of its last
      entry, in the row it had before if it had one; other slots are untouched. */
  lemma {:induction false} LastEntryWins(t: ReportTable, es: seq<Entry>, slot: Slot)
    ensures var before, after, e := RowAt(t.rows, slot), RowAt(UpsertAll(t, es).rows, slot), LastFor(es, slot);
      && (e.None? ==> after == before)
      && (e.Some? ==> after.Some? && after.value.rawValue == e.value.rawValue
                      && after.value.normalisedScore == Some(e.value.normalisedScore)
                      && (before.Some? ==> after.value.pkid == before.value.pkid
                                           && after.value.visibleToParents == before.value.visibleToParents))
  {
    if es != [] {
      LastEntryWins(t, es[..|es| - 1], slot);
      UpsertAt(UpsertAll(t, es[..|es| - 1]), es[|es| - 1], slot);
    }
  }

  /** Single requests sent one after another. */
  function SingleItems(t: ReportTable, reg: Registry, schoolPkid: nat, activityId: string, date: int,
          items: seq<Observation>, now: int): BatchState
  {
    if items == [] then BatchState(t, [])
    else
      var before := SingleItems(t, reg, schoolPkid, activityId, date, items[..|items| - 1], now);
      var last := SingleOutcome(before.table, reg, schoolPkid, activityId, date, items[|items| - 1], now);
      BatchState(last.table, before.results + [last.result])
  }

  lemma {:induction false} TextLookup(rows: seq<Student>, id: string, schoolPkid: nat)
    requires forall s | s in rows :: ToLower(s.id) == s.id
    ensures ToLower(id) == id ==> StudentByText(rows, id, schoolPkid) == FindStudent(rows, id, schoolPkid)
    ensures ToLower(id) != id ==> StudentByText(rows, id, schoolPkid) == None
  {
    if rows != [] {
      assert rows[0] in rows;
      TextLookup(rows[1..], id, schoolPkid);
    }
  }

  /** An item has the same effect and result in a batch as on its own exactly
      when its student id is spelled in lower case, as stored, or names nobody. */
  lemma ItemEqualsSingle(t: ReportTable, reg: Registry, schoolPkid: nat, activityId: string, date: int, o: Observation,
          now: int)
    requires ValidRegistry(reg) && FindActivity(reg.activities, activityId, schoolPkid).Some?
    ensures var a := FindActivity(reg.activities, activityId, schoolPkid).value;
      ItemOutcome(t, reg, schoolPkid, a, date, o, now) == SingleOutcome(t, reg, schoolPkid, activityId, date, o, now)
      <==> ToLower(o.studentId) == o.studentId || FindStudent(reg.students, o.studentId, schoolPkid).None?
  {
    TextLookup(reg.students, o.studentId, schoolPkid);
  }

  /** A pupil whose id is spelled in capitals: the observation that is stored when
      sent on its own is refused in a batch. */
  lemma CapitalsRefusedInBatch()
    ensures var activity := Activity(1, STORED_ID, 1, "Tying shoes", YesNo, NoConfig);
      var reg := Registry([activity], [Student(1, STORED_ID, 1, "Ada")]);
      var o, empty := Observation(UPPER_ID, "yes", Absent), ReportTable([], 1);
      && ValidRegistry(reg)
      && SingleOutcome(empty, reg, 1, STORED_ID, 0, o, 0).result.Ok?
      && BatchItems(empty, reg, 1, activity, 0, [o], 0) == BatchState(empty, [Err(StudentNotFound)])
  {
    hide STORED_ID, UPPER_ID, Normalise;
    SpellingsOfOneId();
    var activity := Activity(1, STORED_ID, 1, "Tying shoes", YesNo, NoConfig);
    var reg := Registry([activity], [Student(1, STORED_ID, 1, "Ada")]);
    YesIsValid(activity);
    var o, empty := Observation(UPPER_ID, "yes", Absent), ReportTable([], 1);
    assert [o][..0] == [] && BatchItems(empty, reg, 1, activity, 0, [], 0) == BatchState(empty, []);
    assert StudentByText(reg.students, UPPER_ID, 1) == None;
    hide StudentByText, ValidateRawValue;
    assert ItemOutcome(empty, reg, 1, activity, 0, o, 0) == Outcome(empty, Err(StudentNotFound));
  }

  lemma YesIsValid(a: Activity)
    requires a.gradingType == YesNo
    ensures ValidateRawValue("yes", a).Ok?
  {
    hide Trim, ToLower;
    LowerYes();
    TrimsToItself("yes");
    assert (YES_LABELS + NO_LABELS)[1] == "yes";
  }

  lemma LowerYes()
    ensures ToLower("yes") == "yes"
  {
  }

  /** A batch whose student ids are spelled as stored stores and answers exactly
      what the same items sent one by one would, accepted or not. */
  lemma {:induction false} BatchEqualsSingles(t: ReportTable, reg: Registry, schoolPkid: nat, activityId: string,
          date: int, items: seq<Observation>, now: int)
    requires ValidRegistry(reg) && FindActivity(reg.activities, activityId, schoolPkid).Some?
    requires forall o | o in items :: ToLower(o.studentId) == o.studentId
    ensures BatchItems(t, reg, schoolPkid, FindActivity(reg.activities, activityId, schoolPkid).value, date, items, now)
         == SingleItems(t, reg, schoolPkid, activityId, date, items, now)
  {
    if items != [] {
      var front := items[..|items| - 1];
      BatchEqualsSingles(t, reg, schoolPkid, activityId, date, front, now);
      var before := SingleItems(t, reg, schoolPkid, activityId, date, front, now);
      assert items[|items| - 1] in items;
      ItemEqualsSingle(before.table, reg, schoolPkid, activityId, date, items[|items| - 1], now);
    }
  }

  /** A stored observation is the one sent, under the student and activity named;
      every other slot keeps its row. */
  lemma SingleRecords(t: ReportTable, reg: Registry, schoolPkid: nat, activityId: string, date: int, o: Observation,
          now: int, slot: Slot)
    ensures var out := SingleOutcome(t, reg, schoolPkid, activityId, date, o, now);
      var a, s := FindActivity(reg.activities, activityId, schoolPkid),
        FindStudent(reg.students, o.studentId, schoolPkid);
      if out.result.Err? then out.table == t
      else
        && a.Some? && s.Some?
        && var target := Slot(s.value.pkid, a.value.pkid, date);
        RowAt(out.table.rows, slot)
        == (if slot == target then Some(out.result.value) else RowAt(t.rows, slot))
        && SlotOf(out.result.value) == target && out.result.value.rawValue == o.rawValue
        && var stored := if RowAt(t.rows, target).Some? then RowAt(t.rows, target).value.comments else None;
        out.result.value.comments
        == match o.comments case Absent => stored case Null => None case Value(text) => Some(text)
  {
    hide Normalise, ValidateRawValue, SameUuid, Upsert;
    var a, s := FindActivity(reg.activities, activityId, schoolPkid),
      FindStudent(reg.students, o.studentId, schoolPkid);
    if a.Some? && s.Some? { UpsertAt(t, EntryOf(s.value, a.value, schoolPkid, date, o, now), slot); }
  }

  /** A correction changes one row: the raw value together with its score, the
      comments, which null clears, and the visibility, each only when the patch
      gives it. */
  lemma UpdateWrites(t: ReportTable, reg: Registry, schoolPkid: nat, pkid: nat, p: Patch)
    ensures var out, i := UpdateOutcome(t, reg, schoolPkid, pkid, p), RowIndex(t.rows, pkid, schoolPkid);
      if out.result.Err? then out.table == t
      else
        && i < |t.rows| && out.table == ReportTable(t.rows[i := out.result.value], t.nextPkid)
        && var was, r := t.rows[i], out.result.value;
        && r == was.(rawValue := r.rawValue, normalisedScore := r.normalisedScore, comments := r.comments,
          visibleToParents := r.visibleToParents)
        && !p.visibleToParents.Null?
        && (p.visibleToParents.Value? ==> r.visibleToParents == p.visibleToParents.value)
        && (p.visibleToParents.Absent? ==> r.visibleToParents == was.visibleToParents)
        && (p.comments.Value? ==> r.comments == Some(p.comments.value))
        && (p.comments.Null? ==> r.comments == None)
        && (p.comments.Absent? ==> r.comments == was.comments)
        && (p.rawValue.Some? && p.rawValue.value != "" ==> r.rawValue == p.rawValue.value)
        && (p.rawValue.None? || p.rawValue.value == "" ==>
          r.rawValue == was.rawValue && r.normalisedScore == was.normalisedScore)
  {
    hide Normalise, ValidateRawValue;
  }
}
