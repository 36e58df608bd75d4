/** Recording observations, read from outside: which requests are accepted, what
    an accepted one leaves in the table, and what every stored score means. */
module Recording {
  import opened Collections
  import opened Entities
  import opened Normalisation
  import opened TextReaders
  import opened Uuids
  import opened DailyReports
  import opened Grading

  // ── lookups ──────────────────────────────────────────────────────────────

  predicate IsActivity(a: Activity, id: string, schoolPkid: nat) { SameUuid(id, a.id) && a.schoolPkid == schoolPkid }

  predicate IsStudent(s: Student, id: string, schoolPkid: nat) { SameUuid(id, s.id) && s.schoolPkid == schoolPkid }

  /** The request names an activity of the school. */
  predicate NamesActivity(reg: Registry, id: string, schoolPkid: nat) {
    exists a :: a in reg.activities && IsActivity(a, id, schoolPkid)
  }

  predicate NamesStudent(reg: Registry, id: string, schoolPkid: nat) {
    exists s :: s in reg.students && IsStudent(s, id, schoolPkid)
  }

  lemma {:induction false} ActivityLookup(rows: seq<Activity>, id: string, schoolPkid: nat)
    ensures var a := FindActivity(rows, id, schoolPkid);
      && (a.Some? <==> exists x :: x in rows && IsActivity(x, id, schoolPkid))
      && (a.Some? ==> a.value in rows && IsActivity(a.value, id, schoolPkid))
  {
    hide SameUuid;
    if rows != [] {
      ActivityLookup(rows[1..], id, schoolPkid);
      if IsActivity(rows[0], id, schoolPkid) { assert rows[0] in rows; }
      assert forall x :: x in rows <==> x == rows[0] || x in rows[1..];
    }
  }

  lemma {:induction false} StudentLookup(rows: seq<Student>, id: string, schoolPkid: nat)
    ensures var s := FindStudent(rows, id, schoolPkid);
      && (s.Some? <==> exists x :: x in rows && IsStudent(x, id, schoolPkid))
      && (s.Some? ==> s.value in rows && IsStudent(s.value, id, schoolPkid))
  {
    hide SameUuid;
    if rows != [] {
      StudentLookup(rows[1..], id, schoolPkid);
      if IsStudent(rows[0], id, schoolPkid) { assert rows[0] in rows; }
      assert forall x :: x in rows <==> x == rows[0] || x in rows[1..];
    }
  }

  lemma {:induction false} TextualLookup(rows: seq<Student>, id: string, schoolPkid: nat)
    ensures var s := StudentByText(rows, id, schoolPkid);
      && (s.Some? <==> exists x :: x in rows && x.id == id && x.schoolPkid == schoolPkid)
      && (s.Some? ==> s.value in rows && s.value.id == id && s.value.schoolPkid == schoolPkid)
  {
    if rows != [] {
      TextualLookup(rows[1..], id, schoolPkid);
      assert forall x :: x in rows <==> x == rows[0] || x in rows[1..];
    }
  }

  // ── single requests ──────────────────────────────────────────────────────

  /** The row an accepted observation leaves: the old one of its slot corrected, or
      a new visible one; with the value sent, its grade, and the comments given. */
  ghost predicate RowStores(t: ReportTable, r: DailyReport, s: Student, a: Activity, schoolPkid: nat, date: int,
          o: Observation, now: int)
  {
    var held := RowAt(t.rows, Slot(s.pkid, a.pkid, date));
    && r.rawValue == o.rawValue
    && r.normalisedScore.Some? && Graded(o.rawValue, a, r.normalisedScore.value)
    && match held
       case Some(before) =>
         r == before.(rawValue := r.rawValue, normalisedScore := r.normalisedScore,
           comments := match o.comments case Absent => before.comments case Null => None case Value(c) => Some(c))
       case None =>
         r == DailyReport(t.nextPkid, schoolPkid, s.pkid, a.pkid, date, now, r.rawValue, r.normalisedScore,
           match o.comments case Value(c) => Some(c) case _ => None, true)
  }

  lemma UpsertStores(t: ReportTable, s: Student, a: Activity, schoolPkid: nat, date: int, o: Observation, now: int)
    requires ValidateRawValue(o.rawValue, a).Ok?
    ensures RowStores(t, UpsertRow(t, EntryOf(s, a, schoolPkid, date, o, now)), s, a, schoolPkid, date, o, now)
  {
    AcceptedIsGraded(o.rawValue, a);
    hide Graded, Normalise, ValidateRawValue;
  }

  /** What a request that names this activity and pupil leads to. */
  ghost predicate RecordTells(t: ReportTable, out: Outcome, s: Student, a: Activity, schoolPkid: nat, date: int,
          o: Observation, now: int)
  {
    if Acceptable(o.rawValue, a) then
      && out.result.Ok? && RowStores(t, out.result.value, s, a, schoolPkid, date, o, now)
      && out.table.nextPkid
         == t.nextPkid + (if RowAt(t.rows, Slot(s.pkid, a.pkid, date)).Some? then 0 else 1)
      && forall slot :: RowAt(out.table.rows, slot)
           == if slot == Slot(s.pkid, a.pkid, date) then Some(out.result.value) else RowAt(t.rows, slot)
    else out.table == t && out.result.Err? && out.result.error.BadValue?
  }

  lemma SerialMoves(t: ReportTable, e: Entry)
    ensures Upsert(t, e).nextPkid == t.nextPkid + (if RowAt(t.rows, e.slot).Some? then 0 else 1)
  {
  }

  lemma RecordedAsTold(t: ReportTable, s: Student, a: Activity, schoolPkid: nat, date: int, o: Observation, now: int)
    ensures RecordTells(t, RecordOutcome(t, s, a, schoolPkid, date, o, now), s, a, schoolPkid, date, o, now)
  {
    hide ValidateRawValue, Acceptable, RowStores, Normalise, Upsert, UpsertRow, RowAt;
    AcceptedExactly(o.rawValue, a);
    if Acceptable(o.rawValue, a) {
      UpsertStores(t, s, a, schoolPkid, date, o, now);
      var e := EntryOf(s, a, schoolPkid, date, o, now);
      SerialMoves(t, e);
      forall slot
        ensures RowAt(Upsert(t, e).rows, slot) == if slot == e.slot then Some(UpsertRow(t, e)) else RowAt(t.rows, slot)
      {
        UpsertAt(t, e, slot);
      }
    }
  }

  /** A single request is accepted exactly when it names an activity and a pupil of
      the school and its value is acceptable for the activity. The first of the
      three that fails is the error and nothing is written; otherwise the slot of
      pupil, activity and day holds the row, and every other slot keeps its own. */
  lemma SingleAccepts(t: ReportTable, reg: Registry, schoolPkid: nat, activityId: string, date: int, o: Observation,
          now: int)
    ensures var out := SingleOutcome(t, reg, schoolPkid, activityId, date, o, now);
      if !NamesActivity(reg, activityId, schoolPkid) then out == Outcome(t, Err(ActivityNotFound))
      else if !NamesStudent(reg, o.studentId, schoolPkid) then out == Outcome(t, Err(StudentNotFound))
      else
        exists a, s ::
          && a in reg.activities && IsActivity(a, activityId, schoolPkid)
          && s in reg.students && IsStudent(s, o.studentId, schoolPkid)
          && RecordTells(t, out, s, a, schoolPkid, date, o, now)
  {
    hide SameUuid, RecordTells, RecordOutcome;
    ActivityLookup(reg.activities, activityId, schoolPkid);
    StudentLookup(reg.students, o.studentId, schoolPkid);
    var a, s := FindActivity(reg.activities, activityId, schoolPkid),
      FindStudent(reg.students, o.studentId, schoolPkid);
    if a.Some? && s.Some? { RecordedAsTold(t, s.value, a.value, schoolPkid, date, o, now); }
  }

  /** An accepted YES_NO observation is stored with 100 exactly when its trimmed
      lower-case text is true, yes or 1, and with 0 when it is false, no or 0. */
  lemma YesStoresHundred(t: ReportTable, reg: Registry, schoolPkid: nat, activityId: string, date: int, o: Observation,
          now: int)
    requires SingleOutcome(t, reg, schoolPkid, activityId, date, o, now).result.Ok?
    requires FindActivity(reg.activities, activityId, schoolPkid).value.gradingType == YesNo
    ensures var row, answer := SingleOutcome(t, reg, schoolPkid, activityId, date, o, now).result.value,
        Trim(ToLower(o.rawValue));
      && row in SingleOutcome(t, reg, schoolPkid, activityId, date, o, now).table.rows
      && (row.normalisedScore == Some(100.0) <==> SaysYes(answer))
      && (row.normalisedScore == Some(0.0) <==> SaysNo(answer))
  {
    hide Trim, ToLower, Normalise, ValidateRawValue, SameUuid;
    var a := FindActivity(reg.activities, activityId, schoolPkid).value;
    AcceptedIsGraded(o.rawValue, a);
    YesNoScoring(o.rawValue, a);
    var s := FindStudent(reg.students, o.studentId, schoolPkid).value;
    var e := EntryOf(s, a, schoolPkid, date, o, now);
    assert Upsert(t, e).rows[SlotIndex(t.rows, e.slot)] == UpsertRow(t, e);
  }

  // ── batches ──────────────────────────────────────────────────────────────

  /** What the batch counts as succeeded is the number of positions with a stored row. */
  lemma {:induction false} AcceptedCounts(results: seq<Result<DailyReport, ReportError>>)
    ensures Accepted(results) == |set i: nat | i < |results| && results[i].Ok?|
  {
    if results != [] {
      var front, n := results[..|results| - 1], |results| - 1;
      AcceptedCounts(front);
      var all, before := set i: nat | i < |results| && results[i].Ok?, set i: nat | i < |front| && front[i].Ok?;
      assert all == if results[n].Ok? then before + {n} else before;
    }
  }

  /** An item of a batch is acceptable exactly when its id is the text of a pupil's
      id in the school and its value is acceptable. */
  lemma ItemAcceptable(reg: Registry, schoolPkid: nat, a: Activity, o: Observation)
    ensures Accepts(reg, schoolPkid, a, o)
       <==> Acceptable(o.rawValue, a)
            && exists s :: s in reg.students && s.id == o.studentId && s.schoolPkid == schoolPkid
  {
    hide ValidateRawValue, Acceptable;
    TextualLookup(reg.students, o.studentId, schoolPkid);
    AcceptedExactly(o.rawValue, a);
  }

  // ── corrections and removals ─────────────────────────────────────────────

  predicate IsRow(r: DailyReport, pkid: nat, schoolPkid: nat) { r.pkid == pkid && r.schoolPkid == schoolPkid }

  lemma {:induction false} RowLookup(rows: seq<DailyReport>, pkid: nat, schoolPkid: nat)
    ensures RowIndex(rows, pkid, schoolPkid) < |rows| <==> exists r :: r in rows && IsRow(r, pkid, schoolPkid)
  {
    if rows != [] {
      RowLookup(rows[1..], pkid, schoolPkid);
      if IsRow(rows[0], pkid, schoolPkid) { assert rows[0] in rows; }
      assert forall x :: x in rows <==> x == rows[0] || x in rows[1..];
    }
  }

  /** What a correction of this row under this activity leads to. */
  ghost predicate CorrectionTells(t: ReportTable, out: Outcome, a: Activity, p: Patch) {
    var given := p.rawValue.Some? && p.rawValue.value != "";
    if given && !Acceptable(p.rawValue.value, a) then out.table == t && out.result.Err? && out.result.error.BadValue?
    else if p.visibleToParents.Null? then out == Outcome(t, Err(NullRefused))
    else
      && out.result.Ok?
      && (given ==> out.result.value.rawValue == p.rawValue.value && out.result.value.normalisedScore.Some?
                    && Graded(p.rawValue.value, a, out.result.value.normalisedScore.value))
  }

  lemma CorrectedAsTold(t: ReportTable, reg: Registry, schoolPkid: nat, pkid: nat, p: Patch, a: Activity)
    requires RowIndex(t.rows, pkid, schoolPkid) < |t.rows|
    requires ActivityByPkid(reg.activities, t.rows[RowIndex(t.rows, pkid, schoolPkid)].activityPkid) == Some(a)
    ensures CorrectionTells(t, UpdateOutcome(t, reg, schoolPkid, pkid, p), a, p)
  {
    hide ValidateRawValue, Normalise, Acceptable, Graded, RowIndex, ActivityByPkid;
    if p.rawValue.Some? {
      AcceptedExactly(p.rawValue.value, a);
      if Acceptable(p.rawValue.value, a) { AcceptedIsGraded(p.rawValue.value, a); }
    }
  }

  /** A correction is accepted exactly when the row is there and a value it gives,
      if it is not empty, is acceptable for the row's activity, unless it sends
      null for the visibility; a new value is stored with its grade. */
  lemma UpdateAccepts(t: ReportTable, reg: Registry, schoolPkid: nat, pkid: nat, p: Patch)
    requires ValidRegistry(reg) && Inv(t, reg)
    ensures var out := UpdateOutcome(t, reg, schoolPkid, pkid, p);
      if forall r | r in t.rows :: !IsRow(r, pkid, schoolPkid) then out == Outcome(t, Err(ReportNotFound))
      else
        exists r, a ::
          && r in t.rows && IsRow(r, pkid, schoolPkid) && a in reg.activities && a.pkid == r.activityPkid
          && CorrectionTells(t, out, a, p)
  {
    RowLookup(t.rows, pkid, schoolPkid);
    var i := RowIndex(t.rows, pkid, schoolPkid);
    if i < |t.rows| {
      var r := t.rows[i];
      RowHasActivity(t, reg, r);
      FoundByPkid(reg.activities, r.activityPkid);
      hide Inv, CorrectionTells, UpdateOutcome;
      var a := ActivityByPkid(reg.activities, r.activityPkid).value;
      CorrectedAsTold(t, reg, schoolPkid, pkid, p, a);
      assert r in t.rows && IsRow(r, pkid, schoolPkid);
    }
  }

  lemma RowHasActivity(t: ReportTable, reg: Registry, r: DailyReport)
    requires Inv(t, reg) && r in t.rows
    ensures exists a :: a in reg.activities && a.pkid == r.activityPkid
  {
    assert Derived(reg, r);
  }

  function OtherRow(pkid: nat, schoolPkid: nat): DailyReport -> bool {
    (r: DailyReport) => !IsRow(r, pkid, schoolPkid)
  }

  lemma FilterWithout(rows: seq<DailyReport>, i: nat, p: DailyReport -> bool)
    requires i < |rows| && !p(rows[i])
    requires forall j | 0 <= j < |rows| && j != i :: p(rows[j])
    ensures Filter(rows, p) == rows[..i] + rows[i + 1..]
  {
    hide Filter;
    var a, b := rows[..i], rows[i + 1..];
    assert rows == a + [rows[i]] + b;
    FilterNone([rows[i]], p);
    FilterConcat(a + [rows[i]], b, p);
    FilterConcat(a, [rows[i]], p);
    FilterAll(a, p);
    FilterAll(b, p);
  }

  /** A removal takes exactly the row with the id in the school out of the table,
      and is refused exactly when there is none. */
  lemma RemoveTakes(t: ReportTable, schoolPkid: nat, pkid: nat)
    requires ValidTable(t)
    ensures var out := RemoveOutcome(t, schoolPkid, pkid);
      && out.table == ReportTable(Filter(t.rows, OtherRow(pkid, schoolPkid)), t.nextPkid)
      && (out.result == Err(ReportNotFound) <==> forall r | r in t.rows :: !IsRow(r, pkid, schoolPkid))
      && (out.result.Ok? ==> out.result.value in t.rows && IsRow(out.result.value, pkid, schoolPkid))
  {
    hide Filter;
    RowLookup(t.rows, pkid, schoolPkid);
    var i := RowIndex(t.rows, pkid, schoolPkid);
    if i == |t.rows| {
      FilterAll(t.rows, OtherRow(pkid, schoolPkid));
    } else {
      FilterWithout(t.rows, i, OtherRow(pkid, schoolPkid));
    }
  }

  // ── enrolment ────────────────────────────────────────────────────────────

  /** A pupil is enrolled exactly when the id is in lower case and neither it nor
      the pkid is taken. */
  lemma PupilEnrols(reg: Registry, s: Student)
    requires ValidRegistry(reg)
    ensures Enrol(reg, CreateStudent(s))
         == if ToLower(s.id) == s.id && forall o | o in reg.students :: o.id != s.id && o.pkid != s.pkid
            then reg.(students := reg.students + [s]) else reg
  {
    hide ToLower;
    var students, n := reg.students + [s], |reg.students|;
    assert students[n] == s;
    forall i | 0 <= i < n ensures students[i] == reg.students[i] && reg.students[i] in reg.students { }
  }

  /** An activity is created exactly when its pkid is free. */
  lemma ActivityCreated(reg: Registry, a: Activity)
    requires ValidRegistry(reg)
    ensures Enrol(reg, CreateActivity(a))
         == if forall o | o in reg.activities :: o.pkid != a.pkid then reg.(activities := reg.activities + [a]) else reg
  {
    hide ToLower;
    var activities, n := reg.activities + [a], |reg.activities|;
    assert activities[n] == a;
    forall i | 0 <= i < n ensures activities[i] == reg.activities[i] && reg.activities[i] in reg.activities { }
  }

  // ── stored scores ────────────────────────────────────────────────────────

  /** In every reachable state each row belongs to an activity of its school and
      carries the grade its text stands for under it, however it came about. */
  lemma StoredGrades(st: State, qs: seq<Request>, r: DailyReport)
    requires StateInv(st) && r in Run(st, qs).table.rows
    ensures exists a ::
      && a in Run(st, qs).registry.activities && a.pkid == r.activityPkid && a.schoolPkid == r.schoolPkid
      && r.normalisedScore.Some? && Graded(r.rawValue, a, r.normalisedScore.value)
  {
    RunInv(st, qs);
    hide Run, Normalise, ValidateRawValue, Graded;
    var reg := Run(st, qs).registry;
    assert Derived(reg, r);
    var a :| a in reg.activities && a.pkid == r.activityPkid && a.schoolPkid == r.schoolPkid
      && r.normalisedScore == Some(Normalise(r.rawValue, a)) && ValidateRawValue(r.rawValue, a).Ok?;
    AcceptedIsGraded(r.rawValue, a);
  }
}
