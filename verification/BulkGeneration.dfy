/** Bulk generation: accounting, what each student is left with, and running twice. */
module BulkGeneration {
  import opened Collections
  import opened Entities
  import opened Aggregation
  import opened Snapshots
  import opened SnapshotRuns

  /** The snapshots of a student for a period (the invariant allows at most one). */
  function ForKey(schoolPkid: nat, studentPkid: nat, p: Period): Snapshot -> bool {
    (s: Snapshot) => IsFor(s, schoolPkid, studentPkid, p)
  }

  function SnapshotsFor(db: Db, schoolPkid: nat, studentPkid: nat, p: Period): seq<Snapshot> {
    Filter(db.snapshots, ForKey(schoolPkid, studentPkid, p))
  }

  /** The student's report for the period has gone out to parents. */
  predicate Final(db: Db, schoolPkid: nat, studentPkid: nat, p: Period) {
    exists s :: s in db.snapshots && IsFor(s, schoolPkid, studentPkid, p) && ParentVisible(s.status)
  }

  /** An item without the snapshot it belongs to. */
  function Figure(it: Item): Item { it.(snapshotId := 0) }

  function FigureList(items: seq<Item>): seq<Item> {
    if items == [] then [] else FigureList(items[..|items| - 1]) + [Figure(items[|items| - 1])]
  }

  datatype Figures = Figures(totalObservations: int, overallScore: Option<real>, trend: Option<Trend>, items: seq<Item>)

  function FiguresOf(db: Db, s: Snapshot): Figures {
    Figures(s.totalObservations, s.overallScore, s.trend, FigureList(ItemsOf(db.items, s.id)))
  }

  /** The figures the current observations give. */
  function FreshFigures(db: Db, schoolPkid: nat, studentPkid: nat, p: Period): Figures {
    var aggs := PeriodAggregations(db.reports, db.curriculum, schoolPkid, studentPkid, p.start, p.end);
    Figures(TotalObservations(aggs), Stored(ComputeOverallScore(aggs)), ComputeOverallTrend(aggs),
      FigureList(BuildItems(0, aggs)))
  }

  // ── one student ──────────────────────────────────────────────────────────

  lemma FirstTwo<T>(s: seq<T>, r: (T, T) -> bool)
    requires Pairwise(s, r)
    ensures |s| > 1 ==> r(s[0], s[1])
  {
  }

  lemma {:induction false} PairwiseOne<T>(s: seq<T>, p: T -> bool, r: (T, T) -> bool)
    requires Pairwise(s, r)
    requires forall x, y | x in s && y in s && p(x) && p(y) :: !r(x, y)
    ensures |Filter(s, p)| <= 1
  {
    FilterPairwise(s, p, r);
    var f := Filter(s, p);
    FirstTwo(f, r);
    if |f| > 1 { assert false; }
  }

  /** At most one snapshot per student and period. */
  lemma AtMostOne(db: Db, schoolPkid: nat, studentPkid: nat, p: Period)
    requires Inv(db)
    ensures |SnapshotsFor(db, schoolPkid, studentPkid, p)| <= 1
  {
    PairwiseOne(db.snapshots, ForKey(schoolPkid, studentPkid, p), OtherKey);
  }

  lemma {:induction false} FirstForKey(rows: seq<Snapshot>, schoolPkid: nat, studentPkid: nat, p: Period)
    ensures var i, f := PeriodIndex(rows, schoolPkid, studentPkid, p), Filter(rows, ForKey(schoolPkid, studentPkid, p));
      if i < |rows| then f != [] && f[0] == rows[i] else f == []
  {
    if rows != [] { FirstForKey(rows[1..], schoolPkid, studentPkid, p); }
  }

  lemma FinalIsFirst(db: Db, schoolPkid: nat, studentPkid: nat, p: Period)
    requires Inv(db)
    ensures var i := PeriodIndex(db.snapshots, schoolPkid, studentPkid, p);
      Final(db, schoolPkid, studentPkid, p) <==> i < |db.snapshots| && ParentVisible(db.snapshots[i].status)
  {
    var i := PeriodIndex(db.snapshots, schoolPkid, studentPkid, p);
    FirstForKey(db.snapshots, schoolPkid, studentPkid, p);
    AtMostOne(db, schoolPkid, studentPkid, p);
    if i < |db.snapshots| { assert db.snapshots[i] in db.snapshots; }
    if Final(db, schoolPkid, studentPkid, p) {
      var s :| s in db.snapshots && IsFor(s, schoolPkid, studentPkid, p) && ParentVisible(s.status);
      assert s in SnapshotsFor(db, schoolPkid, studentPkid, p);
    }
  }

  /** A student's snapshots of a period and their items are the same in both states. */
  ghost predicate SameFor(db: Db, u: Db, schoolPkid: nat, studentPkid: nat, p: Period) {
    && SnapshotsFor(u, schoolPkid, studentPkid, p) == SnapshotsFor(db, schoolPkid, studentPkid, p)
    && forall s | s in SnapshotsFor(db, schoolPkid, studentPkid, p) :: ItemsOf(u.items, s.id) == ItemsOf(db.items, s.id)
  }

  lemma ClearOthers(db: Db, i: nat, schoolPkid: nat, otherPkid: nat, q: Period)
    requires Inv(db) && i < |db.snapshots| && db.snapshots[i].studentPkid != otherPkid
    ensures SameFor(db, RemoveSnapshot(db, db.snapshots[i].id), schoolPkid, otherPkid, q)
  {
    hide Inv, ItemsOf;
    var o, key := db.snapshots[i], ForKey(schoolPkid, otherPkid, q);
    forall s | s in db.snapshots && key(s) ensures OtherSnapshot(o.id)(s) { IdsDiffer(db, o, s); }
    FilterAfter(db.snapshots, OtherSnapshot(o.id), key);
    forall s | s in SnapshotsFor(db, schoolPkid, otherPkid, q)
      ensures ItemsOf(RemoveSnapshot(db, o.id).items, s.id) == ItemsOf(db.items, s.id)
    {
      ItemsOfOthers(db.items, o.id, s.id);
    }
  }

  lemma DraftOthers(db: Db, student: Student, p: Period, aggs: seq<ActivityAggregation>, creator: nat, schoolPkid: nat,
          otherPkid: nat, q: Period)
    requires RowsOk(db) && ItemsOk(db) && otherPkid != student.pkid
    ensures SameFor(db, WithDraft(db, student, student.schoolPkid, p, aggs, creator), schoolPkid, otherPkid, q)
  {
    hide ItemsOf, BuildItems;
    FilterConcat(db.snapshots, [NewSnapshot(db.nextId, student, student.schoolPkid, p, aggs, creator)],
      ForKey(schoolPkid, otherPkid, q));
    forall s | s in SnapshotsFor(db, schoolPkid, otherPkid, q)
      ensures ItemsOf(db.items + BuildItems(db.nextId, aggs), s.id) == ItemsOf(db.items, s.id)
    {
      DraftItems(db, aggs, s.id);
    }
  }

  lemma SameForThrough(db: Db, u: Db, v: Db, schoolPkid: nat, studentPkid: nat, p: Period)
    requires SameFor(db, u, schoolPkid, studentPkid, p) && SameFor(u, v, schoolPkid, studentPkid, p)
    ensures SameFor(db, v, schoolPkid, studentPkid, p)
  {
  }

  lemma SameForItself(db: Db, schoolPkid: nat, studentPkid: nat, p: Period)
    ensures SameFor(db, db, schoolPkid, studentPkid, p)
  {
  }

  /** Generation for one student does not touch another student's snapshot. */
  lemma GenerateOthers(db: Db, student: Student, p: Period, creator: nat, fault: Fault, otherSchool: nat,
          otherPkid: nat, q: Period)
    requires Inv(db) && student in db.students && otherPkid != student.pkid
    ensures SameFor(db, Generate(db, student, student.schoolPkid, p, creator, fault).db, otherSchool, otherPkid, q)
  {
    hide Inv, PeriodAggregations, SameFor, RemoveSnapshot, WithDraft;
    var school := student.schoolPkid;
    SameForItself(db, otherSchool, otherPkid, q);
    if Commits(db, school, student.pkid, p, fault) {
      var i := PeriodIndex(db.snapshots, school, student.pkid, p);
      var base := Cleared(db, school, student.pkid, p);
      if i < |db.snapshots| { ClearOthers(db, i, otherSchool, otherPkid, q); RemoveInv(db, db.snapshots[i]); }
      InvParts(base);
      var aggs := PeriodAggregations(db.reports, db.curriculum, school, student.pkid, p.start, p.end);
      DraftOthers(base, student, p, aggs, creator, otherSchool, otherPkid, q);
      SameForThrough(db, base, WithDraft(base, student, school, p, aggs, creator), otherSchool, otherPkid, q);
    }
  }

  lemma {:induction false} FiguresIgnoreId(id: nat, aggs: seq<ActivityAggregation>)
    ensures FigureList(BuildItems(id, aggs)) == FigureList(BuildItems(0, aggs))
  {
    if aggs != [] {
      FiguresIgnoreId(id, aggs[..|aggs| - 1]);
      var a, b := BuildItems(id, aggs), BuildItems(0, aggs);
      assert a[..|a| - 1] == BuildItems(id, aggs[..|aggs| - 1]);
      assert b[..|b| - 1] == BuildItems(0, aggs[..|aggs| - 1]);
    }
  }

  /** A successful generation leaves the student exactly one snapshot for the
      period, a draft with the figures of the current observations. */
  lemma GenerateFresh(db: Db, student: Student, p: Period, creator: nat)
    requires Inv(db) && student in db.students && !Final(db, student.schoolPkid, student.pkid, p)
    ensures var out := Generate(db, student, student.schoolPkid, p, creator, NoFault);
      var rows := SnapshotsFor(out.db, student.schoolPkid, student.pkid, p);
      && out.result.Ok?
      && |rows| == 1 && rows[0].status == Draft && rows[0].id == out.result.value
      && FiguresOf(out.db, rows[0]) == FreshFigures(db, student.schoolPkid, student.pkid, p)
  {
    hide Inv, PeriodAggregations;
    var school := student.schoolPkid;
    FinalIsFirst(db, school, student.pkid, p);
    var i := PeriodIndex(db.snapshots, school, student.pkid, p);
    var base := Cleared(db, school, student.pkid, p);
    var aggs := PeriodAggregations(db.reports, db.curriculum, school, student.pkid, p.start, p.end);
    if i < |db.snapshots| { RemoveInv(db, db.snapshots[i]); }
    ClearedKey(db, student, p);
    InvParts(base);
    var n := NewSnapshot(base.nextId, student, school, p, aggs, creator);
    FilterNone(base.snapshots, ForKey(school, student.pkid, p));
    FilterConcat(base.snapshots, [n], ForKey(school, student.pkid, p));
    DraftItems(base, aggs, base.nextId);
    FiguresIgnoreId(base.nextId, aggs);
  }

  // ── a bulk run ───────────────────────────────────────────────────────────

  predicate OtherPupil(a: Student, b: Student) { a.pkid != b.pkid }

  ghost predicate Pupils(db: Db, pupils: seq<Student>, schoolPkid: nat) {
    && (forall s | s in pupils :: s in db.students && s.schoolPkid == schoolPkid)
    && Pairwise(pupils, OtherPupil)
  }

  function FinalPupil(db: Db, schoolPkid: nat, p: Period): Student -> bool {
    (s: Student) => Final(db, schoolPkid, s.pkid, p)
  }

  /** Generation for a list of pupils leaves everyone else's snapshot alone. */
  lemma {:induction false} BulkOthers(db: Db, pupils: seq<Student>, schoolPkid: nat, p: Period, creator: nat,
          faults: Faults, otherSchool: nat, otherPkid: nat, q: Period)
    requires Inv(db) && Pupils(db, pupils, schoolPkid)
    requires forall s | s in pupils :: s.pkid != otherPkid
    ensures SameFor(db, Bulk(db, pupils, schoolPkid, p, creator, faults).db, otherSchool, otherPkid, q)
  {
    hide Inv, Generate, SameFor;
    SameForItself(db, otherSchool, otherPkid, q);
    if pupils != [] {
      var front, last := pupils[..|pupils| - 1], pupils[|pupils| - 1];
      assert last in pupils;
      BulkOthers(db, front, schoolPkid, p, creator, faults, otherSchool, otherPkid, q);
      BulkInv(db, front, schoolPkid, p, creator, faults);
      var m := Bulk(db, front, schoolPkid, p, creator, faults).db;
      GenerateOthers(m, last, p, creator, FaultOf(faults, last.pkid), otherSchool, otherPkid, q);
      SameForThrough(db, m, Generate(m, last, schoolPkid, p, creator, FaultOf(faults, last.pkid)).db, otherSchool,
        otherPkid, q);
    }
  }

  lemma FinalMatches(db: Db, u: Db, schoolPkid: nat, studentPkid: nat, p: Period)
    requires SameFor(db, u, schoolPkid, studentPkid, p)
    ensures Final(u, schoolPkid, studentPkid, p) == Final(db, schoolPkid, studentPkid, p)
  {
    if Final(u, schoolPkid, studentPkid, p) {
      var s :| s in u.snapshots && IsFor(s, schoolPkid, studentPkid, p) && ParentVisible(s.status);
      assert s in SnapshotsFor(db, schoolPkid, studentPkid, p);
    }
    if Final(db, schoolPkid, studentPkid, p) {
      var s :| s in db.snapshots && IsFor(s, schoolPkid, studentPkid, p) && ParentVisible(s.status);
      assert s in SnapshotsFor(u, schoolPkid, studentPkid, p);
    }
  }

  lemma GenerateResult(db: Db, student: Student, p: Period, creator: nat, fault: Fault)
    requires Inv(db) && student in db.students
    ensures var r := Generate(db, student, student.schoolPkid, p, creator, fault).result;
      if Final(db, student.schoolPkid, student.pkid, p) then r == Err(Conflict)
      else if fault != NoFault then r == Err(Unexpected) else r.Ok?
  {
    FinalIsFirst(db, student.schoolPkid, student.pkid, p);
  }

  predicate Faulty(s: Student, db: Db, schoolPkid: nat, p: Period, faults: Faults) {
    !Final(db, schoolPkid, s.pkid, p) && FaultOf(faults, s.pkid) != NoFault
  }

  function FaultyPkids(db: Db, pupils: seq<Student>, schoolPkid: nat, p: Period, faults: Faults): seq<nat> {
    if pupils == [] then []
    else
      var s := pupils[|pupils| - 1];
      FaultyPkids(db, pupils[..|pupils| - 1], schoolPkid, p, faults)
      + if Faulty(s, db, schoolPkid, p, faults) then [s.pkid] else []
  }

  /** Every pupil is counted once: skipped are exactly those whose report was
      already out before the run, failed exactly the others whose generation
      failed, generated the rest. */
  lemma {:induction false} BulkAccounts(db: Db, pupils: seq<Student>, schoolPkid: nat, p: Period, creator: nat,
          faults: Faults)
    requires Inv(db) && Pupils(db, pupils, schoolPkid)
    ensures var st := Bulk(db, pupils, schoolPkid, p, creator, faults);
      && st.generated + st.skipped + |st.errors| == |pupils|
      && st.skipped == |Filter(pupils, FinalPupil(db, schoolPkid, p))|
      && st.errors == FaultyPkids(db, pupils, schoolPkid, p, faults)
  {
    hide Inv, Generate, Final, SnapshotsFor, FaultOf;
    if pupils == [] {
      NobodyToGenerate(db, schoolPkid, p, creator, faults);
    } else {
      hide Bulk;
      var front, last := pupils[..|pupils| - 1], pupils[|pupils| - 1];
      assert pupils == front + [last];
      assert last in pupils;
      BulkAccounts(db, front, schoolPkid, p, creator, faults);
      CountsStep(db, pupils, schoolPkid, p, creator, faults);
      LastResult(db, pupils, schoolPkid, p, creator, faults);
      FilterConcat(front, [last], FinalPupil(db, schoolPkid, p));
    }
  }

  lemma NobodyToGenerate(db: Db, schoolPkid: nat, p: Period, creator: nat, faults: Faults)
    ensures Bulk(db, [], schoolPkid, p, creator, faults) == BulkState(db, 0, 0, [])
  {
  }

  /** How the last pupil's turn is counted. */
  lemma CountsStep(db: Db, pupils: seq<Student>, schoolPkid: nat, p: Period, creator: nat, faults: Faults)
    requires pupils != []
    ensures var last := pupils[|pupils| - 1];
      var before, after := Bulk(db, pupils[..|pupils| - 1], schoolPkid, p, creator, faults),
        Bulk(db, pupils, schoolPkid, p, creator, faults);
      var r := Generate(before.db, last, schoolPkid, p, creator, FaultOf(faults, last.pkid)).result;
      && after.generated == before.generated + (if r.Ok? then 1 else 0)
      && after.skipped == before.skipped + (if r == Err(Conflict) then 1 else 0)
      && after.errors == before.errors + (if r.Err? && r.error != Conflict then [last.pkid] else [])
  {
    hide Generate, FaultOf;
  }

  /** The last pupil's turn ends as the tables before the run decide. */
  lemma LastResult(db: Db, pupils: seq<Student>, schoolPkid: nat, p: Period, creator: nat, faults: Faults)
    requires Inv(db) && pupils != [] && Pupils(db, pupils, schoolPkid)
    ensures var front, last := pupils[..|pupils| - 1], pupils[|pupils| - 1];
      var r := Generate(Bulk(db, front, schoolPkid, p, creator, faults).db, last, schoolPkid, p, creator,
        FaultOf(faults, last.pkid)).result;
      if Final(db, schoolPkid, last.pkid, p) then r == Err(Conflict)
      else if FaultOf(faults, last.pkid) != NoFault then r == Err(Unexpected) else r.Ok?
  {
    hide Inv, Generate, Final, SameFor, Bulk;
    var front, last := pupils[..|pupils| - 1], pupils[|pupils| - 1];
    assert last in pupils;
    BulkInv(db, front, schoolPkid, p, creator, faults);
    var st := Bulk(db, front, schoolPkid, p, creator, faults);
    BulkOthers(db, front, schoolPkid, p, creator, faults, schoolPkid, last.pkid, p);
    FinalMatches(db, st.db, schoolPkid, last.pkid, p);
    GenerateResult(st.db, last, p, creator, FaultOf(faults, last.pkid));
  }

  /** What a committed generation leaves the student: the snapshot already out,
      untouched, or else exactly one draft with the figures of the current observations. */
  ghost predicate Served(db: Db, u: Db, schoolPkid: nat, studentPkid: nat, p: Period) {
    var rows := SnapshotsFor(u, schoolPkid, studentPkid, p);
    && |rows| == 1
    && if Final(db, schoolPkid, studentPkid, p)
       then rows == SnapshotsFor(db, schoolPkid, studentPkid, p) && FiguresOf(u, rows[0]) == FiguresOf(db, rows[0])
       else rows[0].status == Draft && FiguresOf(u, rows[0]) == FreshFigures(db, schoolPkid, studentPkid, p)
  }

  lemma ServedCarries(db: Db, u: Db, v: Db, schoolPkid: nat, studentPkid: nat, p: Period)
    requires Served(db, u, schoolPkid, studentPkid, p)
    requires SameFor(u, v, schoolPkid, studentPkid, p)
    ensures Served(db, v, schoolPkid, studentPkid, p)
  {
    hide FigureList, Final, FreshFigures, Filter;
    var rows := SnapshotsFor(u, schoolPkid, studentPkid, p);
    assert rows[0] in rows;
  }

  lemma GenerateServes(db: Db, student: Student, p: Period, creator: nat)
    requires Inv(db) && student in db.students
    ensures Served(db, Generate(db, student, student.schoolPkid, p, creator, NoFault).db, student.schoolPkid,
      student.pkid, p)
  {
    hide Inv, FreshFigures, FigureList;
    var school := student.schoolPkid;
    if Final(db, school, student.pkid, p) {
      GenerateResult(db, student, p, creator, NoFault);
      AtMostOne(db, school, student.pkid, p);
      var s :| s in db.snapshots && IsFor(s, school, student.pkid, p) && ParentVisible(s.status);
      assert s in SnapshotsFor(db, school, student.pkid, p);
    } else {
      GenerateFresh(db, student, p, creator);
    }
  }

  lemma ServedFrom(db: Db, m: Db, u: Db, schoolPkid: nat, studentPkid: nat, p: Period)
    requires Served(m, u, schoolPkid, studentPkid, p)
    requires m.reports == db.reports && m.curriculum == db.curriculum
    requires SameFor(db, m, schoolPkid, studentPkid, p)
    ensures Served(db, u, schoolPkid, studentPkid, p)
  {
    hide FigureList, Final, Filter, PeriodAggregations;
    FinalMatches(db, m, schoolPkid, studentPkid, p);
    var rows := SnapshotsFor(u, schoolPkid, studentPkid, p);
    assert rows[0] in rows;
  }

  /** What a run leaves a pupil whose generation meets a fault: after a rollback
      the old snapshot or none, otherwise what a committed generation leaves. */
  ghost predicate LeftWith(db: Db, u: Db, schoolPkid: nat, studentPkid: nat, p: Period, fault: Fault) {
    if fault == RolledBack then SameFor(db, u, schoolPkid, studentPkid, p)
    else Served(db, u, schoolPkid, studentPkid, p)
  }

  lemma GenerateLeaves(db: Db, student: Student, p: Period, creator: nat, fault: Fault)
    requires Inv(db) && student in db.students
    ensures LeftWith(db, Generate(db, student, student.schoolPkid, p, creator, fault).db, student.schoolPkid,
      student.pkid, p, fault)
  {
    hide Inv, Served, SameFor, Regenerated, Conflicts;
    SameForItself(db, student.schoolPkid, student.pkid, p);
    GenerateServes(db, student, p, creator);
  }

  lemma LeftCarries(db: Db, u: Db, v: Db, schoolPkid: nat, studentPkid: nat, p: Period, fault: Fault)
    requires LeftWith(db, u, schoolPkid, studentPkid, p, fault) && SameFor(u, v, schoolPkid, studentPkid, p)
    ensures LeftWith(db, v, schoolPkid, studentPkid, p, fault)
  {
    hide Served, SameFor;
    if fault == RolledBack {
      SameForThrough(db, u, v, schoolPkid, studentPkid, p);
    } else {
      ServedCarries(db, u, v, schoolPkid, studentPkid, p);
    }
  }

  lemma LeftFrom(db: Db, m: Db, u: Db, schoolPkid: nat, studentPkid: nat, p: Period, fault: Fault)
    requires LeftWith(m, u, schoolPkid, studentPkid, p, fault) && SameFor(db, m, schoolPkid, studentPkid, p)
    requires m.reports == db.reports && m.curriculum == db.curriculum
    ensures LeftWith(db, u, schoolPkid, studentPkid, p, fault)
  {
    hide Served, SameFor;
    if fault == RolledBack {
      SameForThrough(db, m, u, schoolPkid, studentPkid, p);
    } else {
      ServedFrom(db, m, u, schoolPkid, studentPkid, p);
    }
  }

  lemma {:induction false} BulkLeaves(db: Db, pupils: seq<Student>, schoolPkid: nat, p: Period, creator: nat,
          faults: Faults, i: nat)
    requires Inv(db) && Pupils(db, pupils, schoolPkid) && i < |pupils|
    ensures LeftWith(db, Bulk(db, pupils, schoolPkid, p, creator, faults).db, schoolPkid, pupils[i].pkid, p,
      FaultOf(faults, pupils[i].pkid))
  {
    hide Inv, Generate, LeftWith, SameFor, FaultOf;
    var front, last := pupils[..|pupils| - 1], pupils[|pupils| - 1];
    assert last in pupils;
    BulkInv(db, front, schoolPkid, p, creator, faults);
    var m, fault := Bulk(db, front, schoolPkid, p, creator, faults).db, FaultOf(faults, last.pkid);
    var u := Generate(m, last, schoolPkid, p, creator, fault).db;
    if i < |front| {
      BulkLeaves(db, front, schoolPkid, p, creator, faults, i);
      GenerateOthers(m, last, p, creator, fault, schoolPkid, pupils[i].pkid, p);
      LeftCarries(db, m, u, schoolPkid, pupils[i].pkid, p, FaultOf(faults, pupils[i].pkid));
    } else {
      BulkOthers(db, front, schoolPkid, p, creator, faults, schoolPkid, last.pkid, p);
      GenerateLeaves(m, last, p, creator, fault);
      LeftFrom(db, m, u, schoolPkid, last.pkid, p, fault);
    }
  }

  lemma SchoolPupils(db: Db, schoolPkid: nat)
    requires Inv(db)
    ensures Pupils(db, Filter(db.students, InSchool(schoolPkid)), schoolPkid)
  {
    assert Pairwise(db.students, OtherPupil);
    FilterPairwise(db.students, InSchool(schoolPkid), OtherPupil);
  }

  /** generateBulk over a school, whatever fails: complete accounting; every pupil
      whose generation commits has exactly one snapshot of the period, and one
      whose generation is rolled back keeps what there was. */
  lemma BulkRun(db: Db, schoolPkid: nat, p: Period, creator: nat, faults: Faults)
    requires Inv(db)
    ensures
      var pupils := Filter(db.students, InSchool(schoolPkid));
      var st := BulkGenerate(db, schoolPkid, p, creator, faults);
      && Inv(st.db)
      && st.generated + st.skipped + |st.errors| == |pupils|
      && st.skipped == |Filter(pupils, FinalPupil(db, schoolPkid, p))|
      && st.errors == FaultyPkids(db, pupils, schoolPkid, p, faults)
      && forall s | s in pupils :: LeftWith(db, st.db, schoolPkid, s.pkid, p, FaultOf(faults, s.pkid))
  {
    hide Inv, LeftWith, Bulk, FaultOf;
    var pupils := Filter(db.students, InSchool(schoolPkid));
    SchoolPupils(db, schoolPkid);
    BulkInv(db, pupils, schoolPkid, p, creator, faults);
    BulkAccounts(db, pupils, schoolPkid, p, creator, faults);
    forall s | s in pupils
      ensures LeftWith(db, BulkGenerate(db, schoolPkid, p, creator, faults).db, schoolPkid, s.pkid, p,
        FaultOf(faults, s.pkid))
    {
      var i :| 0 <= i < |pupils| && pupils[i] == s;
      BulkLeaves(db, pupils, schoolPkid, p, creator, faults, i);
    }
  }

  /** An immediate second run changes no figure of a pupil the first run served,
      whatever fails in either run. */
  lemma SecondRunChangesNoFigure(db: Db, schoolPkid: nat, p: Period, creator: nat, first: Faults, second: Faults,
          s: Student)
    requires Inv(db) && s in db.students && s.schoolPkid == schoolPkid && FaultOf(first, s.pkid) != RolledBack
    ensures var once := BulkGenerate(db, schoolPkid, p, creator, first).db;
      var twice := BulkGenerate(once, schoolPkid, p, creator, second).db;
      var a, b := SnapshotsFor(once, schoolPkid, s.pkid, p), SnapshotsFor(twice, schoolPkid, s.pkid, p);
      && |a| == 1 && |b| == 1
      && FiguresOf(once, a[0]) == FiguresOf(twice, b[0])
      && (ParentVisible(a[0].status) ==> a == b)
  {
    hide Inv, Filter, PeriodAggregations, Bulk, SnapshotsFor, FiguresOf, FaultOf, SameFor, Final;
    var once := BulkGenerate(db, schoolPkid, p, creator, first).db;
    var twice := BulkGenerate(once, schoolPkid, p, creator, second).db;
    BulkRun(db, schoolPkid, p, creator, first);
    BulkRun(once, schoolPkid, p, creator, second);
    SchoolPupils(db, schoolPkid);
    BulkInv(db, Filter(db.students, InSchool(schoolPkid)), schoolPkid, p, creator, first);
    assert InSchool(schoolPkid)(s);
    assert LeftWith(once, twice, schoolPkid, s.pkid, p, FaultOf(second, s.pkid));
    FinalIsShown(once, schoolPkid, s.pkid, p);
    if Final(db, schoolPkid, s.pkid, p) { FinalIsShown(db, schoolPkid, s.pkid, p); }
    if FaultOf(second, s.pkid) == RolledBack { OneRowSameFigures(once, twice, schoolPkid, s.pkid, p); }
  }

  lemma OneRowSameFigures(db: Db, u: Db, schoolPkid: nat, studentPkid: nat, p: Period)
    requires SameFor(db, u, schoolPkid, studentPkid, p) && |SnapshotsFor(db, schoolPkid, studentPkid, p)| == 1
    ensures SnapshotsFor(u, schoolPkid, studentPkid, p) == SnapshotsFor(db, schoolPkid, studentPkid, p)
    ensures FiguresOf(u, SnapshotsFor(u, schoolPkid, studentPkid, p)[0])
      == FiguresOf(db, SnapshotsFor(db, schoolPkid, studentPkid, p)[0])
  {
    hide Filter, FigureList;
    assert SnapshotsFor(db, schoolPkid, studentPkid, p)[0] in SnapshotsFor(db, schoolPkid, studentPkid, p);
  }

  /** The one snapshot of a student and period tells whether the report is out. */
  lemma FinalIsShown(db: Db, schoolPkid: nat, studentPkid: nat, p: Period)
    requires |SnapshotsFor(db, schoolPkid, studentPkid, p)| == 1
    ensures Final(db, schoolPkid, studentPkid, p)
      <==> ParentVisible(SnapshotsFor(db, schoolPkid, studentPkid, p)[0].status)
  {
    var rows := SnapshotsFor(db, schoolPkid, studentPkid, p);
    assert rows[0] in rows;
    if Final(db, schoolPkid, studentPkid, p) {
      var s :| s in db.snapshots && IsFor(s, schoolPkid, studentPkid, p) && ParentVisible(s.status);
      assert s in rows;
    }
  }
}
