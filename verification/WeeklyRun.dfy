/** Generation for all schools: one failing school does not hold up the others. */
module WeeklyRun {
  import opened Collections
  import opened Entities
  import opened Snapshots
  import opened SnapshotRuns
  import opened BulkGeneration

  datatype RunState = RunState(db: Db, processed: nat, failed: nat)

  /** School after school; `down` holds those whose bulk generation fails before
      it starts, `faults` the students whose own generation fails. */
  function AllSchools(db: Db, schools: seq<nat>, p: Period, creator: nat, down: set<nat>, faults: Faults): RunState {
    if schools == [] then RunState(db, 0, 0)
    else
      var st := AllSchools(db, schools[..|schools| - 1], p, creator, down, faults);
      var school := schools[|schools| - 1];
      if school in down then st.(failed := st.failed + 1)
      else st.(db := BulkGenerate(st.db, school, p, creator, faults).db, processed := st.processed + 1)
  }

  /** Without a system user nothing is generated and every school counts as failed. */
  function RunForAllSchools(db: Db, schools: seq<nat>, p: Period, systemUser: Option<nat>, down: set<nat>,
          faults: Faults): RunState
  {
    if systemUser.None? then RunState(db, 0, |schools|) else AllSchools(db, schools, p, systemUser.value, down, faults)
  }

  method GenerateForAllSchools(service: ReportSnapshotService, schools: seq<nat>, p: Period, systemUser: Option<nat>,
          down: set<nat>, faults: Faults)
    returns (schoolsProcessed: nat, schoolsFailed: nat)
    modifies service
    ensures RunState(service.Tables(), schoolsProcessed, schoolsFailed)
         == RunForAllSchools(old(service.Tables()), schools, p, systemUser, down, faults)
  {
    hide BulkGenerate;
    if systemUser.None? { return 0, |schools|; }
    schoolsProcessed, schoolsFailed := 0, 0;
    for i := 0 to |schools|
      invariant RunState(service.Tables(), schoolsProcessed, schoolsFailed)
             == AllSchools(old(service.Tables()), schools[..i], p, systemUser.value, down, faults)
    {
      assert schools[..i + 1][..i] == schools[..i];
      if schools[i] in down {
        schoolsFailed := schoolsFailed + 1;
      } else {
        var generated, skipped, errors := service.GenerateBulk(schools[i], p, systemUser.value, faults);
        schoolsProcessed := schoolsProcessed + 1;
      }
    }
    assert schools[..|schools|] == schools;
  }

  lemma BulkOfSchool(db: Db, schoolPkid: nat, p: Period, creator: nat, faults: Faults)
    requires Inv(db)
    ensures var u := BulkGenerate(db, schoolPkid, p, creator, faults).db;
      Inv(u) && u.students == db.students && u.reports == db.reports && u.curriculum == db.curriculum
  {
    hide Inv, Bulk;
    BulkInv(db, Filter(db.students, InSchool(schoolPkid)), schoolPkid, p, creator, faults);
  }

  lemma {:induction false} AllSchoolsInv(db: Db, schools: seq<nat>, p: Period, creator: nat, down: set<nat>,
          faults: Faults)
    requires Inv(db)
    ensures var st := AllSchools(db, schools, p, creator, down, faults);
      && Inv(st.db) && st.db.students == db.students && st.db.reports == db.reports && st.db.curriculum == db.curriculum
      && st.processed + st.failed == |schools|
  {
    hide Inv, BulkGenerate;
    if schools != [] {
      AllSchoolsInv(db, schools[..|schools| - 1], p, creator, down, faults);
      BulkOfSchool(AllSchools(db, schools[..|schools| - 1], p, creator, down, faults).db, schools[|schools| - 1], p,
        creator, faults);
    }
  }

  lemma SamePupil(students: seq<Student>, a: Student, b: Student)
    requires DistinctStudents(students) && a in students && b in students && a.pkid == b.pkid
    ensures a == b
  {
    var i :| 0 <= i < |students| && students[i] == a;
    var j :| 0 <= j < |students| && students[j] == b;
  }

  /** A school's bulk run leaves the pupils of other schools alone. */
  lemma BulkOfOtherSchool(db: Db, schoolPkid: nat, p: Period, creator: nat, faults: Faults, s: Student)
    requires Inv(db) && s in db.students && s.schoolPkid != schoolPkid
    ensures SameFor(db, BulkGenerate(db, schoolPkid, p, creator, faults).db, s.schoolPkid, s.pkid, p)
  {
    hide Bulk, SameFor, RowsOk, ItemsOk, ReceiptsOk, EventsOk;
    SchoolPupils(db, schoolPkid);
    var pupils := Filter(db.students, InSchool(schoolPkid));
    forall x | x in pupils ensures x.pkid != s.pkid {
      if x.pkid == s.pkid {
        SamePupil(db.students, x, s);
        assert false;
      }
    }
    BulkOthers(db, pupils, schoolPkid, p, creator, faults, s.schoolPkid, s.pkid, p);
  }

  /** The pupils of a school that is down or not on the list keep what they had. */
  lemma {:induction false} OthersUntouched(db: Db, schools: seq<nat>, p: Period, creator: nat, down: set<nat>,
          faults: Faults, s: Student)
    requires Inv(db) && s in db.students && (s.schoolPkid in down || s.schoolPkid !in schools)
    ensures SameFor(db, AllSchools(db, schools, p, creator, down, faults).db, s.schoolPkid, s.pkid, p)
  {
    hide Inv, BulkGenerate, SameFor;
    SameForItself(db, s.schoolPkid, s.pkid, p);
    if schools != [] {
      var front, last := schools[..|schools| - 1], schools[|schools| - 1];
      assert schools == front + [last];
      OthersUntouched(db, front, p, creator, down, faults, s);
      AllSchoolsInv(db, front, p, creator, down, faults);
      var m := AllSchools(db, front, p, creator, down, faults).db;
      if last !in down {
        BulkOfOtherSchool(m, last, p, creator, faults, s);
        SameForThrough(db, m, BulkGenerate(m, last, p, creator, faults).db, s.schoolPkid, s.pkid, p);
      }
    }
  }

  /** Whatever fails for single students or whole schools, every pupil of every
      school that was not down is left with exactly one snapshot for the period,
      unless the pupil's own generation was rolled back, which keeps what there was. */
  lemma {:induction false} EveryPupilServed(db: Db, schools: seq<nat>, p: Period, creator: nat, down: set<nat>,
          faults: Faults, s: Student)
    requires Inv(db) && Distinct(schools) && s in db.students && s.schoolPkid in schools && s.schoolPkid !in down
    ensures LeftWith(db, AllSchools(db, schools, p, creator, down, faults).db, s.schoolPkid, s.pkid, p,
      FaultOf(faults, s.pkid))
  {
    hide Inv, BulkGenerate, LeftWith, SameFor, FaultOf;
    var front, last := schools[..|schools| - 1], schools[|schools| - 1];
    assert schools == front + [last];
    var m := AllSchools(db, front, p, creator, down, faults).db;
    AllSchoolsInv(db, front, p, creator, down, faults);
    if s.schoolPkid == last {
      OthersUntouched(db, front, p, creator, down, faults, s);
      BulkRun(m, last, p, creator, faults);
      assert InSchool(last)(s) && s in Filter(m.students, InSchool(last));
      LeftFrom(db, m, BulkGenerate(m, last, p, creator, faults).db, last, s.pkid, p, FaultOf(faults, s.pkid));
    } else {
      EveryPupilServed(db, front, p, creator, down, faults, s);
      if last !in down {
        BulkOfOtherSchool(m, last, p, creator, faults, s);
        LeftCarries(db, m, BulkGenerate(m, last, p, creator, faults).db, s.schoolPkid, s.pkid, p,
          FaultOf(faults, s.pkid));
      }
    }
  }

  /** The accounting of a run, with or without a system user. */
  lemma SchoolsAccountedFor(db: Db, schools: seq<nat>, p: Period, systemUser: Option<nat>, down: set<nat>,
          faults: Faults)
    requires Inv(db)
    ensures var st := RunForAllSchools(db, schools, p, systemUser, down, faults);
      Inv(st.db) && st.processed + st.failed == |schools| && (systemUser.None? ==> st.db == db)
  {
    if systemUser.Some? { AllSchoolsInv(db, schools, p, systemUser.value, down, faults); }
  }
}
