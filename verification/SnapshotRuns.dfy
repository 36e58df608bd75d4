/** Runs of the snapshot service: the invariant every request keeps, and that
    what parents were shown never changes. */
module SnapshotRuns {
  import opened Collections
  import opened Entities
  import opened Aggregation
  import opened Snapshots

  // ── runs ─────────────────────────────────────────────────────────────────

  datatype Request =
    | GenerateOne(studentPkid: nat, schoolPkid: nat, period: Period, creator: nat, fault: Fault)
    | GenerateAll(schoolPkid: nat, period: Period, creator: nat, faults: Faults)
    | ReviewOne(id: nat, schoolPkid: nat, notes: Option<string>, userPkid: nat, now: int)
    | PublishOne(id: nat, schoolPkid: nat, userPkid: nat, now: int)
    | SendOne(id: nat, schoolPkid: nat, userPkid: nat, now: int)
    | ReadOne(id: nat, schoolPkid: nat, userPkid: nat, now: int)
    | Elsewhere(students: seq<Student>, parents: seq<Parent>, guardians: set<Guardianship>, reports: seq<DailyReport>,
      curriculum: Curriculum)

  predicate DistinctStudents(students: seq<Student>) {
    forall i, j | 0 <= i < j < |students| :: students[i].pkid != students[j].pkid && students[i].id != students[j].id
  }

  function StudentByPkid(rows: seq<Student>, pkid: nat, schoolPkid: nat): Option<Student> {
    if rows == [] then None
    else if rows[0].pkid == pkid && rows[0].schoolPkid == schoolPkid then Some(rows[0])
    else StudentByPkid(rows[1..], pkid, schoolPkid)
  }

  /** One atomic request. Requests to other services may change the observations,
      the curriculum, parents and guardians at will, and may enrol students. */
  function Step(db: Db, q: Request): Db {
    match q
    case GenerateOne(studentPkid, school, p, creator, fault) =>
      var s := StudentByPkid(db.students, studentPkid, school);
      if s.None? then db else Generate(db, s.value, school, p, creator, fault).db
    case GenerateAll(school, p, creator, faults) => BulkGenerate(db, school, p, creator, faults).db
    case ReviewOne(id, school, notes, user, now) => Review(db, id, school, notes, user, now).db
    case PublishOne(id, school, user, now) => Publish(db, id, school, user, now).db
    case SendOne(id, school, user, now) => Send(db, id, school, user, now).db
    case ReadOne(id, school, user, now) => MarkAsRead(db, id, school, user, now).db
    case Elsewhere(students, parents, guardians, reports, curriculum) =>
      if db.students <= students && DistinctStudents(students)
      then db.(students := students, parents := parents, guardians := guardians, reports := reports,
        curriculum := curriculum)
      else db
  }

  function Run(db: Db, qs: seq<Request>): Db {
    if qs == [] then db else Step(Run(db, qs[..|qs| - 1]), qs[|qs| - 1])
  }

  // ── the invariant ────────────────────────────────────────────────────────

  predicate Pairwise<T>(s: seq<T>, r: (T, T) -> bool) {
    forall i, j | 0 <= i < j < |s| :: r(s[i], s[j])
  }

  predicate EarlierId(a: Snapshot, b: Snapshot) { a.id < b.id }

  predicate OtherKey(a: Snapshot, b: Snapshot) { a.studentPkid != b.studentPkid || a.period != b.period }

  predicate OtherReading(a: Receipt, b: Receipt) { a.snapshotId != b.snapshotId || a.parentPkid != b.parentPkid }

  /** The two timestamps say what the status says. */
  predicate Stamped(s: Snapshot) {
    (s.publishedAt.Some? <==> ParentVisible(s.status)) && (s.sentAt.Some? <==> s.status == Sent)
  }

  ghost predicate KnownStudent(students: seq<Student>, s: Snapshot) {
    exists st :: st in students && st.pkid == s.studentPkid && st.schoolPkid == s.schoolPkid
  }

  ghost predicate Present(rows: seq<Snapshot>, id: nat) { exists s :: s in rows && s.id == id }

  ghost predicate Shown(rows: seq<Snapshot>, id: nat) { exists s :: s in rows && s.id == id && ParentVisible(s.status) }

  function ItemCount(it: Item): int { it.observationCount }

  function About(id: nat): Event -> bool { (e: Event) => e.snapshotId == id }

  /** The events a snapshot in a status has had, in order. */
  function LogOf(s: Snapshot): seq<Event> {
    match s.status
    case Draft => []
    case PendingReview => []
    case Published => [PublishedEvent(s.id, s.studentPkid)]
    case Sent => [PublishedEvent(s.id, s.studentPkid), SentEvent(s.id, s.studentPkid)]
  }

  ghost predicate RowsOk(db: Db) {
    && Pairwise(db.snapshots, EarlierId)
    && Pairwise(db.snapshots, OtherKey)
    && (forall s | s in db.snapshots :: s.id < db.nextId && Stamped(s) && KnownStudent(db.students, s))
  }

  ghost predicate ItemsOk(db: Db) {
    && (forall it | it in db.items :: Present(db.snapshots, it.snapshotId))
    && (forall s | s in db.snapshots :: Total(ItemsOf(db.items, s.id), ItemCount) == s.totalObservations)
  }

  ghost predicate ReceiptsOk(db: Db) {
    && Pairwise(db.receipts, OtherReading)
    && (forall r | r in db.receipts :: Shown(db.snapshots, r.snapshotId))
  }

  ghost predicate EventsOk(db: Db) {
    && (forall e | e in db.events :: Present(db.snapshots, e.snapshotId))
    && (forall s | s in db.snapshots :: Filter(db.events, About(s.id)) == LogOf(s))
  }

  ghost predicate Inv(db: Db) {
    DistinctStudents(db.students) && RowsOk(db) && ItemsOk(db) && ReceiptsOk(db) && EventsOk(db)
  }

  lemma InitialInv(students: seq<Student>, parents: seq<Parent>, guardians: set<Guardianship>,
          reports: seq<DailyReport>, curriculum: Curriculum)
    requires DistinctStudents(students)
    ensures Inv(Db(students, parents, guardians, reports, curriculum, [], [], [], [], 1))
  {
  }

  lemma {:induction false} FilterPairwise<T>(s: seq<T>, p: T -> bool, r: (T, T) -> bool)
    requires Pairwise(s, r)
    ensures Pairwise(Filter(s, p), r)
  {
    if s != [] {
      FilterPairwise(s[1..], p, r);
      var f := Filter(s[1..], p);
      forall j | 0 <= j < |f| ensures r(s[0], f[j]) {
        assert f[j] in s[1..];
        var k :| 0 <= k < |s[1..]| && s[1..][k] == f[j];
        assert s[k + 1] == f[j];
      }
    }
  }

  lemma SameIdSameRow(db: Db, a: Snapshot, b: Snapshot)
    requires RowsOk(db) && a in db.snapshots && b in db.snapshots && a.id == b.id
    ensures a == b
  {
    var rows := db.snapshots;
    forall i, j | 0 <= i < j < |rows| ensures rows[i].id < rows[j].id { assert EarlierId(rows[i], rows[j]); }
    var i :| 0 <= i < |rows| && rows[i] == a;
    var j :| 0 <= j < |rows| && rows[j] == b;
  }

  // ── regeneration ─────────────────────────────────────────────────────────

  lemma RemoveRows(db: Db, id: nat)
    requires RowsOk(db)
    ensures RowsOk(RemoveSnapshot(db, id))
  {
    FilterPairwise(db.snapshots, OtherSnapshot(id), EarlierId);
    FilterPairwise(db.snapshots, OtherSnapshot(id), OtherKey);
  }

  lemma ItemsOfOthers(items: seq<Item>, id: nat, k: nat)
    requires k != id
    ensures ItemsOf(Filter(items, OtherItem(id)), k) == ItemsOf(items, k)
  {
    FilterAfter(items, OtherItem(id), ItemOf(k));
  }

  lemma StillPresent(rows: seq<Snapshot>, id: nat, k: nat)
    requires k != id
    ensures Present(rows, k) ==> Present(Filter(rows, OtherSnapshot(id)), k)
    ensures Shown(rows, k) ==> Shown(Filter(rows, OtherSnapshot(id)), k)
  {
    if Present(rows, k) {
      var s :| s in rows && s.id == k;
      assert s in Filter(rows, OtherSnapshot(id));
    }
    if Shown(rows, k) {
      var s :| s in rows && s.id == k && ParentVisible(s.status);
      assert s in Filter(rows, OtherSnapshot(id));
    }
  }

  lemma RemoveItems(db: Db, id: nat)
    requires ItemsOk(db)
    ensures ItemsOk(RemoveSnapshot(db, id))
  {
    var u := RemoveSnapshot(db, id);
    forall it | it in u.items ensures Present(u.snapshots, it.snapshotId) {
      StillPresent(db.snapshots, id, it.snapshotId);
    }
    forall s | s in u.snapshots ensures Total(ItemsOf(u.items, s.id), ItemCount) == s.totalObservations {
      ItemsOfOthers(db.items, id, s.id);
    }
  }

  lemma RemoveReceipts(db: Db, id: nat)
    requires ReceiptsOk(db)
    ensures ReceiptsOk(RemoveSnapshot(db, id))
  {
    var u := RemoveSnapshot(db, id);
    FilterPairwise(db.receipts, OtherReceipt(id), OtherReading);
    forall r | r in u.receipts ensures Shown(u.snapshots, r.snapshotId) {
      StillPresent(db.snapshots, id, r.snapshotId);
    }
  }

  lemma RemoveEvents(db: Db, s: Snapshot)
    requires EventsOk(db) && s in db.snapshots && !ParentVisible(s.status)
    ensures EventsOk(RemoveSnapshot(db, s.id))
  {
    var u := RemoveSnapshot(db, s.id);
    forall e | e in u.events ensures Present(u.snapshots, e.snapshotId) {
      assert About(s.id)(e) ==> e in Filter(db.events, About(s.id));
      assert LogOf(s) == [];
      StillPresent(db.snapshots, s.id, e.snapshotId);
    }
  }

  /** Removing a snapshot parents cannot see keeps the invariant. */
  lemma RemoveInv(db: Db, s: Snapshot)
    requires Inv(db) && s in db.snapshots && !ParentVisible(s.status)
    ensures Inv(RemoveSnapshot(db, s.id))
  {
    RemoveRows(db, s.id);
    RemoveItems(db, s.id);
    RemoveReceipts(db, s.id);
    RemoveEvents(db, s);
  }

  lemma {:induction false} BuiltCount(id: nat, aggs: seq<ActivityAggregation>)
    ensures Total(BuildItems(id, aggs), ItemCount) == TotalObservations(aggs)
  {
    if aggs != [] {
      BuiltCount(id, aggs[..|aggs| - 1]);
      var r := BuildItems(id, aggs);
      assert r[..|r| - 1] == BuildItems(id, aggs[..|aggs| - 1]);
    }
  }

  lemma DraftItems(db: Db, aggs: seq<ActivityAggregation>, k: nat)
    requires RowsOk(db) && ItemsOk(db) && k <= db.nextId
    ensures ItemsOf(db.items + BuildItems(db.nextId, aggs), k)
         == if k == db.nextId then BuildItems(k, aggs) else ItemsOf(db.items, k)
  {
    var built := BuildItems(db.nextId, aggs);
    FilterConcat(db.items, built, ItemOf(k));
    if k == db.nextId {
      forall it | it in db.items ensures !ItemOf(k)(it) {
        var s :| s in db.snapshots && s.id == it.snapshotId;
      }
      FilterNone(db.items, ItemOf(k));
      FilterAll(built, ItemOf(k));
    } else {
      FilterNone(built, ItemOf(k));
    }
  }

  lemma DraftRows(db: Db, student: Student, p: Period, aggs: seq<ActivityAggregation>, creator: nat)
    requires RowsOk(db) && student in db.students
    requires forall s | s in db.snapshots :: s.studentPkid != student.pkid || s.period != p
    ensures RowsOk(WithDraft(db, student, student.schoolPkid, p, aggs, creator))
  {
    var n := NewSnapshot(db.nextId, student, student.schoolPkid, p, aggs, creator);
    assert KnownStudent(db.students, n);
    forall i | 0 <= i < |db.snapshots| ensures EarlierId(db.snapshots[i], n) && OtherKey(db.snapshots[i], n) {
      assert db.snapshots[i] in db.snapshots;
    }
  }

  lemma PresentGrows(rows: seq<Snapshot>, n: Snapshot, k: nat)
    ensures Present(rows, k) ==> Present(rows + [n], k)
    ensures Shown(rows, k) ==> Shown(rows + [n], k)
  {
    if Present(rows, k) {
      var s :| s in rows && s.id == k;
      assert s in rows + [n];
    }
    if Shown(rows, k) {
      var s :| s in rows && s.id == k && ParentVisible(s.status);
      assert s in rows + [n];
    }
  }

  lemma DraftInv(db: Db, student: Student, p: Period, aggs: seq<ActivityAggregation>, creator: nat)
    requires Inv(db) && student in db.students
    requires forall s | s in db.snapshots :: s.studentPkid != student.pkid || s.period != p
    ensures Inv(WithDraft(db, student, student.schoolPkid, p, aggs, creator))
  {
    var u := WithDraft(db, student, student.schoolPkid, p, aggs, creator);
    var n := NewSnapshot(db.nextId, student, student.schoolPkid, p, aggs, creator);
    DraftRows(db, student, p, aggs, creator);
    DraftAnchors(db, n, aggs, u);
    DraftLog(db, n, u);
  }

  lemma DraftAnchors(db: Db, n: Snapshot, aggs: seq<ActivityAggregation>, u: Db)
    requires RowsOk(db) && ItemsOk(db) && ReceiptsOk(db)
    requires n.id == db.nextId && n.totalObservations == TotalObservations(aggs)
    requires u == db.(snapshots := db.snapshots + [n], items := db.items + BuildItems(db.nextId, aggs),
      nextId := db.nextId + 1)
    ensures ItemsOk(u) && ReceiptsOk(u)
  {
    forall it | it in u.items ensures Present(u.snapshots, it.snapshotId) {
      if it in db.items { PresentGrows(db.snapshots, n, it.snapshotId); } else { assert n in u.snapshots; }
    }
    forall r | r in u.receipts ensures Shown(u.snapshots, r.snapshotId) { PresentGrows(db.snapshots, n, r.snapshotId); }
    forall s | s in u.snapshots ensures Total(ItemsOf(u.items, s.id), ItemCount) == s.totalObservations {
      DraftItems(db, aggs, s.id);
      if s == n { BuiltCount(n.id, aggs); }
    }
  }

  lemma DraftLog(db: Db, n: Snapshot, u: Db)
    requires RowsOk(db) && EventsOk(db) && n.id == db.nextId && n.status == Draft
    requires u.snapshots == db.snapshots + [n] && u.events == db.events
    ensures EventsOk(u)
  {
    forall e | e in u.events ensures Present(u.snapshots, e.snapshotId) { PresentGrows(db.snapshots, n, e.snapshotId); }
    forall e | e in db.events ensures !About(n.id)(e) { var s :| s in db.snapshots && s.id == e.snapshotId; }
    FilterNone(db.events, About(n.id));
  }

  /** After the old snapshot is gone the student has none for the period. */
  lemma ClearedKey(db: Db, student: Student, p: Period)
    requires Inv(db) && student in db.students
    ensures forall s | s in Cleared(db, student.schoolPkid, student.pkid, p).snapshots ::
      s.studentPkid != student.pkid || s.period != p
  {
    var i := PeriodIndex(db.snapshots, student.schoolPkid, student.pkid, p);
    forall s | s in Cleared(db, student.schoolPkid, student.pkid, p).snapshots
      ensures s.studentPkid != student.pkid || s.period != p
    {
      assert s in db.snapshots;
      SchoolOfSnapshot(db, s, student);
      if i < |db.snapshots| {
        var j :| 0 <= j < |db.snapshots| && db.snapshots[j] == s;
        var o := db.snapshots[i];
        assert i != j;
        assert if i < j then OtherKey(o, s) else OtherKey(s, o);
      }
    }
  }

  lemma SchoolOfSnapshot(db: Db, s: Snapshot, student: Student)
    requires DistinctStudents(db.students) && student in db.students && KnownStudent(db.students, s)
    ensures s.studentPkid == student.pkid ==> s.schoolPkid == student.schoolPkid
  {
    if s.studentPkid == student.pkid {
      var st :| st in db.students && st.pkid == s.studentPkid && st.schoolPkid == s.schoolPkid;
      var a :| 0 <= a < |db.students| && db.students[a] == st;
      var b :| 0 <= b < |db.students| && db.students[b] == student;
    }
  }

  lemma GenerateInv(db: Db, student: Student, p: Period, creator: nat, fault: Fault)
    requires Inv(db) && student in db.students
    ensures Inv(Generate(db, student, student.schoolPkid, p, creator, fault).db)
  {
    hide Inv, RemoveSnapshot, WithDraft, PeriodAggregations;
    var i := PeriodIndex(db.snapshots, student.schoolPkid, student.pkid, p);
    if Commits(db, student.schoolPkid, student.pkid, p, fault) {
      if i < |db.snapshots| { RemoveInv(db, db.snapshots[i]); }
      ClearedKey(db, student, p);
      RemoveKeepsStudents(db, student.schoolPkid, student.pkid, p);
      DraftInv(Cleared(db, student.schoolPkid, student.pkid, p), student, p,
               PeriodAggregations(db.reports, db.curriculum, student.schoolPkid, student.pkid, p.start, p.end),
                 creator);
    }
  }

  lemma RemoveKeepsStudents(db: Db, schoolPkid: nat, studentPkid: nat, p: Period)
    ensures Cleared(db, schoolPkid, studentPkid, p).students == db.students
  {
  }

  // ── the other requests ───────────────────────────────────────────────────

  lemma SetRow(db: Db, i: nat, saved: Snapshot, emitted: seq<Event>)
    requires Inv(db) && i < |db.snapshots|
    requires var s := db.snapshots[i];
      && saved.id == s.id && saved.studentPkid == s.studentPkid && saved.schoolPkid == s.schoolPkid
        && saved.period == s.period
      && saved.totalObservations == s.totalObservations
      && Stamped(saved) && (ParentVisible(s.status) ==> ParentVisible(saved.status))
      && LogOf(saved) == LogOf(s) + emitted
      && (forall e | e in emitted :: e.snapshotId == s.id)
    ensures Inv(db.(snapshots := db.snapshots[i := saved], events := db.events + emitted))
  {
    var u := db.(snapshots := db.snapshots[i := saved], events := db.events + emitted);
    SetRowRows(db, i, saved, u);
    SetRowAnchors(db, i, saved, u);
    SetRowLog(db, i, saved, emitted, u);
  }

  lemma SetRowRows(db: Db, i: nat, saved: Snapshot, u: Db)
    requires RowsOk(db) && i < |db.snapshots| && u.snapshots == db.snapshots[i := saved]
    requires u.students == db.students && u.nextId == db.nextId
    requires var s := db.snapshots[i];
      saved.id == s.id && saved.studentPkid == s.studentPkid && saved.schoolPkid == s.schoolPkid
        && saved.period == s.period && Stamped(saved)
    ensures RowsOk(u)
  {
    assert db.snapshots[i] in db.snapshots;
    assert KnownStudent(db.students, db.snapshots[i]);
    assert KnownStudent(db.students, saved);
    forall a, b | 0 <= a < b < |u.snapshots|
      ensures EarlierId(u.snapshots[a], u.snapshots[b]) && OtherKey(u.snapshots[a], u.snapshots[b])
    {
      assert EarlierId(db.snapshots[a], db.snapshots[b]) && OtherKey(db.snapshots[a], db.snapshots[b]);
    }
  }

  lemma SetRowPresent(rows: seq<Snapshot>, i: nat, saved: Snapshot, k: nat)
    requires i < |rows| && saved.id == rows[i].id && (ParentVisible(rows[i].status) ==> ParentVisible(saved.status))
    ensures Present(rows, k) ==> Present(rows[i := saved], k)
    ensures Shown(rows, k) ==> Shown(rows[i := saved], k)
  {
    var u := rows[i := saved];
    assert u[i] == saved && saved in u;
    if Present(rows, k) {
      var j :| 0 <= j < |rows| && rows[j].id == k;
      assert u[j] in u && u[j].id == k;
    }
    if Shown(rows, k) {
      var j :| 0 <= j < |rows| && rows[j].id == k && ParentVisible(rows[j].status);
      assert u[j] in u && u[j].id == k && ParentVisible(u[j].status);
    }
  }

  lemma SetRowAnchors(db: Db, i: nat, saved: Snapshot, u: Db)
    requires ItemsOk(db) && ReceiptsOk(db) && i < |db.snapshots| && u.snapshots == db.snapshots[i := saved]
    requires u.items == db.items && u.receipts == db.receipts
    requires saved.id == db.snapshots[i].id && saved.totalObservations == db.snapshots[i].totalObservations
    requires ParentVisible(db.snapshots[i].status) ==> ParentVisible(saved.status)
    ensures ItemsOk(u) && ReceiptsOk(u)
  {
    assert db.snapshots[i] in db.snapshots;
    forall it | it in u.items ensures Present(u.snapshots, it.snapshotId) {
      SetRowPresent(db.snapshots, i, saved, it.snapshotId);
    }
    forall r | r in u.receipts ensures Shown(u.snapshots, r.snapshotId) {
      SetRowPresent(db.snapshots, i, saved, r.snapshotId);
    }
  }

  lemma SetRowLog(db: Db, i: nat, saved: Snapshot, emitted: seq<Event>, u: Db)
    requires RowsOk(db) && EventsOk(db) && i < |db.snapshots| && u.snapshots == db.snapshots[i := saved]
    requires u.events == db.events + emitted
    requires saved.id == db.snapshots[i].id && (ParentVisible(db.snapshots[i].status) ==> ParentVisible(saved.status))
    requires LogOf(saved) == LogOf(db.snapshots[i]) + emitted
    requires forall e | e in emitted :: e.snapshotId == saved.id
    ensures EventsOk(u)
  {
    assert u.snapshots[i] == saved && saved in u.snapshots && db.snapshots[i] in db.snapshots;
    forall e | e in u.events ensures Present(u.snapshots, e.snapshotId) {
      SetRowPresent(db.snapshots, i, saved, e.snapshotId);
    }
    forall s | s in u.snapshots ensures Filter(u.events, About(s.id)) == LogOf(s) {
      FilterConcat(db.events, emitted, About(s.id));
      var j :| 0 <= j < |u.snapshots| && u.snapshots[j] == s;
      if j == i {
        FilterAll(emitted, About(s.id));
      } else {
        assert s == db.snapshots[j] && s in db.snapshots;
        assert if i < j then EarlierId(db.snapshots[i], s) else EarlierId(s, db.snapshots[i]);
        FilterNone(emitted, About(s.id));
      }
    }
  }

  lemma RowInv(db: Db, i: nat)
    requires Inv(db) && i < |db.snapshots|
    ensures Stamped(db.snapshots[i])
  {
    assert db.snapshots[i] in db.snapshots;
  }

  lemma ReviewInv(db: Db, id: nat, schoolPkid: nat, notes: Option<string>, user: nat, now: int)
    requires Inv(db)
    ensures Inv(Review(db, id, schoolPkid, notes, user, now).db)
  {
    hide Inv;
    var i := IndexOf(db.snapshots, id, schoolPkid);
    if i < |db.snapshots| && PendingReview in Transitions(db.snapshots[i].status) {
      RowInv(db, i);
      SetRow(db, i, Reviewed(notes, user, now)(db.snapshots[i]), NoEvent(db.snapshots[i]));
    }
  }

  lemma PublishInv(db: Db, id: nat, schoolPkid: nat, user: nat, now: int)
    requires Inv(db)
    ensures Inv(Publish(db, id, schoolPkid, user, now).db)
  {
    hide Inv;
    var i := IndexOf(db.snapshots, id, schoolPkid);
    if i < |db.snapshots| && Published in Transitions(db.snapshots[i].status) {
      RowInv(db, i);
      SetRow(db, i, PublishedAt(user, now)(db.snapshots[i]), EmitPublished(db.snapshots[i]));
    }
  }

  lemma SendInv(db: Db, id: nat, schoolPkid: nat, user: nat, now: int)
    requires Inv(db)
    ensures Inv(Send(db, id, schoolPkid, user, now).db)
  {
    hide Inv;
    var i := IndexOf(db.snapshots, id, schoolPkid);
    if i < |db.snapshots| && Sent in Transitions(db.snapshots[i].status) {
      RowInv(db, i);
      SetRow(db, i, SentAt(user, now)(db.snapshots[i]), EmitSent(db.snapshots[i]));
    }
  }

  /** Each workflow step is accepted in exactly the states the lifecycle allows. */
  lemma WorkflowAccepts(db: Db, id: nat, schoolPkid: nat, notes: Option<string>, user: nat, now: int)
    ensures var i := IndexOf(db.snapshots, id, schoolPkid);
      && (Review(db, id, schoolPkid, notes, user, now).result.Ok?
        <==> i < |db.snapshots| && db.snapshots[i].status == Draft)
      && (Publish(db, id, schoolPkid, user, now).result.Ok?
          <==> i < |db.snapshots| && (db.snapshots[i].status == Draft || db.snapshots[i].status == PendingReview))
      && (Send(db, id, schoolPkid, user, now).result.Ok? <==> i < |db.snapshots| && db.snapshots[i].status == Published)
  {
  }

  /** The columns no workflow step touches. */
  predicate SameFigures(s: Snapshot, t: Snapshot) {
    t.id == s.id && t.schoolPkid == s.schoolPkid && t.studentPkid == s.studentPkid && t.period == s.period
    && t.totalObservations == s.totalObservations && t.overallScore == s.overallScore && t.trend == s.trend
      && t.createdBy == s.createdBy
  }

  ghost predicate OnlyRowChanges(db: Db, out: Outcome<Snapshot>, i: nat) {
    if out.result.Err? then out.db == db
    else
      i < |db.snapshots| && SameFigures(db.snapshots[i], out.result.value)
      && out.db == db.(snapshots := db.snapshots[i := out.result.value], events := out.db.events)
  }

  /** A rejected step changes nothing; an accepted one writes what it was asked
      to into one row and keeps the row's figures. */
  lemma WorkflowWrites(db: Db, id: nat, schoolPkid: nat, notes: Option<string>, user: nat, now: int)
    ensures var i := IndexOf(db.snapshots, id, schoolPkid);
      && OnlyRowChanges(db, Review(db, id, schoolPkid, notes, user, now), i)
      && OnlyRowChanges(db, Publish(db, id, schoolPkid, user, now), i)
      && OnlyRowChanges(db, Send(db, id, schoolPkid, user, now), i)
    ensures var out := Review(db, id, schoolPkid, notes, user, now).result;
      out.Ok? ==> out.value.status == PendingReview && out.value.teacherNotes == notes
                  && out.value.reviewedBy == Some(user) && out.value.reviewedAt == Some(now)
    ensures var i, out := IndexOf(db.snapshots, id, schoolPkid), Publish(db, id, schoolPkid, user, now).result;
      out.Ok? ==> out.value.status == Published && out.value.publishedAt == Some(now)
                  && out.value.teacherNotes == db.snapshots[i].teacherNotes
    ensures var i, out := IndexOf(db.snapshots, id, schoolPkid), Send(db, id, schoolPkid, user, now).result;
      out.Ok? ==> out.value.status == Sent && out.value.sentAt == Some(now)
                  && out.value.publishedAt == db.snapshots[i].publishedAt
                  && out.value.teacherNotes == db.snapshots[i].teacherNotes
  {
  }

  lemma ReadInv(db: Db, id: nat, schoolPkid: nat, user: nat, now: int)
    requires Inv(db)
    ensures Inv(MarkAsRead(db, id, schoolPkid, user, now).db)
  {
    hide RowsOk, ItemsOk, EventsOk, ReceiptsOk;
    var i := IndexOf(db.snapshots, id, schoolPkid);
    if i < |db.snapshots| && ParentVisible(db.snapshots[i].status) {
      var parent := ParentOf(db.parents, user, schoolPkid);
      if parent.Some? && ReceiptIndex(db.receipts, id, parent.value.pkid) == |db.receipts| {
        var r := Receipt(id, parent.value.pkid, now);
        ReceiptAdded(db, db.snapshots[i], r);
        OnlyReceipts(db, db.receipts + [r]);
      }
    }
  }

  lemma OnlyReceipts(db: Db, receipts: seq<Receipt>)
    requires Inv(db) && ReceiptsOk(db.(receipts := receipts))
    ensures Inv(db.(receipts := receipts))
  {
    hide ItemsOf, LogOf, ReceiptsOk;
  }

  lemma ReceiptAdded(db: Db, s: Snapshot, r: Receipt)
    requires ReceiptsOk(db) && s in db.snapshots && s.id == r.snapshotId && ParentVisible(s.status)
    requires forall o | o in db.receipts :: OtherReading(o, r)
    ensures ReceiptsOk(db.(receipts := db.receipts + [r]))
  {
    assert Shown(db.snapshots, r.snapshotId);
  }

  lemma ElsewhereInv(db: Db, q: Request)
    requires Inv(db) && q.Elsewhere?
    ensures Inv(Step(db, q))
  {
    var u := Step(db, q);
    if u != db {
      forall s | s in u.snapshots ensures KnownStudent(u.students, s) {
        var st :| st in db.students && st.pkid == s.studentPkid && st.schoolPkid == s.schoolPkid;
        assert st in u.students;
      }
    }
  }

  lemma FoundStudent(rows: seq<Student>, pkid: nat, schoolPkid: nat)
    ensures var s := StudentByPkid(rows, pkid, schoolPkid);
      s.Some? ==> s.value in rows && s.value.pkid == pkid && s.value.schoolPkid == schoolPkid
  {
    if rows != [] { FoundStudent(rows[1..], pkid, schoolPkid); }
  }

  /** What one bulk step does to the tables. */
  lemma {:induction false} BulkInv(db: Db, pupils: seq<Student>, schoolPkid: nat, p: Period, creator: nat,
          faults: Faults)
    requires Inv(db) && forall s | s in pupils :: s in db.students && s.schoolPkid == schoolPkid
    ensures var st := Bulk(db, pupils, schoolPkid, p, creator, faults);
      Inv(st.db) && st.db.students == db.students && st.db.reports == db.reports && st.db.curriculum == db.curriculum
      && st.db.events == db.events
  {
    hide Inv, Generate;
    if pupils != [] {
      var front, s := pupils[..|pupils| - 1], pupils[|pupils| - 1];
      assert s in pupils;
      BulkInv(db, front, schoolPkid, p, creator, faults);
      var st := Bulk(db, front, schoolPkid, p, creator, faults);
      GenerateInv(st.db, s, p, creator, FaultOf(faults, s.pkid));
      GenerateFrame(st.db, s, schoolPkid, p, creator, FaultOf(faults, s.pkid));
    }
  }

  lemma GenerateFrame(db: Db, student: Student, schoolPkid: nat, p: Period, creator: nat, fault: Fault)
    ensures var u := Generate(db, student, schoolPkid, p, creator, fault).db;
      u.students == db.students && u.reports == db.reports && u.curriculum == db.curriculum && u.events == db.events
      && u.parents == db.parents && u.guardians == db.guardians
  {
    hide PeriodAggregations, BuildItems, NewSnapshot;
  }

  lemma StepInv(db: Db, q: Request)
    requires Inv(db)
    ensures Inv(Step(db, q))
  {
    hide Inv, Generate, Review, Publish, Send, MarkAsRead, Bulk;
    match q
    case GenerateOne(studentPkid, school, p, creator, fault) =>
      FoundStudent(db.students, studentPkid, school);
      var s := StudentByPkid(db.students, studentPkid, school);
      if s.Some? { GenerateInv(db, s.value, p, creator, fault); }
    case GenerateAll(school, p, creator, faults) =>
      BulkInv(db, Filter(db.students, InSchool(school)), school, p, creator, faults);
    case ReviewOne(id, school, notes, user, now) => ReviewInv(db, id, school, notes, user, now);
    case PublishOne(id, school, user, now) => PublishInv(db, id, school, user, now);
    case SendOne(id, school, user, now) => SendInv(db, id, school, user, now);
    case ReadOne(id, school, user, now) => ReadInv(db, id, school, user, now);
    case Elsewhere(_, _, _, _, _) => ElsewhereInv(db, q);
  }

  /** Every reachable state: one snapshot per student and period, timestamps that
      match the status, items that add up to the headline count, receipts only for
      what parents can see and one per parent, and for every snapshot exactly the
      events of its status, in order. */
  lemma {:induction false} RunInv(db: Db, qs: seq<Request>)
    requires Inv(db)
    ensures Inv(Run(db, qs))
  {
    hide Inv;
    if qs != [] {
      RunInv(db, qs[..|qs| - 1]);
      StepInv(Run(db, qs[..|qs| - 1]), qs[|qs| - 1]);
    }
  }

  // ── immutability of what parents see ─────────────────────────────────────

  /** `t` is the published snapshot `s`, possibly sent since: no other column differs. */
  predicate Frozen(s: Snapshot, t: Snapshot) {
    && t == s.(status := t.status, sentAt := t.sentAt, updatedBy := t.updatedBy)
    && (t == s || (s.status == Published && t.status == Sent))
  }

  ghost predicate Kept(db: Db, u: Db, s: Snapshot) {
    exists t :: t in u.snapshots && Frozen(s, t) && ItemsOf(u.items, s.id) == ItemsOf(db.items, s.id)
  }

  lemma KeptThrough(db: Db, u: Db, v: Db, s: Snapshot, t: Snapshot)
    requires Frozen(s, t) && ItemsOf(u.items, s.id) == ItemsOf(db.items, s.id)
    requires Kept(u, v, t)
    ensures Kept(db, v, s)
  {
    var w :| w in v.snapshots && Frozen(t, w) && ItemsOf(v.items, t.id) == ItemsOf(u.items, t.id);
    assert w in v.snapshots && Frozen(s, w);
  }

  lemma GenerateKeeps(db: Db, student: Student, p: Period, creator: nat, fault: Fault, s: Snapshot)
    requires Inv(db) && student in db.students && s in db.snapshots && ParentVisible(s.status)
    ensures Kept(db, Generate(db, student, student.schoolPkid, p, creator, fault).db, s)
    ensures s in Generate(db, student, student.schoolPkid, p, creator, fault).db.snapshots
  {
    hide Inv, PeriodAggregations;
    if Commits(db, student.schoolPkid, student.pkid, p, fault) {
      var i := PeriodIndex(db.snapshots, student.schoolPkid, student.pkid, p);
      var base := Cleared(db, student.schoolPkid, student.pkid, p);
      if i < |db.snapshots| {
        var o := db.snapshots[i];
        IdsDiffer(db, o, s);
        ItemsOfOthers(db.items, o.id, s.id);
        RemoveInv(db, o);
      }
      var aggs := PeriodAggregations(db.reports, db.curriculum, student.schoolPkid, student.pkid, p.start, p.end);
      InvParts(base);
      assert s in base.snapshots;
      DraftItems(base, aggs, s.id);
    }
    assert Frozen(s, s);
  }

  lemma InvParts(db: Db)
    requires Inv(db)
    ensures RowsOk(db) && ItemsOk(db) && ReceiptsOk(db) && EventsOk(db) && DistinctStudents(db.students)
  {
  }

  lemma IdsDiffer(db: Db, o: Snapshot, s: Snapshot)
    requires Inv(db) && o in db.snapshots && s in db.snapshots && o != s
    ensures o.id != s.id
  {
    if o.id == s.id { SameIdSameRow(db, o, s); }
  }

  lemma {:induction false} BulkKeeps(db: Db, pupils: seq<Student>, schoolPkid: nat, p: Period, creator: nat,
          faults: Faults, s: Snapshot)
    requires Inv(db) && s in db.snapshots && ParentVisible(s.status)
    requires forall st | st in pupils :: st in db.students && st.schoolPkid == schoolPkid
    ensures Kept(db, Bulk(db, pupils, schoolPkid, p, creator, faults).db, s)
    ensures s in Bulk(db, pupils, schoolPkid, p, creator, faults).db.snapshots
  {
    hide Inv, Generate;
    assert Frozen(s, s);
    if pupils != [] {
      var front, last := pupils[..|pupils| - 1], pupils[|pupils| - 1];
      assert last in pupils;
      BulkKeeps(db, front, schoolPkid, p, creator, faults, s);
      BulkInv(db, front, schoolPkid, p, creator, faults);
      var st := Bulk(db, front, schoolPkid, p, creator, faults);
      GenerateKeeps(st.db, last, p, creator, FaultOf(faults, last.pkid), s);
      var t :| t in st.db.snapshots && Frozen(s, t) && ItemsOf(st.db.items, s.id) == ItemsOf(db.items, s.id);
      KeptThrough(db, st.db, Generate(st.db, last, schoolPkid, p, creator, FaultOf(faults, last.pkid)).db, s, s);
    }
  }

  lemma MoveKeeps(db: Db, i: nat, saved: Snapshot, emitted: seq<Event>, s: Snapshot)
    requires i < |db.snapshots| && s in db.snapshots
    requires db.snapshots[i] == s ==> Frozen(s, saved)
    ensures Kept(db, db.(snapshots := db.snapshots[i := saved], events := db.events + emitted), s)
  {
    var u := db.(snapshots := db.snapshots[i := saved], events := db.events + emitted);
    var j :| 0 <= j < |db.snapshots| && db.snapshots[j] == s;
    assert u.snapshots[j] in u.snapshots && Frozen(s, u.snapshots[j]);
  }

  lemma WorkflowKeeps(db: Db, id: nat, schoolPkid: nat, notes: Option<string>, user: nat, now: int, s: Snapshot)
    requires s in db.snapshots && ParentVisible(s.status)
    ensures Kept(db, Review(db, id, schoolPkid, notes, user, now).db, s)
    ensures Kept(db, Publish(db, id, schoolPkid, user, now).db, s)
    ensures Kept(db, Send(db, id, schoolPkid, user, now).db, s)
  {
    hide ItemsOf;
    assert Frozen(s, s);
    var i := IndexOf(db.snapshots, id, schoolPkid);
    if i < |db.snapshots| {
      var o := db.snapshots[i];
      if PendingReview in Transitions(o.status) { MoveKeeps(db, i, Reviewed(notes, user, now)(o), NoEvent(o), s); }
      if Published in Transitions(o.status) { MoveKeeps(db, i, PublishedAt(user, now)(o), EmitPublished(o), s); }
      if Sent in Transitions(o.status) { MoveKeeps(db, i, SentAt(user, now)(o), EmitSent(o), s); }
    }
  }

  lemma StepKeeps(db: Db, q: Request, s: Snapshot)
    requires Inv(db) && s in db.snapshots && ParentVisible(s.status)
    ensures Kept(db, Step(db, q), s)
  {
    hide Inv, Generate, Review, Publish, Send, Bulk;
    assert Frozen(s, s);
    match q
    case GenerateOne(studentPkid, school, p, creator, fault) =>
      FoundStudent(db.students, studentPkid, school);
      var st := StudentByPkid(db.students, studentPkid, school);
      if st.Some? { GenerateKeeps(db, st.value, p, creator, fault, s); }
    case GenerateAll(school, p, creator, faults) =>
      BulkKeeps(db, Filter(db.students, InSchool(school)), school, p, creator, faults, s);
    case ReviewOne(id, school, notes, user, now) => WorkflowKeeps(db, id, school, notes, user, now, s);
    case PublishOne(id, school, user, now) => WorkflowKeeps(db, id, school, None, user, now, s);
    case SendOne(id, school, user, now) => WorkflowKeeps(db, id, school, None, user, now, s);
    case ReadOne(_, _, _, _) =>
    case Elsewhere(_, _, _, _, _) =>
  }

  /** Over any run a published snapshot stays: its figures, items and notes never
      change, and its status can only become SENT. */
  lemma {:induction false} PublishedIsForever(db: Db, qs: seq<Request>, s: Snapshot)
    requires Inv(db) && s in db.snapshots && ParentVisible(s.status)
    ensures Kept(db, Run(db, qs), s)
  {
    hide Inv, Step;
    assert Frozen(s, s);
    if qs != [] {
      var front := qs[..|qs| - 1];
      PublishedIsForever(db, front, s);
      RunInv(db, front);
      var u := Run(db, front);
      var t :| t in u.snapshots && Frozen(s, t) && ItemsOf(u.items, s.id) == ItemsOf(db.items, s.id);
      StepKeeps(u, qs[|qs| - 1], t);
      KeptThrough(db, u, Step(u, qs[|qs| - 1]), s, t);
    }
  }
}
