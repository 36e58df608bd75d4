/** The report-snapshot service: generation, the review and publication
    workflow, and read receipts, over the tables it reads and writes. */
module Snapshots {
  import opened Collections
  import opened Entities
  import opened Aggregation
  import Normalisation

  // ── rows ─────────────────────────────────────────────────────────────────

  datatype Status = Draft | PendingReview | Published | Sent

  datatype ReportType = Weekly | Termly

  datatype Period = Period(reportType: ReportType, start: int, end: int)

  datatype Snapshot = Snapshot(
    id: nat,
    schoolPkid: nat,
    studentPkid: nat,
    period: Period,
    totalObservations: int,
    overallScore: Option<real>,
    trend: Option<Trend>,
    status: Status,
    teacherNotes: Option<string>,
    reviewedBy: Option<nat>,
    reviewedAt: Option<int>,
    publishedAt: Option<int>,
    sentAt: Option<int>,
    createdBy: nat,
    updatedBy: Option<nat>)

  datatype Item = Item(
    snapshotId: nat,
    activityPkid: nat,
    activityName: string,
    learningAreaName: Option<string>,
    observationCount: nat,
    averageScore: Option<real>,
    firstScore: Option<real>,
    lastScore: Option<real>,
    trend: Option<Trend>,
    latestRawValue: string)

  datatype Receipt = Receipt(snapshotId: nat, parentPkid: nat, readAt: int)

  datatype Parent = Parent(pkid: nat, userPkid: nat, schoolPkid: nat)

  datatype Guardianship = Guardianship(parentPkid: nat, studentPkid: nat)

  datatype Event =
    | PublishedEvent(snapshotId: nat, studentPkid: nat)
    | SentEvent(snapshotId: nat, studentPkid: nat)

  /** The tables, in pkid order, and the events emitted so far. */
  datatype Db = Db(
    students: seq<Student>,
    parents: seq<Parent>,
    guardians: set<Guardianship>,
    reports: seq<DailyReport>,
    curriculum: Curriculum,
    snapshots: seq<Snapshot>,
    items: seq<Item>,
    receipts: seq<Receipt>,
    events: seq<Event>,
    nextId: nat)

  datatype SnapshotError = NotFound | BadRequest | Forbidden | Conflict | Unexpected

  predicate ParentVisible(status: Status) { status == Published || status == Sent }

  function Transitions(from: Status): seq<Status> {
    match from
    case Draft => [PendingReview, Published]
    case PendingReview => [Published]
    case Published => [Sent]
    case Sent => []
  }

  // ── lookups ──────────────────────────────────────────────────────────────

  /** Index of the snapshot with an id in a school, or the number of rows. */
  function IndexOf(rows: seq<Snapshot>, id: nat, schoolPkid: nat): (i: nat)
    ensures i <= |rows|
    ensures i < |rows| ==> rows[i].id == id && rows[i].schoolPkid == schoolPkid
  {
    if rows == [] then 0
    else if rows[0].id == id && rows[0].schoolPkid == schoolPkid then 0
    else 1 + IndexOf(rows[1..], id, schoolPkid)
  }

  predicate IsFor(s: Snapshot, schoolPkid: nat, studentPkid: nat, p: Period) {
    s.studentPkid == studentPkid && s.schoolPkid == schoolPkid && s.period == p
  }

  /** Index of the snapshot of a student and period, or the number of rows. */
  function PeriodIndex(rows: seq<Snapshot>, schoolPkid: nat, studentPkid: nat, p: Period): (i: nat)
    ensures i <= |rows|
    ensures i < |rows| ==> IsFor(rows[i], schoolPkid, studentPkid, p)
    ensures i == |rows| ==> forall s | s in rows :: !IsFor(s, schoolPkid, studentPkid, p)
  {
    if rows == [] then 0
    else if IsFor(rows[0], schoolPkid, studentPkid, p) then 0
    else 1 + PeriodIndex(rows[1..], schoolPkid, studentPkid, p)
  }

  function ParentOf(rows: seq<Parent>, userPkid: nat, schoolPkid: nat): Option<Parent> {
    if rows == [] then None
    else if rows[0].userPkid == userPkid && rows[0].schoolPkid == schoolPkid then Some(rows[0])
    else ParentOf(rows[1..], userPkid, schoolPkid)
  }

  function ReceiptIndex(rows: seq<Receipt>, snapshotId: nat, parentPkid: nat): (i: nat)
    ensures i <= |rows|
    ensures i < |rows| ==> rows[i].snapshotId == snapshotId && rows[i].parentPkid == parentPkid
    ensures i == |rows| ==> forall r | r in rows :: r.snapshotId != snapshotId || r.parentPkid != parentPkid
  {
    if rows == [] then 0
    else if rows[0].snapshotId == snapshotId && rows[0].parentPkid == parentPkid then 0
    else 1 + ReceiptIndex(rows[1..], snapshotId, parentPkid)
  }

  function InSchool(schoolPkid: nat): Student -> bool { (s: Student) => s.schoolPkid == schoolPkid }

  function ItemOf(id: nat): Item -> bool { (it: Item) => it.snapshotId == id }

  function ItemsOf(items: seq<Item>, id: nat): seq<Item> { Filter(items, ItemOf(id)) }

  // ── generation ───────────────────────────────────────────────────────────

  function OtherSnapshot(id: nat): Snapshot -> bool { (s: Snapshot) => s.id != id }

  function OtherItem(id: nat): Item -> bool { (it: Item) => it.snapshotId != id }

  function OtherReceipt(id: nat): Receipt -> bool { (r: Receipt) => r.snapshotId != id }

  /** Removing a snapshot takes its items and receipts with it. */
  function RemoveSnapshot(db: Db, id: nat): Db {
    db.(snapshots := Filter(db.snapshots, OtherSnapshot(id)),
        items := Filter(db.items, OtherItem(id)),
        receipts := Filter(db.receipts, OtherReceipt(id)))
  }

  /** What a figure becomes in a column of two decimals. */
  function Stored(figure: Option<real>): Option<real> {
    if figure.None? then None else Some(Normalisation.Round2(figure.value))
  }

  function BuildItem(snapshotId: nat, a: ActivityAggregation): Item {
    Item(snapshotId, a.activityPkid, a.activityName, a.learningAreaName, a.observationCount,
         Stored(a.averageScore), Stored(a.firstScore), Stored(a.lastScore), a.trend, a.latestRawValue)
  }

  function BuildItems(snapshotId: nat, aggs: seq<ActivityAggregation>): (r: seq<Item>)
    ensures |r| == |aggs|
    ensures forall it | it in r :: it.snapshotId == snapshotId
  {
    if aggs == [] then []
    else BuildItems(snapshotId, aggs[..|aggs| - 1]) + [BuildItem(snapshotId, aggs[|aggs| - 1])]
  }

  function NewSnapshot(id: nat, student: Student, schoolPkid: nat, p: Period, aggs: seq<ActivityAggregation>,
          creator: nat): Snapshot
  {
    Snapshot(id, schoolPkid, student.pkid, p, TotalObservations(aggs), Stored(ComputeOverallScore(aggs)),
             ComputeOverallTrend(aggs), Draft, None, None, None, None, None, creator, None)
  }

  /** A new draft with its items. */
  function WithDraft(db: Db, student: Student, schoolPkid: nat, p: Period, aggs: seq<ActivityAggregation>,
          creator: nat): Db
  {
    db.(snapshots := db.snapshots + [NewSnapshot(db.nextId, student, schoolPkid, p, aggs, creator)],
        items := db.items + BuildItems(db.nextId, aggs),
        nextId := db.nextId + 1)
  }

  /** The tables without the old snapshot of the period, if there is one. */
  function Cleared(db: Db, schoolPkid: nat, studentPkid: nat, p: Period): Db {
    var i := PeriodIndex(db.snapshots, schoolPkid, studentPkid, p);
    if i < |db.snapshots| then RemoveSnapshot(db, db.snapshots[i].id) else db
  }

  /** The committed transaction: the old row goes, a draft and its items come. */
  function Regenerated(db: Db, student: Student, schoolPkid: nat, p: Period, creator: nat): Db {
    var aggs := PeriodAggregations(db.reports, db.curriculum, schoolPkid, student.pkid, p.start, p.end);
    WithDraft(Cleared(db, schoolPkid, student.pkid, p), student, schoolPkid, p, aggs, creator)
  }

  datatype Outcome<T> = Outcome(db: Db, result: Result<T, SnapshotError>)

  /** How a generation goes wrong, if it does: before the commit, which rolls
      everything back, or when the stored snapshot is read back after it. */
  datatype Fault = NoFault | RolledBack | AfterCommit

  /** The faults of a bulk run, by student. */
  type Faults = map<nat, Fault>

  function FaultOf(faults: Faults, pkid: nat): Fault { if pkid in faults then faults[pkid] else NoFault }

  /** The student's report for the period is out, which rules out generating it. */
  predicate Conflicts(db: Db, schoolPkid: nat, studentPkid: nat, p: Period) {
    var i := PeriodIndex(db.snapshots, schoolPkid, studentPkid, p);
    i < |db.snapshots| && ParentVisible(db.snapshots[i].status)
  }

  /** generateForStudent: a fault before the commit leaves the tables as they
      were, one after it reports an error although the draft is stored. */
  function Generate(db: Db, student: Student, schoolPkid: nat, p: Period, creator: nat,
          fault: Fault): (out: Outcome<nat>)
    ensures out.result.Err? && fault != AfterCommit ==> out.db == db
  {
    if Conflicts(db, schoolPkid, student.pkid, p) then Outcome(db, Err(Conflict))
    else
      match fault
      case RolledBack => Outcome(db, Err(Unexpected))
      case AfterCommit => Outcome(Regenerated(db, student, schoolPkid, p, creator), Err(Unexpected))
      case NoFault => Outcome(Regenerated(db, student, schoolPkid, p, creator), Ok(db.nextId))
  }

  /** The generation gets as far as the commit. */
  predicate Commits(db: Db, schoolPkid: nat, studentPkid: nat, p: Period, fault: Fault) {
    !Conflicts(db, schoolPkid, studentPkid, p) && fault != RolledBack
  }

  datatype BulkState = BulkState(db: Db, generated: nat, skipped: nat, errors: seq<nat>)

  /** The students handled one after another. */
  function Bulk(db: Db, students: seq<Student>, schoolPkid: nat, p: Period, creator: nat, faults: Faults): BulkState {
    if students == [] then BulkState(db, 0, 0, [])
    else
      var st := Bulk(db, students[..|students| - 1], schoolPkid, p, creator, faults);
      var s := students[|students| - 1];
      var out := Generate(st.db, s, schoolPkid, p, creator, FaultOf(faults, s.pkid));
      match out.result
      case Ok(_) => st.(db := out.db, generated := st.generated + 1)
      case Err(Conflict) => st.(db := out.db, skipped := st.skipped + 1)
      case Err(_) => st.(db := out.db, errors := st.errors + [s.pkid])
  }

  function BulkGenerate(db: Db, schoolPkid: nat, p: Period, creator: nat, faults: Faults): BulkState {
    Bulk(db, Filter(db.students, InSchool(schoolPkid)), schoolPkid, p, creator, faults)
  }

  // ── workflow ─────────────────────────────────────────────────────────────

  function Move(db: Db, id: nat, schoolPkid: nat, to: Status, change: Snapshot -> Snapshot,
          event: Snapshot -> seq<Event>): Outcome<Snapshot>
  {
    var i := IndexOf(db.snapshots, id, schoolPkid);
    if i == |db.snapshots| then Outcome(db, Err(NotFound))
    else
      var s := db.snapshots[i];
      if to !in Transitions(s.status) then Outcome(db, Err(BadRequest))
      else
        var saved := change(s);
        Outcome(db.(snapshots := db.snapshots[i := saved], events := db.events + event(s)), Ok(saved))
  }

  function Reviewed(notes: Option<string>, reviewer: nat, now: int): Snapshot -> Snapshot {
    (s: Snapshot) => s.(teacherNotes := notes, reviewedBy := Some(reviewer), reviewedAt := Some(now),
                        status := PendingReview, updatedBy := Some(reviewer))
  }

  function PublishedAt(publisher: nat, now: int): Snapshot -> Snapshot {
    (s: Snapshot) => s.(status := Published, publishedAt := Some(now), updatedBy := Some(publisher))
  }

  function SentAt(sender: nat, now: int): Snapshot -> Snapshot {
    (s: Snapshot) => s.(status := Sent, sentAt := Some(now), updatedBy := Some(sender))
  }

  function NoEvent(s: Snapshot): seq<Event> { [] }

  function EmitPublished(s: Snapshot): seq<Event> { [PublishedEvent(s.id, s.studentPkid)] }

  function EmitSent(s: Snapshot): seq<Event> { [SentEvent(s.id, s.studentPkid)] }

  function Review(db: Db, id: nat, schoolPkid: nat, notes: Option<string>, reviewer: nat, now: int): Outcome<Snapshot> {
    Move(db, id, schoolPkid, PendingReview, Reviewed(notes, reviewer, now), NoEvent)
  }

  function Publish(db: Db, id: nat, schoolPkid: nat, publisher: nat, now: int): Outcome<Snapshot> {
    Move(db, id, schoolPkid, Published, PublishedAt(publisher, now), EmitPublished)
  }

  function Send(db: Db, id: nat, schoolPkid: nat, sender: nat, now: int): Outcome<Snapshot> {
    Move(db, id, schoolPkid, Sent, SentAt(sender, now), EmitSent)
  }

  // ── receipts ─────────────────────────────────────────────────────────────

  function MarkAsRead(db: Db, id: nat, schoolPkid: nat, userPkid: nat, now: int): Outcome<int> {
    var i := IndexOf(db.snapshots, id, schoolPkid);
    if i == |db.snapshots| then Outcome(db, Err(NotFound))
    else if !ParentVisible(db.snapshots[i].status) then Outcome(db, Err(BadRequest))
    else
      var parent := ParentOf(db.parents, userPkid, schoolPkid);
      if parent.None? then Outcome(db, Err(Forbidden))
      else if Guardianship(parent.value.pkid, db.snapshots[i].studentPkid) !in db.guardians then
        Outcome(db, Err(Forbidden))
      else
        var k := ReceiptIndex(db.receipts, id, parent.value.pkid);
        if k < |db.receipts| then Outcome(db, Ok(db.receipts[k].readAt))
        else Outcome(db.(receipts := db.receipts + [Receipt(id, parent.value.pkid, now)]), Ok(now))
  }

  /** Published or sent snapshots of the parent's children in the school. */
  function ForParent(db: Db, schoolPkid: nat, parentPkid: nat): Snapshot -> bool {
    (s: Snapshot) => s.schoolPkid == schoolPkid && ParentVisible(s.status)
      && Guardianship(parentPkid, s.studentPkid) in db.guardians
  }

  predicate HasReceipt(receipts: seq<Receipt>, id: nat, parentPkid: nat) {
    exists r :: r in receipts && r.snapshotId == id && r.parentPkid == parentPkid
  }

  function UnreadBy(db: Db, schoolPkid: nat, parentPkid: nat): Snapshot -> bool {
    (s: Snapshot) => ForParent(db, schoolPkid, parentPkid)(s) && !HasReceipt(db.receipts, s.id, parentPkid)
  }

  function ReadBy(db: Db, schoolPkid: nat, parentPkid: nat): Snapshot -> bool {
    (s: Snapshot) => ForParent(db, schoolPkid, parentPkid)(s) && HasReceipt(db.receipts, s.id, parentPkid)
  }

  /** Callers without a parent profile have nothing unread. */
  function UnreadCount(db: Db, schoolPkid: nat, userPkid: nat): nat {
    var parent := ParentOf(db.parents, userPkid, schoolPkid);
    if parent.None? then 0 else |Filter(db.snapshots, UnreadBy(db, schoolPkid, parent.value.pkid))|
  }

  // ── the service ──────────────────────────────────────────────────────────

  class ReportSnapshotService {
    var students: seq<Student>
    var parents: seq<Parent>
    var guardians: set<Guardianship>
    var reports: seq<DailyReport>
    var curriculum: Curriculum
    var snapshots: seq<Snapshot>
    var items: seq<Item>
    var receipts: seq<Receipt>
    var events: seq<Event>
    var nextId: nat

    constructor (students: seq<Student>, parents: seq<Parent>, guardians: set<Guardianship>, reports: seq<DailyReport>,
            curriculum: Curriculum)
      ensures Tables() == Db(students, parents, guardians, reports, curriculum, [], [], [], [], 1)
    {
      this.students, this.parents, this.guardians := students, parents, guardians;
      this.reports, this.curriculum := reports, curriculum;
      snapshots, items, receipts, events, nextId := [], [], [], [], 1;
    }

    ghost function Tables(): Db
      reads this
    {
      Db(students, parents, guardians, reports, curriculum, snapshots, items, receipts, events, nextId)
    }

    method SumObservations(aggs: seq<ActivityAggregation>) returns (total: int)
      ensures total == TotalObservations(aggs)
    {
      total := 0;
      for k := 0 to |aggs|
        invariant total == TotalObservations(aggs[..k])
      {
        assert aggs[..k + 1][..k] == aggs[..k];
        total := total + aggs[k].observationCount;
      }
      assert aggs[..|aggs|] == aggs;
    }

    method GenerateForStudent(student: Student, schoolPkid: nat, p: Period, creator: nat, fault: Fault)
      returns (result: Result<nat, SnapshotError>)
      modifies this
      ensures Outcome(Tables(), result) == Generate(old(Tables()), student, schoolPkid, p, creator, fault)
    {
      hide PeriodAggregations, Filter;
      var i := PeriodIndex(snapshots, schoolPkid, student.pkid, p);
      if i < |snapshots| && ParentVisible(snapshots[i].status) { return Err(Conflict); }
      if fault == RolledBack { return Err(Unexpected); }
      var aggs := AggregateStudentPeriod(reports, curriculum, schoolPkid, student.pkid, p.start, p.end);
      if i < |snapshots| { Remove(snapshots[i].id); }
      var id := SaveDraft(student, schoolPkid, p, aggs, creator);
      if fault == AfterCommit { return Err(Unexpected); }
      result := Ok(id);
    }

    method Remove(id: nat)
      modifies this
      ensures Tables() == RemoveSnapshot(old(Tables()), id)
    {
      snapshots := Filter(snapshots, OtherSnapshot(id));
      items := Filter(items, OtherItem(id));
      receipts := Filter(receipts, OtherReceipt(id));
    }

    method SaveDraft(student: Student, schoolPkid: nat, p: Period, aggs: seq<ActivityAggregation>, creator: nat)
      returns (id: nat)
      modifies this
      ensures Tables() == WithDraft(old(Tables()), student, schoolPkid, p, aggs, creator)
      ensures id == old(nextId)
    {
      id := nextId;
      var total := SumObservations(aggs);
      var saved := Snapshot(id, schoolPkid, student.pkid, p, total, Stored(ComputeOverallScore(aggs)),
                            ComputeOverallTrend(aggs), Draft, None, None, None, None, None, creator, None);
      snapshots := snapshots + [saved];
      items := items + BuildItems(id, aggs);
      nextId := id + 1;
    }

    method GenerateBulk(schoolPkid: nat, p: Period, creator: nat, faults: Faults)
      returns (generated: nat, skipped: nat, errors: seq<nat>)
      modifies this
      ensures BulkState(Tables(), generated, skipped, errors)
        == BulkGenerate(old(Tables()), schoolPkid, p, creator, faults)
    {
      hide Generate, Regenerated, Filter, FaultOf;
      var pupils := Filter(students, InSchool(schoolPkid));
      generated, skipped, errors := 0, 0, [];
      for i := 0 to |pupils|
        invariant BulkState(Tables(), generated, skipped, errors)
          == Bulk(old(Tables()), pupils[..i], schoolPkid, p, creator, faults)
      {
        assert pupils[..i + 1][..i] == pupils[..i];
        var result := GenerateForStudent(pupils[i], schoolPkid, p, creator, FaultOf(faults, pupils[i].pkid));
        match result {
          case Ok(_) => generated := generated + 1;
          case Err(Conflict) => skipped := skipped + 1;
          case Err(_) => errors := errors + [pupils[i].pkid];
        }
      }
      assert pupils[..|pupils|] == pupils;
    }

    method ReviewSnapshot(id: nat, schoolPkid: nat, notes: Option<string>, reviewer: nat, now: int)
      returns (result: Result<Snapshot, SnapshotError>)
      modifies this
      ensures Outcome(Tables(), result) == Review(old(Tables()), id, schoolPkid, notes, reviewer, now)
    {
      var i := IndexOf(snapshots, id, schoolPkid);
      if i == |snapshots| { return Err(NotFound); }
      var snapshot := snapshots[i];
      if PendingReview !in Transitions(snapshot.status) { return Err(BadRequest); }
      snapshot := snapshot.(teacherNotes := notes, reviewedBy := Some(reviewer), reviewedAt := Some(now));
      snapshot := snapshot.(status := PendingReview, updatedBy := Some(reviewer));
      snapshots := snapshots[i := snapshot];
      result := Ok(snapshot);
    }

    method PublishSnapshot(id: nat, schoolPkid: nat, publisher: nat, now: int)
      returns (result: Result<Snapshot, SnapshotError>)
      modifies this
      ensures Outcome(Tables(), result) == Publish(old(Tables()), id, schoolPkid, publisher, now)
    {
      var i := IndexOf(snapshots, id, schoolPkid);
      if i == |snapshots| { return Err(NotFound); }
      var snapshot := snapshots[i];
      if Published !in Transitions(snapshot.status) { return Err(BadRequest); }
      snapshot := snapshot.(status := Published, publishedAt := Some(now), updatedBy := Some(publisher));
      snapshots := snapshots[i := snapshot];
      events := events + [PublishedEvent(snapshot.id, snapshot.studentPkid)];
      result := Ok(snapshot);
    }

    method SendSnapshot(id: nat, schoolPkid: nat, sender: nat, now: int)
      returns (result: Result<Snapshot, SnapshotError>)
      modifies this
      ensures Outcome(Tables(), result) == Send(old(Tables()), id, schoolPkid, sender, now)
    {
      var i := IndexOf(snapshots, id, schoolPkid);
      if i == |snapshots| { return Err(NotFound); }
      var snapshot := snapshots[i];
      if Sent !in Transitions(snapshot.status) { return Err(BadRequest); }
      snapshot := snapshot.(status := Sent, sentAt := Some(now), updatedBy := Some(sender));
      snapshots := snapshots[i := snapshot];
      events := events + [SentEvent(snapshot.id, snapshot.studentPkid)];
      result := Ok(snapshot);
    }

    method MarkSnapshotAsRead(id: nat, schoolPkid: nat, userPkid: nat, now: int)
      returns (result: Result<int, SnapshotError>)
      modifies this
      ensures Outcome(Tables(), result) == MarkAsRead(old(Tables()), id, schoolPkid, userPkid, now)
    {
      var i := IndexOf(snapshots, id, schoolPkid);
      if i == |snapshots| { return Err(NotFound); }
      if !ParentVisible(snapshots[i].status) { return Err(BadRequest); }
      var parent := ParentOf(parents, userPkid, schoolPkid);
      if parent.None? { return Err(Forbidden); }
      if Guardianship(parent.value.pkid, snapshots[i].studentPkid) !in guardians { return Err(Forbidden); }
      var k := ReceiptIndex(receipts, id, parent.value.pkid);
      if k < |receipts| { return Ok(receipts[k].readAt); }
      receipts := receipts + [Receipt(id, parent.value.pkid, now)];
      result := Ok(now);
    }
  }
}
