/** The report-snapshot service read from outside: which requests are accepted,
    with which error the others fail, and exactly what an accepted one writes. */
module SnapshotAnswers {
  import opened Collections
  import opened Entities
  import opened Aggregation
  import opened Snapshots
  import opened SnapshotRuns
  import opened BulkGeneration

  // ── generation ───────────────────────────────────────────────────────────

  /** A generation conflicts exactly with a report of the student and period that is
      out; a fault before the commit leaves everything as it was, one after it
      stores what a faultless generation stores and reports an error all the same. */
  lemma GenerateAnswers(db: Db, student: Student, p: Period, creator: nat, fault: Fault)
    requires Inv(db)
    ensures var out, done := Generate(db, student, student.schoolPkid, p, creator, fault),
        Generate(db, student, student.schoolPkid, p, creator, NoFault);
      if exists s :: s in db.snapshots && IsFor(s, student.schoolPkid, student.pkid, p)
           && (s.status == Published || s.status == Sent) then
        out == Outcome(db, Err(Conflict))
      else
        match fault
        case NoFault => out.result.Ok?
        case RolledBack => out == Outcome(db, Err(Unexpected))
        case AfterCommit => out == Outcome(done.db, Err(Unexpected))
  {
    hide Inv, Regenerated;
    FinalIsFirst(db, student.schoolPkid, student.pkid, p);
  }

  // ── the workflow ─────────────────────────────────────────────────────────

  predicate IsRow(s: Snapshot, id: nat, schoolPkid: nat) { s.id == id && s.schoolPkid == schoolPkid }

  lemma {:induction false} RowLookup(rows: seq<Snapshot>, id: nat, schoolPkid: nat)
    ensures IndexOf(rows, id, schoolPkid) < |rows| <==> exists s :: s in rows && IsRow(s, id, schoolPkid)
  {
    if rows != [] {
      RowLookup(rows[1..], id, schoolPkid);
      if IsRow(rows[0], id, schoolPkid) { assert rows[0] in rows; }
    }
  }

  /** What a step on a report leads to: an unknown id is not found, a status the step
      does not start from is a bad request, and otherwise exactly the row becomes
      `moved` of it and the events grow by those emitted. */
  ghost predicate StepTells(db: Db, out: Outcome<Snapshot>, id: nat, schoolPkid: nat, allowed: set<Status>,
          moved: Snapshot -> Snapshot, emitted: Snapshot -> seq<Event>)
  {
    if forall s | s in db.snapshots :: !IsRow(s, id, schoolPkid) then out == Outcome(db, Err(NotFound))
    else
      exists i ::
        && 0 <= i < |db.snapshots| && IsRow(db.snapshots[i], id, schoolPkid)
        && var s := db.snapshots[i];
           if s.status !in allowed then out == Outcome(db, Err(BadRequest))
           else
             out == Outcome(db.(snapshots := db.snapshots[i := moved(s)], events := db.events + emitted(s)),
               Ok(moved(s)))
  }

  /** Review takes a draft, publishing a draft or reviewed report, sending a published
      one; each stamps what it is about and touches no other column or row. */
  lemma WorkflowAnswers(db: Db, id: nat, schoolPkid: nat, notes: Option<string>, user: nat, now: int)
    ensures StepTells(db, Review(db, id, schoolPkid, notes, user, now), id, schoolPkid, {Draft},
      (s: Snapshot) => Snapshot(s.id, s.schoolPkid, s.studentPkid, s.period, s.totalObservations, s.overallScore,
        s.trend, PendingReview, notes, Some(user), Some(now), s.publishedAt, s.sentAt, s.createdBy, Some(user)),
      (s: Snapshot) => [])
    ensures StepTells(db, Publish(db, id, schoolPkid, user, now), id, schoolPkid, {Draft, PendingReview},
      (s: Snapshot) => Snapshot(s.id, s.schoolPkid, s.studentPkid, s.period, s.totalObservations, s.overallScore,
        s.trend, Published, s.teacherNotes, s.reviewedBy, s.reviewedAt, Some(now), s.sentAt, s.createdBy, Some(user)),
      (s: Snapshot) => [PublishedEvent(s.id, s.studentPkid)])
    ensures StepTells(db, Send(db, id, schoolPkid, user, now), id, schoolPkid, {Published},
      (s: Snapshot) => Snapshot(s.id, s.schoolPkid, s.studentPkid, s.period, s.totalObservations, s.overallScore,
        s.trend, Sent, s.teacherNotes, s.reviewedBy, s.reviewedAt, s.publishedAt, Some(now), s.createdBy, Some(user)),
      (s: Snapshot) => [SentEvent(s.id, s.studentPkid)])
  {
    RowLookup(db.snapshots, id, schoolPkid);
    var i := IndexOf(db.snapshots, id, schoolPkid);
    if i < |db.snapshots| { assert IsRow(db.snapshots[i], id, schoolPkid); }
  }

  // ── receipts ─────────────────────────────────────────────────────────────

  /** The user has a parent profile in the school that is a guardian of the student. */
  ghost predicate MayRead(db: Db, userPkid: nat, schoolPkid: nat, studentPkid: nat) {
    var parent := ParentOf(db.parents, userPkid, schoolPkid);
    parent.Some? && Guardianship(parent.value.pkid, studentPkid) in db.guardians
  }

  lemma {:induction false} ParentLookup(rows: seq<Parent>, userPkid: nat, schoolPkid: nat)
    ensures var parent := ParentOf(rows, userPkid, schoolPkid);
      && (parent.None? <==> forall r | r in rows :: !(r.userPkid == userPkid && r.schoolPkid == schoolPkid))
      && (parent.Some? ==> parent.value in rows && parent.value.userPkid == userPkid
                           && parent.value.schoolPkid == schoolPkid)
  {
    if rows != [] {
      ParentLookup(rows[1..], userPkid, schoolPkid);
      assert rows[0] in rows;
    }
  }

  /** A report is marked as read exactly when it is there, published or sent, and
      about a child of the caller; the first of the three that fails is the error.
      The first reading adds one receipt of that time, a later one answers its time. */
  lemma ReadAnswers(db: Db, id: nat, schoolPkid: nat, userPkid: nat, now: int)
    requires Inv(db)
    ensures var out := MarkAsRead(db, id, schoolPkid, userPkid, now);
      if forall s | s in db.snapshots :: !IsRow(s, id, schoolPkid) then out == Outcome(db, Err(NotFound))
      else
        exists s ::
          && s in db.snapshots && IsRow(s, id, schoolPkid)
          && if !(s.status == Published || s.status == Sent) then out == Outcome(db, Err(BadRequest))
             else if !MayRead(db, userPkid, schoolPkid, s.studentPkid) then out == Outcome(db, Err(Forbidden))
             else
               var pkid := ParentOf(db.parents, userPkid, schoolPkid).value.pkid;
               if exists t :: Receipt(id, pkid, t) in db.receipts then
                 out.db == db && out.result.Ok? && Receipt(id, pkid, out.result.value) in db.receipts
               else out == Outcome(db.(receipts := db.receipts + [Receipt(id, pkid, now)]), Ok(now))
  {
    hide Inv;
    RowLookup(db.snapshots, id, schoolPkid);
    var i := IndexOf(db.snapshots, id, schoolPkid);
    if i < |db.snapshots| {
      assert db.snapshots[i] in db.snapshots && IsRow(db.snapshots[i], id, schoolPkid);
      var parent := ParentOf(db.parents, userPkid, schoolPkid);
      if parent.Some? {
        var k := ReceiptIndex(db.receipts, id, parent.value.pkid);
        if k < |db.receipts| {
          assert db.receipts[k] == Receipt(id, parent.value.pkid, db.receipts[k].readAt);
          assert db.receipts[k] in db.receipts;
        }
      }
    }
  }

  /** Without a parent profile in the school nothing is unread. */
  lemma NobodyHasNothingUnread(db: Db, schoolPkid: nat, userPkid: nat)
    requires forall r | r in db.parents :: !(r.userPkid == userPkid && r.schoolPkid == schoolPkid)
    ensures UnreadCount(db, schoolPkid, userPkid) == 0
  {
    ParentLookup(db.parents, userPkid, schoolPkid);
  }
}
