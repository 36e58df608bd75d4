/** Read receipts and the unread badge: the counts always add up, reading lowers
    the badge by one, and a receipt lasts. */
module Receipts {
  import opened Collections
  import opened Entities
  import opened Aggregation
  import opened Snapshots
  import opened SnapshotRuns

  /** A receipt of the parent for a report the parent can see. */
  function CountedReceipt(db: Db, schoolPkid: nat, parentPkid: nat): Receipt -> bool {
    (r: Receipt) => r.parentPkid == parentPkid
      && exists s :: s in db.snapshots && s.id == r.snapshotId && ForParent(db, schoolPkid, parentPkid)(s)
  }

  function SnapshotIds(rows: seq<Snapshot>): (ids: seq<nat>)
    ensures |ids| == |rows| && forall i | 0 <= i < |ids| :: ids[i] == rows[i].id
  {
    seq(|rows|, i requires 0 <= i < |rows| => rows[i].id)
  }

  function ReceiptIds(rows: seq<Receipt>): (ids: seq<nat>)
    ensures |ids| == |rows| && forall i | 0 <= i < |ids| :: ids[i] == rows[i].snapshotId
  {
    seq(|rows|, i requires 0 <= i < |rows| => rows[i].snapshotId)
  }

  lemma DistinctReadIds(db: Db, schoolPkid: nat, parentPkid: nat)
    requires Inv(db)
    ensures Distinct(SnapshotIds(Filter(db.snapshots, ReadBy(db, schoolPkid, parentPkid))))
    ensures Distinct(ReceiptIds(Filter(db.receipts, CountedReceipt(db, schoolPkid, parentPkid))))
  {
    hide ReadBy, HasReceipt, ForParent, ItemsOk, EventsOk;
    var read, receipts := Filter(db.snapshots, ReadBy(db, schoolPkid, parentPkid)),
      Filter(db.receipts, CountedReceipt(db, schoolPkid, parentPkid));
    FilterPairwise(db.snapshots, ReadBy(db, schoolPkid, parentPkid), EarlierId);
    FilterPairwise(db.receipts, CountedReceipt(db, schoolPkid, parentPkid), OtherReading);
    forall i, j | 0 <= i < j < |read| ensures read[i].id != read[j].id { assert EarlierId(read[i], read[j]); }
    forall i, j | 0 <= i < j < |receipts| ensures receipts[i].snapshotId != receipts[j].snapshotId {
      assert OtherReading(receipts[i], receipts[j]);
      assert receipts[i] in receipts && receipts[j] in receipts;
    }
  }

  lemma ReadMeans(db: Db, schoolPkid: nat, parentPkid: nat, s: Snapshot)
    ensures ReadBy(db, schoolPkid, parentPkid)(s)
      <==> ForParent(db, schoolPkid, parentPkid)(s) && HasReceipt(db.receipts, s.id, parentPkid)
  {
    hide HasReceipt, ForParent;
  }

  lemma ReadHasReceipt(db: Db, schoolPkid: nat, parentPkid: nat, id: nat)
    requires id in SnapshotIds(Filter(db.snapshots, ReadBy(db, schoolPkid, parentPkid)))
    ensures id in ReceiptIds(Filter(db.receipts, CountedReceipt(db, schoolPkid, parentPkid)))
  {
    hide ReadBy, ForParent;
    var read := Filter(db.snapshots, ReadBy(db, schoolPkid, parentPkid));
    var receipts := Filter(db.receipts, CountedReceipt(db, schoolPkid, parentPkid));
    var i :| 0 <= i < |read| && SnapshotIds(read)[i] == id;
    assert read[i] in read;
    ReadMeans(db, schoolPkid, parentPkid, read[i]);
    var r :| r in db.receipts && r.snapshotId == id && r.parentPkid == parentPkid;
    assert r in receipts;
    var j :| 0 <= j < |receipts| && receipts[j] == r;
    assert ReceiptIds(receipts)[j] == id;
  }

  lemma ReceiptHasRead(db: Db, schoolPkid: nat, parentPkid: nat, id: nat)
    requires id in ReceiptIds(Filter(db.receipts, CountedReceipt(db, schoolPkid, parentPkid)))
    ensures id in SnapshotIds(Filter(db.snapshots, ReadBy(db, schoolPkid, parentPkid)))
  {
    hide ReadBy, ForParent;
    var read := Filter(db.snapshots, ReadBy(db, schoolPkid, parentPkid));
    var receipts := Filter(db.receipts, CountedReceipt(db, schoolPkid, parentPkid));
    var j :| 0 <= j < |receipts| && ReceiptIds(receipts)[j] == id;
    assert receipts[j] in receipts;
    var s :| s in db.snapshots && s.id == id && ForParent(db, schoolPkid, parentPkid)(s);
    ReadMeans(db, schoolPkid, parentPkid, s);
    assert s in read;
    var i :| 0 <= i < |read| && read[i] == s;
    assert SnapshotIds(read)[i] == id;
  }

  lemma SeenIsReadOrNot(db: Db, schoolPkid: nat, parentPkid: nat)
    ensures |Filter(db.snapshots, UnreadBy(db, schoolPkid, parentPkid))|
            + |Filter(db.snapshots, ReadBy(db, schoolPkid, parentPkid))|
         == |Filter(db.snapshots, ForParent(db, schoolPkid, parentPkid))|
  {
    FilterPartition(db.snapshots, ForParent(db, schoolPkid, parentPkid),
                    UnreadBy(db, schoolPkid, parentPkid), ReadBy(db, schoolPkid, parentPkid));
  }

  /** In every reachable state the badge and the parent's receipt rows for reports
      the parent can see add up to the number of those reports: no report is
      counted by two receipts, and no receipt counts for two reports. */
  lemma UnreadPlusRead(db: Db, schoolPkid: nat, parentPkid: nat)
    requires Inv(db)
    ensures |Filter(db.snapshots, UnreadBy(db, schoolPkid, parentPkid))|
            + |Filter(db.receipts, CountedReceipt(db, schoolPkid, parentPkid))|
         == |Filter(db.snapshots, ForParent(db, schoolPkid, parentPkid))|
  {
    hide Inv, Filter, UnreadBy, ReadBy, ForParent, CountedReceipt;
    var read, receipts := Filter(db.snapshots, ReadBy(db, schoolPkid, parentPkid)),
      Filter(db.receipts, CountedReceipt(db, schoolPkid, parentPkid));
    SeenIsReadOrNot(db, schoolPkid, parentPkid);
    DistinctReadIds(db, schoolPkid, parentPkid);
    forall id ensures id in SnapshotIds(read) <==> id in ReceiptIds(receipts) {
      if id in SnapshotIds(read) { ReadHasReceipt(db, schoolPkid, parentPkid, id); }
      if id in ReceiptIds(receipts) { ReceiptHasRead(db, schoolPkid, parentPkid, id); }
    }
    SameCount(SnapshotIds(read), ReceiptIds(receipts));
  }

  lemma {:induction false} OneLess<T>(s: seq<T>, p: T -> bool, q: T -> bool, i: nat)
    requires i < |s| && p(s[i]) && !q(s[i])
    requires forall j | 0 <= j < |s| && j != i :: p(s[j]) == q(s[j])
    ensures |Filter(s, p)| == |Filter(s, q)| + 1
  {
    if i == 0 {
      FilterAgree(s[1..], p, q);
    } else {
      OneLess(s[1..], p, q, i - 1);
    }
  }

  lemma UnreadMeans(db: Db, schoolPkid: nat, parentPkid: nat, s: Snapshot)
    ensures UnreadBy(db, schoolPkid, parentPkid)(s)
        <==> && s.schoolPkid == schoolPkid && ParentVisible(s.status)
             && Guardianship(parentPkid, s.studentPkid) in db.guardians
             && !HasReceipt(db.receipts, s.id, parentPkid)
  {
    hide HasReceipt;
    assert ForParent(db, schoolPkid, parentPkid)(s)
      <==> && s.schoolPkid == schoolPkid && ParentVisible(s.status)
           && Guardianship(parentPkid, s.studentPkid) in db.guardians;
  }

  lemma ReceiptSeen(receipts: seq<Receipt>, id: nat, parentPkid: nat)
    ensures HasReceipt(receipts, id, parentPkid) <==> ReceiptIndex(receipts, id, parentPkid) < |receipts|
  {
    var k := ReceiptIndex(receipts, id, parentPkid);
    if k < |receipts| { assert receipts[k] in receipts; }
  }

  lemma ReceiptAdds(receipts: seq<Receipt>, r: Receipt, id: nat, parentPkid: nat)
    ensures HasReceipt(receipts + [r], id, parentPkid)
        <==> HasReceipt(receipts, id, parentPkid) || (id == r.snapshotId && parentPkid == r.parentPkid)
  {
    if HasReceipt(receipts, id, parentPkid) {
      var o :| o in receipts && o.snapshotId == id && o.parentPkid == parentPkid;
      assert o in receipts + [r];
    }
    assert r in receipts + [r];
  }

  /** Opening a report for the first time lowers the caller's badge by exactly one
      and stamps the time; opening it again changes nothing and gives the old time. */
  lemma MarkingAsRead(db: Db, id: nat, schoolPkid: nat, userPkid: nat, now: int)
    requires Inv(db) && MarkAsRead(db, id, schoolPkid, userPkid, now).result.Ok?
    ensures var out := MarkAsRead(db, id, schoolPkid, userPkid, now);
      var parent := ParentOf(db.parents, userPkid, schoolPkid);
      && parent.Some?
      && Receipt(id, parent.value.pkid, out.result.value) in out.db.receipts
      && if HasReceipt(db.receipts, id, parent.value.pkid) then out.db == db
         else
           && out.result == Ok(now)
           && UnreadCount(out.db, schoolPkid, userPkid) == UnreadCount(db, schoolPkid, userPkid) - 1
  {
    hide Inv, Filter, UnreadBy;
    var out := MarkAsRead(db, id, schoolPkid, userPkid, now);
    var parent := ParentOf(db.parents, userPkid, schoolPkid);
    var i := IndexOf(db.snapshots, id, schoolPkid);
    ReceiptSeen(db.receipts, id, parent.value.pkid);
    var before, after := UnreadBy(db, schoolPkid, parent.value.pkid), UnreadBy(out.db, schoolPkid, parent.value.pkid);
    if !HasReceipt(db.receipts, id, parent.value.pkid) {
      var r := Receipt(id, parent.value.pkid, now);
      assert out.db.receipts == db.receipts + [r];
      forall j | 0 <= j < |db.snapshots| && j != i ensures before(db.snapshots[j]) == after(db.snapshots[j]) {
        IdsApart(db, i, j);
        ReceiptAdds(db.receipts, r, db.snapshots[j].id, parent.value.pkid);
        UnreadMeans(db, schoolPkid, parent.value.pkid, db.snapshots[j]);
        UnreadMeans(out.db, schoolPkid, parent.value.pkid, db.snapshots[j]);
      }
      ReceiptAdds(db.receipts, r, id, parent.value.pkid);
      UnreadMeans(db, schoolPkid, parent.value.pkid, db.snapshots[i]);
      UnreadMeans(out.db, schoolPkid, parent.value.pkid, db.snapshots[i]);
      OneLess(db.snapshots, before, after, i);
    }
  }

  lemma IdsApart(db: Db, i: nat, j: nat)
    requires Inv(db) && i < |db.snapshots| && j < |db.snapshots| && i != j
    ensures db.snapshots[i].id != db.snapshots[j].id
  {
    var rows := db.snapshots;
    forall a, b | 0 <= a < b < |rows| ensures rows[a].id < rows[b].id { assert EarlierId(rows[a], rows[b]); }
  }

  /** Nobody else's badge moves. */
  lemma OthersKeepTheirBadge(db: Db, id: nat, schoolPkid: nat, userPkid: nat, now: int, otherSchool: nat,
          otherUser: nat)
    requires Inv(db)
    requires ParentOf(db.parents, otherUser, otherSchool).Some? && ParentOf(db.parents, userPkid, schoolPkid).Some?
      ==> ParentOf(db.parents, otherUser, otherSchool).value.pkid
          != ParentOf(db.parents, userPkid, schoolPkid).value.pkid
    ensures UnreadCount(MarkAsRead(db, id, schoolPkid, userPkid, now).db, otherSchool, otherUser)
      == UnreadCount(db, otherSchool, otherUser)
  {
    hide Inv, Filter, UnreadBy;
    var u := MarkAsRead(db, id, schoolPkid, userPkid, now).db;
    var other := ParentOf(db.parents, otherUser, otherSchool);
    if u != db && other.Some? {
      var r := Receipt(id, ParentOf(db.parents, userPkid, schoolPkid).value.pkid, now);
      var before, after := UnreadBy(db, otherSchool, other.value.pkid), UnreadBy(u, otherSchool, other.value.pkid);
      forall s | s in db.snapshots ensures before(s) == after(s) {
        ReceiptAdds(db.receipts, r, s.id, other.value.pkid);
        UnreadMeans(db, otherSchool, other.value.pkid, s);
        UnreadMeans(u, otherSchool, other.value.pkid, s);
      }
      FilterAgree(db.snapshots, before, after);
    }
  }

  // ── receipts last ────────────────────────────────────────────────────────

  lemma GenerateKeepsReceipt(db: Db, student: Student, p: Period, creator: nat, fault: Fault, r: Receipt)
    requires Inv(db) && student in db.students && r in db.receipts
    ensures r in Generate(db, student, student.schoolPkid, p, creator, fault).db.receipts
  {
    hide PeriodAggregations;
    var i := PeriodIndex(db.snapshots, student.schoolPkid, student.pkid, p);
    if i < |db.snapshots| && !ParentVisible(db.snapshots[i].status) {
      var s :| s in db.snapshots && s.id == r.snapshotId && ParentVisible(s.status);
      var o := db.snapshots[i];
      IdsDiffer(db, o, s);
      assert OtherReceipt(o.id)(r);
    }
  }

  lemma {:induction false} BulkKeepsReceipt(db: Db, pupils: seq<Student>, schoolPkid: nat, p: Period, creator: nat,
          faults: Faults, r: Receipt)
    requires Inv(db) && r in db.receipts
    requires forall st | st in pupils :: st in db.students && st.schoolPkid == schoolPkid
    ensures r in Bulk(db, pupils, schoolPkid, p, creator, faults).db.receipts
  {
    hide Inv, Generate;
    if pupils != [] {
      var front, last := pupils[..|pupils| - 1], pupils[|pupils| - 1];
      assert last in pupils;
      BulkKeepsReceipt(db, front, schoolPkid, p, creator, faults, r);
      BulkInv(db, front, schoolPkid, p, creator, faults);
      GenerateKeepsReceipt(Bulk(db, front, schoolPkid, p, creator, faults).db, last, p, creator,
        FaultOf(faults, last.pkid), r);
    }
  }

  lemma StepKeepsReceipt(db: Db, q: Request, r: Receipt)
    requires Inv(db) && r in db.receipts
    ensures r in Step(db, q).receipts
  {
    hide Inv, Generate, Bulk;
    match q
    case GenerateOne(studentPkid, school, p, creator, fault) =>
      FoundStudent(db.students, studentPkid, school);
      var st := StudentByPkid(db.students, studentPkid, school);
      if st.Some? { GenerateKeepsReceipt(db, st.value, p, creator, fault, r); }
    case GenerateAll(school, p, creator, faults) =>
      BulkKeepsReceipt(db, Filter(db.students, InSchool(school)), school, p, creator, faults, r);
    case _ =>
  }

  /** A receipt is never lost or restamped: regeneration, which deletes a
      snapshot's receipts, only ever touches snapshots nobody could have read. */
  lemma {:induction false} ReceiptIsForever(db: Db, qs: seq<Request>, r: Receipt)
    requires Inv(db) && r in db.receipts
    ensures r in Run(db, qs).receipts
  {
    hide Inv, Step;
    if qs != [] {
      ReceiptIsForever(db, qs[..|qs| - 1], r);
      RunInv(db, qs[..|qs| - 1]);
      StepKeepsReceipt(Run(db, qs[..|qs| - 1]), qs[|qs| - 1], r);
    }
  }

  lemma OneReceipt(receipts: seq<Receipt>, r: Receipt)
    requires Pairwise(receipts, OtherReading) && r in receipts
    ensures var k := ReceiptIndex(receipts, r.snapshotId, r.parentPkid); k < |receipts| && receipts[k] == r
  {
    var k := ReceiptIndex(receipts, r.snapshotId, r.parentPkid);
    forall i, j | 0 <= i < j < |receipts|
      ensures receipts[i].snapshotId != receipts[j].snapshotId || receipts[i].parentPkid != receipts[j].parentPkid
    {
      assert OtherReading(receipts[i], receipts[j]);
    }
    var j :| 0 <= j < |receipts| && receipts[j] == r;
  }

  lemma ReadWithReceipt(u: Db, r: Receipt, schoolPkid: nat, userPkid: nat, now: int)
    requires Pairwise(u.receipts, OtherReading) && r in u.receipts
    ensures var out, parent := MarkAsRead(u, r.snapshotId, schoolPkid, userPkid, now),
      ParentOf(u.parents, userPkid, schoolPkid);
      out.result.Ok? && parent.Some? && parent.value.pkid == r.parentPkid ==> out.result == Ok(r.readAt) && out.db == u
  {
    hide Pairwise;
    OneReceipt(u.receipts, r);
  }

  /** However much happens in between, marking a report as read a second time
      answers the time of the first and changes nothing. */
  lemma ReadingAgain(db: Db, id: nat, schoolPkid: nat, userPkid: nat, now: int, qs: seq<Request>, later: int)
    requires Inv(db) && MarkAsRead(db, id, schoolPkid, userPkid, now).result.Ok?
    ensures var first := MarkAsRead(db, id, schoolPkid, userPkid, now);
      var u := Run(first.db, qs);
      var second := MarkAsRead(u, id, schoolPkid, userPkid, later);
      second.result.Ok? && ParentOf(u.parents, userPkid, schoolPkid) == ParentOf(db.parents, userPkid, schoolPkid)
      ==> second.result == first.result && second.db == u
  {
    hide Inv, Run, HasReceipt, UnreadCount, MarkAsRead;
    var first := MarkAsRead(db, id, schoolPkid, userPkid, now);
    MarkingAsRead(db, id, schoolPkid, userPkid, now);
    ReadInv(db, id, schoolPkid, userPkid, now);
    var r := Receipt(id, ParentOf(db.parents, userPkid, schoolPkid).value.pkid, first.result.value);
    ReceiptIsForever(first.db, qs, r);
    RunInv(first.db, qs);
    InvParts(Run(first.db, qs));
    ReadWithReceipt(Run(first.db, qs), r, schoolPkid, userPkid, later);
  }
}
