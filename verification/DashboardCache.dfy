/** The cache in front of the parent dashboard: its keys, the invalidation scan,
    and that what it serves is what would be computed. */
module DashboardCache {
  import opened Collections
  import opened Entities
  import opened DecimalText
  import opened Snapshots
  import opened SnapshotRuns
  import opened Dashboard
  import opened Uuids
  import Aggregation
  import TextReaders

  // ── keys and patterns ────────────────────────────────────────────────────

  function TypeText(t: Option<ReportType>): string {
    match t
    case None => "ALL"
    case Some(Weekly) => "WEEKLY"
    case Some(Termly) => "TERMLY"
  }

  const PREFIX := "dashboard:"

  function MakeKey(studentId: string, f: Filters): string {
    PREFIX + studentId + ":" + TypeText(f.reportType) + ":" + NatToString(f.weeks)
  }

  function MakeLegacyKey(studentId: string): string { PREFIX + studentId }

  function MakeStudentPattern(studentId: string): string { PREFIX + studentId + ":*" }

  /** Glob matching as the key scan does it, for patterns without classes or escapes. */
  predicate Glob(p: string, s: string)
    decreases |p|, |s|
  {
    if p == [] then s == []
    else if p[0] == '*' then Glob(p[1..], s) || (s != [] && Glob(p, s[1..]))
    else s != [] && (p[0] == '?' || p[0] == s[0]) && Glob(p[1..], s[1..])
  }

  lemma {:induction false} StarMatches(s: string)
    ensures Glob("*", s)
  {
    if s != [] { StarMatches(s[1..]); }
  }

  predicate Literal(c: char) { c != '*' && c != '?' && c != '[' && c != '\\' }

  /** A literal text followed by a star matches exactly the texts it is a prefix of. */
  lemma {:induction false} PrefixPattern(lit: string, s: string)
    requires forall c | c in lit :: Literal(c)
    ensures Glob(lit + "*", s) <==> lit <= s
  {
    if lit == [] {
      assert lit + "*" == "*";
      StarMatches(s);
    } else {
      assert Literal(lit[0]);
      assert (lit + "*")[1..] == lit[1..] + "*";
      if s != [] && lit[0] == s[0] {
        PrefixPattern(lit[1..], s[1..]);
        assert lit == [lit[0]] + lit[1..] && s == [s[0]] + s[1..];
      }
    }
  }

  lemma KeyParts(id: string, f: Filters)
    requires |id| == 36
    ensures var k := MakeKey(id, f);
      k[10..46] == id && k[..47] == PREFIX + id + ":" && k[47..] == TypeText(f.reportType) + ":" + NatToString(f.weeks)
  {
    var tail := TypeText(f.reportType) + ":" + NatToString(f.weeks);
    var head := PREFIX + id + ":";
    assert MakeKey(id, f) == head + tail && |head| == 47;
    assert head[10..46] == id;
  }

  lemma TypesApart(a: Filters, b: Filters)
    requires TypeText(a.reportType) + ":" + NatToString(a.weeks) == TypeText(b.reportType) + ":" + NatToString(b.weeks)
    ensures a == b
  {
    var x, y := TypeText(a.reportType) + ":" + NatToString(a.weeks),
      TypeText(b.reportType) + ":" + NatToString(b.weeks);
    assert x[0] == TypeText(a.reportType)[0] && y[0] == TypeText(b.reportType)[0];
    assert a.reportType == b.reportType;
    var n := |TypeText(a.reportType)| + 1;
    assert x[n..] == NatToString(a.weeks) && y[n..] == NatToString(b.weeks);
    NumeralsDiffer(a.weeks, b.weeks);
  }

  /** Two requests share a cache key only if they ask the same thing of the same id text. */
  lemma KeysDiffer(id: string, f: Filters, other: string, g: Filters)
    requires UuidText(id) && UuidText(other) && MakeKey(id, f) == MakeKey(other, g)
    ensures id == other && f == g
  {
    hide MakeKey, TypeText, NatToString;
    KeyParts(id, f);
    KeyParts(other, g);
    TypesApart(f, g);
  }

  /** The invalidation pattern of a student matches every key of that id text
      and no key of any other; the legacy key is nobody's key. */
  lemma PatternIsExact(id: string, other: string, f: Filters)
    requires UuidText(id) && UuidText(other)
    ensures Glob(MakeStudentPattern(id), MakeKey(other, f)) <==> other == id
    ensures MakeLegacyKey(id) != MakeKey(other, f)
  {
    hide Glob, NatToString;
    var lit := PREFIX + id + ":";
    forall c | c in lit ensures Literal(c) {
      if c in id { assert UuidChar(c); }
    }
    assert MakeStudentPattern(id) == lit + "*";
    PrefixPattern(lit, MakeKey(other, f));
    KeyParts(other, f);
    assert lit <= MakeKey(other, f) <==> MakeKey(other, f)[..47] == lit;
    assert lit[10..46] == id && (PREFIX + other + ":")[10..46] == other;
    assert |MakeKey(other, f)| > 46 && |MakeLegacyKey(id)| == 46;
  }

  // ── the cache ────────────────────────────────────────────────────────────

  const TTL_SECONDS := 3600

  datatype Cached = Cached(view: View, at: int)

  predicate Alive(c: Cached, now: int) { now < c.at + TTL_SECONDS }

  function Lookup(store: map<string, Cached>, key: string, now: int): Option<View> {
    if key in store && Alive(store[key], now) then Some(store[key].view) else None
  }

  function Invalidated(store: map<string, Cached>, id: string): map<string, Cached> {
    map k | k in store && !Glob(MakeStudentPattern(id), k) && k != MakeLegacyKey(id) :: store[k]
  }

  datatype Answer = Answer(store: map<string, Cached>, view: View)

  /** getDashboard; a failing cache read or write is ignored. */
  function CachedView(db: Db, store: map<string, Cached>, schoolPkid: nat, userPkid: nat, text: string, f: Filters,
          now: int, getOk: bool, setOk: bool): Answer
  {
    var key := MakeKey(text, f);
    var hit := if getOk then Lookup(store, key, now) else None;
    if hit.Some? then Answer(store, hit.value)
    else
      var live := LiveFor(db, schoolPkid, userPkid, text, f, now);
      Answer(if setOk then store[key := Cached(live, now)] else store, live)
  }

  function Flatten(batches: seq<seq<string>>): seq<string> {
    if batches == [] then [] else Flatten(batches[..|batches| - 1]) + batches[|batches| - 1]
  }

  /** What a complete scan of the store answers, call by call: only matching
      keys, and every matching key of the store at least once. */
  ghost predicate CompleteScan(store: map<string, Cached>, pattern: string, replies: seq<seq<string>>) {
    && replies != []
    && (forall i, k | 0 <= i < |replies| && k in replies[i] :: Glob(pattern, k))
    && (forall k | k in store && Glob(pattern, k) :: exists i :: 0 <= i < |replies| && k in replies[i])
  }

  lemma {:induction false} Flattened(replies: seq<seq<string>>, k: string)
    ensures k in Flatten(replies) <==> exists i :: 0 <= i < |replies| && k in replies[i]
  {
    if replies != [] {
      var n := |replies| - 1;
      Flattened(replies[..n], k);
      if k in replies[n] { assert k in Flatten(replies); }
      if k in Flatten(replies[..n]) {
        var i :| 0 <= i < n && k in replies[..n][i];
        assert k in replies[i];
      }
    }
  }

  class ParentDashboardService {
    var store: map<string, Cached>

    constructor ()
      ensures store == map[]
    {
      store := map[];
    }

    method GetDashboard(db: Db, schoolPkid: nat, userPkid: nat, text: string, f: Filters, now: int, getOk: bool,
            setOk: bool)
      returns (view: View)
      modifies this
      ensures Answer(store, view) == CachedView(db, old(store), schoolPkid, userPkid, text, f, now, getOk, setOk)
    {
      var key := MakeKey(text, f);
      if getOk {
        var cached := Lookup(store, key, now);
        if cached.Some? { return cached.value; }
      }
      view := ComputeLiveDashboard(db, schoolPkid, userPkid, text, f, now);
      if setOk { store := store[key := Cached(view, now)]; }
    }

    /** The scan goes on until the cursor comes back to zero. */
    method InvalidateStudent(id: string, replies: seq<seq<string>>)
      requires CompleteScan(store, MakeStudentPattern(id), replies)
      modifies this
      ensures store == Invalidated(old(store), id)
    {
      hide Glob, MakeStudentPattern, MakeLegacyKey;
      var keys: seq<string> := [];
      var cursor, started := 0, false;
      while !started || cursor != 0
        invariant cursor < |replies| && (!started ==> cursor == 0)
        invariant keys == Flatten(replies[..if started && cursor == 0 then |replies| else cursor])
        decreases if started && cursor == 0 then 0 else |replies| - cursor
      {
        var batch := replies[cursor];
        assert replies[..cursor + 1][..cursor] == replies[..cursor];
        cursor := if cursor + 1 < |replies| then cursor + 1 else 0;
        keys := keys + batch;
        started := true;
      }
      assert replies[..|replies|] == replies;
      forall k ensures k in keys <==> exists i :: 0 <= i < |replies| && k in replies[i] { Flattened(replies, k); }
      var unique := (set k | k in keys) + {MakeLegacyKey(id)};
      store := store - unique;
    }
  }

  // ── the whole system ─────────────────────────────────────────────────────

  datatype State = State(db: Db, store: map<string, Cached>, now: int)

  datatype SystemRequest =
    | Write(request: Request, heard: bool)
    | Look(schoolPkid: nat, userPkid: nat, text: string, filters: Filters, getOk: bool, setOk: bool)
    | Wait(seconds: nat)

  predicate StoredIds(students: seq<Student>) { forall s | s in students :: StoredUuid(s.id) }

  /** New students get ids in the stored form. */
  predicate Enrols(q: Request) { q.Elsewhere? ==> StoredIds(q.students) }

  function StudentIdOf(students: seq<Student>, pkid: nat): Option<string> {
    if students == [] then None
    else if students[0].pkid == pkid then Some(students[0].id)
    else StudentIdOf(students[1..], pkid)
  }

  /** The listeners of the events, one after another. */
  function Notified(store: map<string, Cached>, events: seq<Event>, students: seq<Student>): map<string, Cached> {
    if events == [] then store
    else
      var rest := Notified(store, events[..|events| - 1], students);
      var id := StudentIdOf(students, events[|events| - 1].studentPkid);
      if id.None? then rest else Invalidated(rest, id.value)
  }

  function NewEvents(db: Db, u: Db): seq<Event> {
    if |db.events| <= |u.events| then u.events[|db.events|..] else []
  }

  /** The listeners of a write reached the cache. */
  predicate Heard(r: SystemRequest) { r.Write? ==> r.heard }

  function Served(st: State, r: SystemRequest): Option<Answer> {
    match r
    case Look(school, user, text, f, getOk, setOk) =>
      if UuidText(text) && Guarded(st.db, school, user, text)
      then Some(CachedView(st.db, st.store, school, user, text, f, st.now, getOk, setOk)) else None
    case _ => None
  }

  function SystemStep(st: State, r: SystemRequest): State {
    match r
    case Write(q, heard) =>
      if Enrols(q) then
        var u := Step(st.db, q);
        State(u, if heard then Notified(st.store, NewEvents(st.db, u), u.students) else st.store, st.now)
      else st
    case Look(_, _, _, _, _, _) =>
      var answer := Served(st, r);
      if answer.Some? then st.(store := answer.value.store) else st
    case Wait(n) => st.(now := st.now + n)
  }

  function SystemRun(st: State, rs: seq<SystemRequest>): State {
    if rs == [] then st else SystemStep(SystemRun(st, rs[..|rs| - 1]), rs[|rs| - 1])
  }

  /** An entry stands for a request about an existing student; under the stored
      spelling of the id it holds what is live now, with the cutoff of its day. */
  ghost predicate EntryFor(db: Db, key: string, c: Cached, text: string, f: Filters) {
    && key == MakeKey(text, f) && UuidText(text)
    && StudentByUuid(db.students, text).Some?
    && (StoredUuid(text) ==> c.view == Live(db, StudentByUuid(db.students, text).value, f, c.at))
  }

  ghost predicate EntryOk(db: Db, key: string, c: Cached, now: int) {
    c.at <= now && exists text, f :: EntryFor(db, key, c, text, f)
  }

  ghost predicate SystemInv(st: State) {
    && Inv(st.db) && StoredIds(st.db.students)
    && forall k | k in st.store :: EntryOk(st.db, k, st.store[k], st.now)
  }

  // ── writes ───────────────────────────────────────────────────────────────

  lemma {:induction false} FoundByUuid(students: seq<Student>, text: string)
    ensures StudentByUuid(students, text).Some? ==>
      StudentByUuid(students, text).value in students
        && StudentByUuid(students, text).value.id == TextReaders.ToLower(text)
  {
    if students != [] { FoundByUuid(students[1..], text); }
  }

  lemma {:induction false} LookupLasts(students: seq<Student>, more: seq<Student>, text: string)
    requires students <= more && StudentByUuid(students, text).Some?
    ensures StudentByUuid(more, text) == StudentByUuid(students, text)
  {
    if TextReaders.ToLower(text) != students[0].id { LookupLasts(students[1..], more[1..], text); }
  }

  lemma {:induction false} IdOfStudent(students: seq<Student>, s: Student)
    requires DistinctStudents(students) && s in students
    ensures StudentIdOf(students, s.pkid) == Some(s.id)
  {
    if students[0] != s {
      assert s in students[1..];
      IdOfStudent(students[1..], s);
      var i :| 0 <= i < |students[1..]| && students[1..][i] == s;
      assert students[i + 1] == s;
    }
  }

  lemma {:induction false} NotifyShrinks(store: map<string, Cached>, events: seq<Event>, students: seq<Student>,
          key: string)
    ensures key in Notified(store, events, students) ==>
      key in store && Notified(store, events, students)[key] == store[key]
  {
    if events != [] { NotifyShrinks(store, events[..|events| - 1], students, key); }
  }

  lemma {:induction false} NotifyRemoves(store: map<string, Cached>, events: seq<Event>, students: seq<Student>,
          e: Event, s: Student, f: Filters)
    requires DistinctStudents(students) && s in students && UuidText(s.id)
    requires e in events && e.studentPkid == s.pkid
    ensures MakeKey(s.id, f) !in Notified(store, events, students)
  {
    hide Glob, MakeKey, MakeLegacyKey, MakeStudentPattern, DistinctStudents, UuidText;
    var front, last := events[..|events| - 1], events[|events| - 1];
    assert events == front + [last];
    if e == last {
      IdOfStudent(students, s);
      PatternIsExact(s.id, s.id, f);
    } else {
      NotifyRemoves(store, front, students, e, s, f);
    }
  }

  /** A request leaves a student's dashboard alone or announces a change to it. */
  lemma StepAnnounces(db: Db, q: Request, schoolPkid: nat, studentPkid: nat)
    requires Inv(db)
    ensures SameShelf(db, Step(db, q), schoolPkid, studentPkid)
         || exists e :: e in NewEvents(db, Step(db, q)) && e.studentPkid == studentPkid
  {
    hide Inv, Generate, Bulk, SameShelf, Review, Publish, Send, MarkAsRead;
    StaysOnShelf(db, schoolPkid, studentPkid);
    match q
    case GenerateOne(pkid, school, p, creator, fault) =>
      FoundStudent(db.students, pkid, school);
      var st := StudentByPkid(db.students, pkid, school);
      if st.Some? { GenerateKeepsShelf(db, st.value, p, creator, fault, schoolPkid, studentPkid); }
    case GenerateAll(school, p, creator, faults) =>
      BulkKeepsShelf(db, Filter(db.students, InSchool(school)), school, p, creator, faults, schoolPkid, studentPkid);
    case ReviewOne(id, school, notes, user, now) =>
      WorkflowKeepsShelf(db, id, school, notes, user, now, schoolPkid, studentPkid);
    case PublishOne(id, school, user, now) =>
      WorkflowKeepsShelf(db, id, school, None, user, now, schoolPkid, studentPkid);
      PublishAnnounces(db, id, school, user, now);
    case SendOne(id, school, user, now) =>
      WorkflowKeepsShelf(db, id, school, None, user, now, schoolPkid, studentPkid);
      PublishAnnounces(db, id, school, user, now);
    case ReadOne(id, school, user, now) => ReadKeepsShelf(db, id, school, user, now, schoolPkid, studentPkid);
    case Elsewhere(_, _, _, _, _) => ElsewhereKeepsShelf(db, q, schoolPkid, studentPkid);
  }

  lemma PublishAnnounces(db: Db, id: nat, schoolPkid: nat, user: nat, now: int)
    ensures var out := Publish(db, id, schoolPkid, user, now);
      out.result.Ok? ==> PublishedEvent(id, out.result.value.studentPkid) in NewEvents(db, out.db)
    ensures var out := Send(db, id, schoolPkid, user, now);
      out.result.Ok? ==> SentEvent(id, out.result.value.studentPkid) in NewEvents(db, out.db)
  {
    var a, b := Publish(db, id, schoolPkid, user, now), Send(db, id, schoolPkid, user, now);
    assert a.result.Ok? ==> NewEvents(db, a.db)[0] == PublishedEvent(id, a.result.value.studentPkid);
    assert b.result.Ok? ==> NewEvents(db, b.db)[0] == SentEvent(id, b.result.value.studentPkid);
  }

  lemma ReadKeepsShelf(db: Db, id: nat, school: nat, user: nat, now: int, schoolPkid: nat, studentPkid: nat)
    ensures SameShelf(db, MarkAsRead(db, id, school, user, now).db, schoolPkid, studentPkid)
  {
    hide ItemsOf;
  }

  lemma ElsewhereKeepsShelf(db: Db, q: Request, schoolPkid: nat, studentPkid: nat)
    requires q.Elsewhere?
    ensures SameShelf(db, Step(db, q), schoolPkid, studentPkid)
  {
    hide ItemsOf;
  }

  lemma StepStudents(db: Db, q: Request)
    requires Inv(db) && StoredIds(db.students) && Enrols(q)
    ensures db.students <= Step(db, q).students && StoredIds(Step(db, q).students)
  {
    hide Inv, Generate;
    if q.GenerateAll? {
      BulkInv(db, Filter(db.students, InSchool(q.schoolPkid)), q.schoolPkid, q.period, q.creator, q.faults);
    }
    if q.GenerateOne? {
      var s := StudentByPkid(db.students, q.studentPkid, q.schoolPkid);
      if s.Some? { GenerateFrame(db, s.value, q.schoolPkid, q.period, q.creator, q.fault); }
    }
  }

  /** An entry that outlives a write still stands for what is live. */
  lemma WriteKeepsEntry(db: Db, q: Request, store: map<string, Cached>, key: string, now: int)
    requires Inv(db) && StoredIds(db.students) && Enrols(q)
    requires key in store && EntryOk(db, key, store[key], now)
    requires key in Notified(store, NewEvents(db, Step(db, q)), Step(db, q).students)
    ensures EntryOk(Step(db, q), key, store[key], now)
  {
    hide Inv, Step, Live, SameShelf, Notified, MakeKey, UuidText, NewEvents;
    var u := Step(db, q);
    var text, f :| EntryFor(db, key, store[key], text, f);
    var s := StudentByUuid(db.students, text).value;
    FoundByUuid(db.students, text);
    StepStudents(db, q);
    StepInv(db, q);
    InvParts(u);
    LookupLasts(db.students, u.students, text);
    if StoredUuid(text) {
      StepAnnounces(db, q, s.schoolPkid, s.pkid);
      if e :| e in NewEvents(db, u) && e.studentPkid == s.pkid {
        assert s in u.students;
        NotifyRemoves(store, NewEvents(db, u), u.students, e, s, f);
        assert false;
      }
      SameShelfSameLive(db, u, s, f, store[key].at);
    }
    assert EntryFor(u, key, store[key], text, f);
  }

  lemma StepKeepsInv(st: State, r: SystemRequest)
    requires SystemInv(st) && Heard(r)
    ensures SystemInv(SystemStep(st, r))
  {
    hide Inv, Step, Notified, EntryFor, NewEvents;
    var u := SystemStep(st, r);
    match r
    case Write(q, _) =>
      if Enrols(q) {
        StepInv(st.db, q);
        StepStudents(st.db, q);
        forall k | k in u.store ensures EntryOk(u.db, k, u.store[k], u.now) {
          NotifyShrinks(st.store, NewEvents(st.db, u.db), u.db.students, k);
          WriteKeepsEntry(st.db, q, st.store, k, st.now);
        }
      }
    case Look(school, user, text, f, getOk, setOk) =>
      if Served(st, r).Some? { LookAdds(st, school, user, text, f); }
    case Wait(n) =>
  }

  lemma LookAdds(st: State, schoolPkid: nat, userPkid: nat, text: string, f: Filters)
    requires UuidText(text) && Guarded(st.db, schoolPkid, userPkid, text)
    ensures EntryOk(st.db, MakeKey(text, f), Cached(LiveFor(st.db, schoolPkid, userPkid, text, f, st.now), st.now),
      st.now)
  {
    hide LiveFor, Live, MakeKey, UuidText;
    GuardedCallersAgree(st.db, schoolPkid, userPkid, text, f, st.now);
    assert EntryFor(st.db, MakeKey(text, f), Cached(LiveFor(st.db, schoolPkid, userPkid, text, f, st.now), st.now),
      text, f);
  }

  lemma {:induction false} RunKeepsInv(st: State, rs: seq<SystemRequest>)
    requires SystemInv(st) && forall r | r in rs :: Heard(r)
    ensures SystemInv(SystemRun(st, rs))
  {
    hide SystemInv, SystemStep, Heard;
    if rs != [] {
      RunKeepsInv(st, rs[..|rs| - 1]);
      StepKeepsInv(SystemRun(st, rs[..|rs| - 1]), rs[|rs| - 1]);
    }
  }

  /** The cache refines computation: in every reachable state, a dashboard served
      for an id in its stored spelling is exactly what would be computed on the
      current tables, with the clock of a moment less than an hour ago. */
  lemma ServedIsLive(st: State, rs: seq<SystemRequest>, r: SystemRequest)
    requires SystemInv(st) && r.Look? && StoredUuid(r.text)
    requires forall w | w in rs :: Heard(w)
    ensures var u := SystemRun(st, rs);
      Served(u, r).Some? ==>
        exists at :: u.now - 60 * 60 < at <= u.now
          && Served(u, r).value.view == LiveFor(u.db, r.schoolPkid, r.userPkid, r.text, r.filters, at)
  {
    hide SystemRun, SystemInv, LiveFor, Live, Guarded;
    RunKeepsInv(st, rs);
    var u := SystemRun(st, rs);
    if Served(u, r).Some? { ServedNow(u, r); }
  }

  lemma ServedNow(u: State, r: SystemRequest)
    requires SystemInv(u) && r.Look? && StoredUuid(r.text) && Served(u, r).Some?
    ensures exists at ::
      u.now - TTL_SECONDS < at <= u.now
      && Served(u, r).value.view == LiveFor(u.db, r.schoolPkid, r.userPkid, r.text, r.filters, at)
  {
    hide LiveFor, Live, Guarded, MakeKey, Inv;
    var view, key := Served(u, r).value.view, MakeKey(r.text, r.filters);
    if view != LiveFor(u.db, r.schoolPkid, r.userPkid, r.text, r.filters, u.now) {
      var c := u.store[key];
      var text, f :| EntryFor(u.db, key, c, text, f);
      KeysDiffer(text, f, r.text, r.filters);
      GuardedCallersAgree(u.db, r.schoolPkid, r.userPkid, r.text, r.filters, c.at);
      assert u.now - TTL_SECONDS < c.at <= u.now;
    }
  }

  // ── how stale an answer can get ──────────────────────────────────────────

  /** The entry was computed at some point of the run, on the tables of that point. */
  ghost predicate EntryOfPast(st: State, rs: seq<SystemRequest>, key: string, c: Cached) {
    exists k: nat, text, f :: ComputedAt(st, rs, k, key, c, text, f)
  }

  ghost predicate ComputedAt(st: State, rs: seq<SystemRequest>, k: nat, key: string, c: Cached, text: string,
          f: Filters)
  {
    && k <= |rs| && key == MakeKey(text, f) && UuidText(text)
    && var past := SystemRun(st, rs[..k]);
      && StudentByUuid(past.db.students, text).Some?
      && c == Cached(Live(past.db, StudentByUuid(past.db.students, text).value, f, past.now), past.now)
  }

  lemma PastLasts(st: State, rs: seq<SystemRequest>, r: SystemRequest, key: string, c: Cached)
    requires EntryOfPast(st, rs, key, c)
    ensures EntryOfPast(st, rs + [r], key, c)
  {
    hide SystemRun, Live, MakeKey;
    var k: nat, text, f :| ComputedAt(st, rs, k, key, c, text, f);
    assert (rs + [r])[..k] == rs[..k];
    assert ComputedAt(st, rs + [r], k, key, c, text, f);
  }

  lemma LookComputes(st: State, rs: seq<SystemRequest>, r: SystemRequest)
    requires r.Look? && Served(SystemRun(st, rs), r).Some?
    ensures var now := SystemRun(st, rs);
      EntryOfPast(st, rs, MakeKey(r.text, r.filters),
                  Cached(LiveFor(now.db, r.schoolPkid, r.userPkid, r.text, r.filters, now.now), now.now))
  {
    hide SystemRun, Live, LiveFor, MakeKey, UuidText;
    var now := SystemRun(st, rs);
    GuardedCallersAgree(now.db, r.schoolPkid, r.userPkid, r.text, r.filters, now.now);
    assert rs[..|rs|] == rs;
    assert ComputedAt(st, rs, |rs|, MakeKey(r.text, r.filters),
                      Cached(LiveFor(now.db, r.schoolPkid, r.userPkid, r.text, r.filters, now.now), now.now),
                      r.text, r.filters);
  }

  lemma StepStore(st: State, r: SystemRequest, key: string)
    requires key in SystemStep(st, r).store
    ensures (key in st.store && SystemStep(st, r).store[key] == st.store[key])
         || (r.Look? && Served(st, r).Some? && key == MakeKey(r.text, r.filters)
             && SystemStep(st, r).store[key]
               == Cached(LiveFor(st.db, r.schoolPkid, r.userPkid, r.text, r.filters, st.now), st.now))
  {
    hide Step, Notified, LiveFor, MakeKey, NewEvents;
    if r.Write? && Enrols(r.request) {
      var u := Step(st.db, r.request);
      NotifyShrinks(st.store, NewEvents(st.db, u), u.students, key);
    }
  }

  lemma {:induction false} StoreHoldsPast(st: State, rs: seq<SystemRequest>, key: string)
    requires st.store == map[] && key in SystemRun(st, rs).store
    ensures EntryOfPast(st, rs, key, SystemRun(st, rs).store[key])
  {
    hide SystemStep, EntryOfPast, Served, LiveFor, MakeKey;
    var front, r := rs[..|rs| - 1], rs[|rs| - 1];
    var before := SystemRun(st, front);
    assert rs == front + [r];
    StepStore(before, r, key);
    if key in before.store && SystemStep(before, r).store[key] == before.store[key] {
      StoreHoldsPast(st, front, key);
      PastLasts(st, front, r, key, before.store[key]);
    } else {
      LookComputes(st, front, r);
      PastLasts(st, front, r, key, SystemStep(before, r).store[key]);
    }
  }

  /** However the id is spelled and whichever invalidations get lost, a served
      dashboard was the live one at some point of the run less than an hour ago. */
  lemma StalenessIsBounded(st: State, rs: seq<SystemRequest>, r: SystemRequest)
    requires st.store == map[] && r.Look? && Served(SystemRun(st, rs), r).Some?
    ensures exists k: nat ::
      k <= |rs|
      && var past := SystemRun(st, rs[..k]);
        && past.now > SystemRun(st, rs).now - 60 * 60
        && StudentByUuid(past.db.students, r.text).Some?
        && Served(SystemRun(st, rs), r).value.view
          == Live(past.db, StudentByUuid(past.db.students, r.text).value, r.filters, past.now)
  {
    hide SystemRun, LiveFor, Live, MakeKey, UuidText, StudentByUuid;
    var u, key := SystemRun(st, rs), MakeKey(r.text, r.filters);
    var hit := if r.getOk then Lookup(u.store, key, u.now) else None;
    LookComputes(st, rs, r);
    var c := if hit.Some? then u.store[key] else Cached(Served(u, r).value.view, u.now);
    if hit.Some? { StoreHoldsPast(st, rs, key); }
    var k: nat, text, f :| ComputedAt(st, rs, k, key, c, text, f);
    KeysDiffer(text, f, r.text, r.filters);
  }

  // ── which spellings stay fresh ───────────────────────────────────────────

  /** Right after a report of a student is published or sent, a cached dashboard
      is computed anew exactly when its id is spelled as stored; under any other
      spelling of the same id the old entry goes on being served. */
  lemma OnlyStoredSpellingRefreshes(st: State, q: Request, schoolPkid: nat, userPkid: nat, text: string, f: Filters)
    requires SystemInv(st) && (q.PublishOne? || q.SendOne?)
    requires UuidText(text) && Guarded(st.db, schoolPkid, userPkid, text)
    requires Lookup(st.store, MakeKey(text, f), st.now).Some?
    requires exists e ::
      e in NewEvents(st.db, Step(st.db, q)) && e.studentPkid == StudentByUuid(st.db.students, text).value.pkid
    ensures var u := SystemStep(st, Write(q, true));
      var hit := Lookup(u.store, MakeKey(text, f), u.now);
      hit == if StoredUuid(text) then None else Lookup(st.store, MakeKey(text, f), st.now)
  {
    hide Inv, ParentOf, MakeKey, SystemStep, EntryFor, Invalidated, Lookup, Step, NewEvents, UuidText;
    var u := SystemStep(st, Write(q, true));
    var s := StudentByUuid(st.db.students, text).value;
    FoundByUuid(st.db.students, text);
    WorkflowStep(st, q);
    InvParts(st.db);
    IdOfStudent(st.db.students, s);
    var events := NewEvents(st.db, u.db);
    assert events == [events[0]] && events[..0] == [];
    InvalidatedLookup(st.store, s.id, text, f, u.now);
  }

  lemma InvalidatedLookup(store: map<string, Cached>, id: string, text: string, f: Filters, now: int)
    requires UuidText(id) && UuidText(text)
    ensures Lookup(Invalidated(store, id), MakeKey(text, f), now)
         == if text == id then None else Lookup(store, MakeKey(text, f), now)
  {
    hide MakeKey, MakeStudentPattern, MakeLegacyKey, Glob, UuidText;
    PatternIsExact(id, text, f);
  }

  lemma WorkflowStep(st: State, q: Request)
    requires q.PublishOne? || q.SendOne?
    requires NewEvents(st.db, Step(st.db, q)) != []
    ensures var u := SystemStep(st, Write(q, true));
      && u.now == st.now && u.db == Step(st.db, q) && u.db.students == st.db.students
      && |NewEvents(st.db, u.db)| == 1
      && u.store == Notified(st.store, NewEvents(st.db, u.db), st.db.students)
  {
    hide Notified;
  }

  function OneReport(status: Status, publishedAt: Option<int>): Snapshot {
    Snapshot(1, 1, 1, Period(Weekly, 0, 6), 0, Some(80.0), None, status, None, None, None, publishedAt, None, 1, None)
  }

  function OneStudent(report: Snapshot): Db {
    Db([Student(1, STORED_ID, 1, "Ada")], [Parent(1, 1, 1)], {Guardianship(1, 1)}, [],
       Aggregation.Curriculum(map[], [], (_) => 0.0), [report], [], [], [], 2)
  }

  /** A dashboard looked at, then the first report published, then nothing more. */
  function PublishedAfterLook(id: string, heard: bool): State {
    SystemRun(State(OneStudent(OneReport(Draft, None)), map[], 0),
              [Look(1, 1, id, Filters(None, 1), true, true), Write(PublishOne(1, 1, 9, 0), heard)])
  }

  /** The answer is the empty dashboard although the live one has a score. */
  ghost predicate ServesStale(st: State, id: string) {
    var look := Look(1, 1, id, Filters(None, 1), true, true);
    && Served(st, look).Some?
    && Served(st, look).value.view == EmptyView(0)
    && forall at | -TTL_SECONDS < at <= 0 :: LiveFor(st.db, 1, 1, id, Filters(None, 1), at).overallScore == Some(80.0)
  }

  /** A parent who spells the id in capitals goes on being shown an empty
      dashboard after the first report is published. */
  lemma CapitalsServeStale()
    ensures ServesStale(PublishedAfterLook(UPPER_ID, true), UPPER_ID)
  {
    MissedServesStale(UPPER_ID, true);
  }

  /** So does one who spells it as stored when the invalidation gets lost. */
  lemma LostInvalidationServesStale()
    ensures StoredUuid(STORED_ID) && ServesStale(PublishedAfterLook(STORED_ID, false), STORED_ID)
  {
    SpellingsOfOneId();
    MissedServesStale(STORED_ID, false);
  }

  lemma MissedServesStale(id: string, heard: bool)
    requires id == UPPER_ID || (id == STORED_ID && !heard)
    ensures ServesStale(PublishedAfterLook(id, heard), id)
  {
    hide SystemStep, Served, LiveFor, UPPER_ID, STORED_ID;
    var look := Look(1, 1, id, Filters(None, 1), true, true);
    var publish := Write(PublishOne(1, 1, 9, 0), heard);
    var st0 := State(OneStudent(OneReport(Draft, None)), map[], 0);
    assert [look, publish][..1] == [look] && [look][..0] == [];
    assert SystemRun(st0, [look]) == SystemStep(st0, look);
    assert SystemRun(st0, [look, publish]) == SystemStep(SystemStep(st0, look), publish);
    FirstLook(id);
    ThenPublish(id, heard);
    var st := SystemStep(SystemStep(st0, look), publish);
    forall at | -TTL_SECONDS < at <= 0
      ensures LiveFor(st.db, 1, 1, id, Filters(None, 1), at).overallScore == Some(80.0)
    {
      OneView(id, PublishedReport(), at);
    }
    LooksAgain(id);
  }

  function PublishedReport(): Snapshot { OneReport(Published, Some(0)).(updatedBy := Some(9)) }

  function StaleStore(id: string): map<string, Cached> { map[MakeKey(id, Filters(None, 1)) := Cached(EmptyView(0), 0)] }

  predicate Spelling(id: string) { id == UPPER_ID || id == STORED_ID }

  lemma SpellingIsUuid(id: string)
    requires Spelling(id)
    ensures UuidText(id) && SameUuid(id, STORED_ID)
  {
    SpellingsOfOneId();
    hide STORED_ID, UPPER_ID;
  }

  lemma ReportsGuarded(id: string, report: Snapshot)
    requires Spelling(id)
    ensures UuidText(id) && Guarded(OneStudent(report), 1, 1, id)
  {
    SpellingIsUuid(id);
    hide STORED_ID, UPPER_ID, UuidText, SameUuid, Spelling;
  }

  lemma FirstLook(id: string)
    requires Spelling(id)
    ensures SystemStep(State(OneStudent(OneReport(Draft, None)), map[], 0),
      Look(1, 1, id, Filters(None, 1), true, true))
         == State(OneStudent(OneReport(Draft, None)), StaleStore(id), 0)
  {
    hide LiveFor, MakeKey, Spelling, Guarded, UuidText, OneStudent;
    ReportsGuarded(id, OneReport(Draft, None));
    OneView(id, OneReport(Draft, None), 0);
  }

  lemma ThenPublish(id: string, heard: bool)
    requires id == UPPER_ID || (id == STORED_ID && !heard)
    ensures SystemStep(State(OneStudent(OneReport(Draft, None)), StaleStore(id), 0),
      Write(PublishOne(1, 1, 9, 0), heard))
         == State(OneStudent(PublishedReport()).(events := [PublishedEvent(1, 1)]), StaleStore(id), 0)
  {
    hide MakeKey, UPPER_ID, STORED_ID, UuidText, Glob, MakeStudentPattern, MakeLegacyKey;
    SpellingsOfOneId();
    PatternIsExact(STORED_ID, UPPER_ID, Filters(None, 1));
    var before := OneStudent(OneReport(Draft, None));
    var u := Step(before, PublishOne(1, 1, 9, 0));
    assert u == OneStudent(PublishedReport()).(events := [PublishedEvent(1, 1)]) by {
      assert [OneReport(Draft, None)][0 := PublishedReport()] == [PublishedReport()];
    }
    assert NewEvents(before, u) == [PublishedEvent(1, 1)];
    assert [PublishedEvent(1, 1)][..0] == [];
    assert StudentIdOf(u.students, 1) == Some(STORED_ID);
    assert Notified(StaleStore(id), [PublishedEvent(1, 1)], u.students) == Invalidated(StaleStore(id), STORED_ID);
    assert heard ==> Invalidated(StaleStore(id), STORED_ID) == StaleStore(id);
  }

  lemma LooksAgain(id: string)
    requires Spelling(id)
    ensures var st := State(OneStudent(PublishedReport()).(events := [PublishedEvent(1, 1)]), StaleStore(id), 0);
      Served(st, Look(1, 1, id, Filters(None, 1), true, true)) == Some(Answer(StaleStore(id), EmptyView(0)))
  {
    hide LiveFor, MakeKey, UPPER_ID, STORED_ID, Spelling, UuidText;
    ReportsGuarded(id, PublishedReport());
  }

  lemma OneView(id: string, report: Snapshot, at: int)
    requires Spelling(id)
    requires report.id == 1 && report.schoolPkid == 1 && report.studentPkid == 1
      && report.period == Period(Weekly, 0, 6)
    requires at > -TTL_SECONDS && at < 86400
    ensures forall events: seq<Event> ::
      LiveFor(OneStudent(report).(events := events), 1, 1, id, Filters(None, 1), at)
      == LiveFor(OneStudent(report), 1, 1, id, Filters(None, 1), at)
    ensures var view := LiveFor(OneStudent(report), 1, 1, id, Filters(None, 1), at);
      if ParentVisible(report.status) then view.overallScore == report.overallScore else view == EmptyView(at)
  {
    hide ViewOf, Guarded;
    SpellingIsUuid(id);
    var db, f := OneStudent(report), Filters(None, 1);
    hide STORED_ID, UPPER_ID, SameUuid, UuidText, Spelling;
    assert StudentByUuid(db.students, id) == Some(Student(1, STORED_ID, 1, "Ada"));
    assert ParentOf(db.parents, 1, 1) == Some(Parent(1, 1, 1));
    var found := Filter(db.snapshots, VisibleTo(db, 1, 1, 1, f, at));
    assert found == if ParentVisible(report.status) then [report] else [] by {
      FilterOne(report, VisibleTo(db, 1, 1, 1, f, at));
    }
    assert SortBy(found, EarlierPeriod) == found;
    LatestScore(db.items, report, at);
  }

  lemma FilterOne<T>(x: T, p: T -> bool)
    ensures Filter([x], p) == if p(x) then [x] else []
  {
  }

  lemma LatestScore(items: seq<Item>, report: Snapshot, at: int)
    ensures ViewOf(items, [report], at).overallScore == report.overallScore && ViewOf(items, [], at) == EmptyView(at)
  {
    hide AreaCards, AreaScores, ActivityCards;
  }
}
