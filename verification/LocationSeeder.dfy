/** The rebuilding half of the location seeder: maps by code, sorted codes,
    chunked saves and positional matching of saved rows. */
module LocationSeeder {
  import opened Collections
  import opened DecimalText
  import opened Locations
  import TextReaders

  // ── maps by code ─────────────────────────────────────────────────────────

  function CodeText(c: Code): string {
    match c
    case Num(n) => Trim(NatToString(n))
    case Text(s) => Trim(s)
  }

  datatype Level = Provinces | Districts | Sectors | Cells | Villages

  function Above(v: Level): Level {
    match v
    case Villages => Cells
    case Cells => Sectors
    case Sectors => Districts
    case _ => Provinces
  }

  function CodeAt(v: Level): Row -> string {
    match v
    case Provinces => (r: Row) => CodeText(r.provinceCode)
    case Districts => (r: Row) => CodeText(r.districtCode)
    case Sectors => (r: Row) => CodeText(r.sectorCode)
    case Cells => (r: Row) => CodeText(r.cellCode)
    case Villages => (r: Row) => CodeText(r.villageCode)
  }

  function NameAt(v: Level, r: Row): string {
    match v
    case Provinces => r.provinceName
    case Districts => r.districtName
    case Sectors => r.sectorName
    case Cells => r.cellName
    case Villages => r.villageName
  }

  /** What a map holds under a code; provinces keep their own code as parent. */
  datatype Entry = Entry(name: string, parentCode: string)

  function EntryAt(v: Level, r: Row): Entry { Entry(Trim(NameAt(v, r)), CodeAt(Above(v))(r)) }

  /** The last row with a code: later rows overwrite earlier ones. */
  function LastWith(rows: seq<Row>, key: Row -> string, k: string): Option<Row> {
    if rows == [] then None
    else if key(rows[|rows| - 1]) == k then Some(rows[|rows| - 1])
    else LastWith(rows[..|rows| - 1], key, k)
  }

  lemma {:induction false} LastWithKey(rows: seq<Row>, key: Row -> string, k: string)
    ensures LastWith(rows, key, k).Some? <==> k in KeysOf(rows, key)
    ensures LastWith(rows, key, k).Some? ==>
      LastWith(rows, key, k).value in rows && key(LastWith(rows, key, k).value) == k
  {
    if rows != [] {
      var front, last := rows[..|rows| - 1], rows[|rows| - 1];
      assert rows == front + [last];
      LastWithKey(front, key, k);
    }
  }

  /** One insertion-ordered map of the loop. */
  ghost predicate Filled(rows: seq<Row>, v: Level, order: seq<string>, entries: map<string, Entry>) {
    && order == KeysOf(rows, CodeAt(v))
    && (forall k :: k in entries <==> k in order)
    && forall k | k in entries ::
         LastWith(rows, CodeAt(v), k).Some? && entries[k] == EntryAt(v, LastWith(rows, CodeAt(v), k).value)
  }

  datatype Index = Index(order: seq<string>, entries: map<string, Entry>)

  function Put(x: Index, k: string, e: Entry): Index {
    Index(if k in x.entries then x.order else x.order + [k], x.entries[k := e])
  }

  lemma FillOne(rows: seq<Row>, r: Row, v: Level, x: Index)
    requires Filled(rows, v, x.order, x.entries)
    ensures var y := Put(x, CodeAt(v)(r), EntryAt(v, r)); Filled(rows + [r], v, y.order, y.entries)
  {
    hide CodeAt, EntryAt, KeysOf, LastWith;
    var y := Put(x, CodeAt(v)(r), EntryAt(v, r));
    OneMore(rows, r, CodeAt(v));
    forall k | k in y.entries
      ensures LastWith(rows + [r], CodeAt(v), k).Some?
      ensures y.entries[k] == EntryAt(v, LastWith(rows + [r], CodeAt(v), k).value)
    {
      LastOneMore(rows, r, CodeAt(v), k);
    }
  }

  lemma OneMore(rows: seq<Row>, r: Row, key: Row -> string)
    ensures KeysOf(rows + [r], key) == KeysOf(rows, key) + if key(r) in KeysOf(rows, key) then [] else [key(r)]
  {
    var u := rows + [r];
    assert u[..|u| - 1] == rows && u[|u| - 1] == r;
  }

  lemma LastOneMore(rows: seq<Row>, r: Row, key: Row -> string, k: string)
    ensures LastWith(rows + [r], key, k) == if key(r) == k then Some(r) else LastWith(rows, key, k)
  {
    var u := rows + [r];
    assert u[..|u| - 1] == rows && u[|u| - 1] == r;
  }

  method BuildMaps(rows: seq<Row>) returns (p: Index, d: Index, s: Index, c: Index, w: Index)
    ensures Filled(rows, Provinces, p.order, p.entries) && Filled(rows, Districts, d.order, d.entries)
    ensures Filled(rows, Sectors, s.order, s.entries) && Filled(rows, Cells, c.order, c.entries)
    ensures Filled(rows, Villages, w.order, w.entries)
  {
    var none := Index([], map[]);
    p, d, s, c, w := none, none, none, none, none;
    FilledNone();
    hide Filled, CodeText, Trim;
    for i := 0 to |rows|
      invariant Filled(rows[..i], Provinces, p.order, p.entries) && Filled(rows[..i], Districts, d.order, d.entries)
      invariant Filled(rows[..i], Sectors, s.order, s.entries) && Filled(rows[..i], Cells, c.order, c.entries)
      invariant Filled(rows[..i], Villages, w.order, w.entries)
    {
      var row := rows[i];
      assert rows[..i + 1] == rows[..i] + [row];
      var provinceCode, districtCode, sectorCode := CodeText(row.provinceCode), CodeText(row.districtCode),
        CodeText(row.sectorCode);
      var cellCode, villageCode := CodeText(row.cellCode), CodeText(row.villageCode);
      FillOne(rows[..i], row, Provinces, p);
      FillOne(rows[..i], row, Districts, d);
      FillOne(rows[..i], row, Sectors, s);
      FillOne(rows[..i], row, Cells, c);
      FillOne(rows[..i], row, Villages, w);
      p := Put(p, provinceCode, Entry(Trim(row.provinceName), provinceCode));
      d := Put(d, districtCode, Entry(Trim(row.districtName), provinceCode));
      s := Put(s, sectorCode, Entry(Trim(row.sectorName), districtCode));
      c := Put(c, cellCode, Entry(Trim(row.cellName), sectorCode));
      w := Put(w, villageCode, Entry(Trim(row.villageName), cellCode));
    }
    assert rows[..|rows|] == rows;
  }

  lemma FilledNone()
    ensures forall v :: Filled([], v, [], map[])
  {
  }

  // ── saving ───────────────────────────────────────────────────────────────

  /** A row of a location table; its position is its pkid. */
  datatype Place = Place(name: string, parent: Option<nat>)

  function Consecutive(from: nat, n: nat): (ids: seq<nat>)
    ensures |ids| == n
    ensures forall i | 0 <= i < n :: ids[i] == from + i
  {
    seq(n, i => from + i)
  }

  /** The width of the name columns. */
  const MAX_NAME := 100

  predicate Fits(batch: seq<Place>) { forall p | p in batch :: |p.name| <= MAX_NAME }

  predicate NamesUnique(rows: seq<Place>) { forall i, j | 0 <= i < j < |rows| :: rows[i].name != rows[j].name }

  datatype SeedResult = Seeded | AlreadyPresent | DuplicateName | NameTooLong

  /** Why a table refuses a batch; a name too long is noticed before any row is written. */
  function Refusal(rows: seq<Place>, batch: seq<Place>, unique: bool): Option<SeedResult> {
    if !Fits(batch) then Some(NameTooLong)
    else if unique && !NamesUnique(rows + batch) then Some(DuplicateName)
    else None
  }

  datatype Saving = Saving(rows: seq<Place>, refusal: Option<SeedResult>)

  /** One save is one transaction: a refused batch leaves nothing behind. */
  function SaveOutcome(rows: seq<Place>, batch: seq<Place>, unique: bool): Saving {
    var refusal := Refusal(rows, batch, unique);
    Saving(if refusal.None? then rows + batch else rows, refusal)
  }

  function Until(n: nat, batch: seq<Place>): (i: nat)
    ensures i <= |batch|
  {
    if n < |batch| then n else |batch|
  }

  /** Slice after slice, up to the first one that is refused. */
  function ChunkOutcome(rows: seq<Place>, batch: seq<Place>, chunkSize: nat, unique: bool): Saving
    requires chunkSize > 0
    decreases |batch|
  {
    if batch == [] then Saving(rows, None)
    else
      var end := Until(chunkSize, batch);
      var first := SaveOutcome(rows, batch[..end], unique);
      if first.refusal.Some? then first else ChunkOutcome(first.rows, batch[end..], chunkSize, unique)
  }

  function FirstLong(batch: seq<Place>): (i: nat)
    ensures i <= |batch| && Fits(batch[..i])
    ensures i < |batch| ==> |batch[i].name| > MAX_NAME
  {
    if batch == [] || |batch[0].name| > MAX_NAME then 0
    else
      var i := 1 + FirstLong(batch[1..]);
      assert batch[..i] == [batch[0]] + batch[1..][..i - 1];
      i
  }

  /** The rows of the whole slices before position f. */
  function WholeSlices(f: nat, chunkSize: nat): (i: nat)
    requires chunkSize > 0
    ensures i <= f < i + chunkSize
  {
    if f < chunkSize then 0 else chunkSize + WholeSlices(f - chunkSize, chunkSize)
  }

  /** In a table without unique names the slices before the one with the first
      name too long are stored, once and in order, and nothing after them. */
  lemma {:induction false} ChunksStored(rows: seq<Place>, batch: seq<Place>, chunkSize: nat)
    requires chunkSize > 0
    ensures var f := FirstLong(batch);
      ChunkOutcome(rows, batch, chunkSize, false)
      == if f == |batch| then Saving(rows + batch, None)
         else Saving(rows + batch[..WholeSlices(f, chunkSize)], Some(NameTooLong))
    decreases |batch|
  {
    hide FirstLong;
    if batch == [] {
      assert rows + batch == rows;
    } else {
      var f, end := FirstLong(batch), Until(chunkSize, batch);
      var head, rest := batch[..end], batch[end..];
      assert batch == head + rest;
      if f < end {
        assert batch[f] in head && !Fits(head);
        assert rows + batch[..0] == rows;
      } else {
        FrontFits(batch, end);
        LongOfRest(head, rest);
        ChunksStored(rows + head, rest, chunkSize);
        NextSlice(rows, head, rest, f, chunkSize);
      }
    }
  }

  lemma NextSlice(rows: seq<Place>, head: seq<Place>, rest: seq<Place>, f: nat, chunkSize: nat)
    requires chunkSize > 0 && |head| <= f <= |head + rest| && (f < |head + rest| ==> |head| == chunkSize)
    ensures rows + head + rest == rows + (head + rest)
    ensures f < |head + rest| ==>
      rows + head + rest[..WholeSlices(f - |head|, chunkSize)] == rows + (head + rest)[..WholeSlices(f, chunkSize)]
  {
    if f < |head + rest| {
      var n := WholeSlices(f - |head|, chunkSize);
      assert (head + rest)[..chunkSize + n] == head + rest[..n];
    }
  }

  lemma FrontFits(batch: seq<Place>, n: nat)
    requires n <= FirstLong(batch)
    ensures Fits(batch[..n])
  {
    assert forall p | p in batch[..n] :: p in batch[..FirstLong(batch)];
  }

  lemma ChunksAll(rows: seq<Place>, batch: seq<Place>, chunkSize: nat)
    requires chunkSize > 0
    ensures var out := ChunkOutcome(rows, batch, chunkSize, false);
      if Fits(batch) then out == Saving(rows + batch, None) else out.refusal == Some(NameTooLong)
  {
    hide ChunkOutcome, FirstLong;
    ChunksStored(rows, batch, chunkSize);
    assert batch[..|batch|] == batch;
    assert FirstLong(batch) < |batch| ==> batch[FirstLong(batch)] in batch;
  }

  lemma {:induction false} LongOfRest(head: seq<Place>, rest: seq<Place>)
    requires Fits(head)
    ensures FirstLong(head + rest) == |head| + FirstLong(rest)
  {
    if head == [] {
      assert head + rest == rest;
    } else {
      LongOfRest(head[1..], rest);
      assert (head + rest)[1..] == head[1..] + rest;
    }
  }

  class Repository {
    const uniqueNames: bool
    var rows: seq<Place>

    constructor (rows: seq<Place>, uniqueNames: bool)
      ensures this.rows == rows && this.uniqueNames == uniqueNames
    {
      this.rows, this.uniqueNames := rows, uniqueNames;
    }

    method Save(batch: seq<Place>) returns (saved: seq<nat>, refusal: Option<SeedResult>)
      modifies this
      ensures Saving(rows, refusal) == SaveOutcome(old(rows), batch, uniqueNames)
      ensures saved == Consecutive(|old(rows)|, |rows| - |old(rows)|)
    {
      refusal := Refusal(rows, batch, uniqueNames);
      if refusal.Some? { return [], refusal; }
      saved := Consecutive(|rows|, |batch|);
      rows := rows + batch;
    }

    /** Saves slice after slice; the result lists the saved rows in order. */
    method ChunkSave(batch: seq<Place>, chunkSize: nat) returns (saved: seq<nat>, refusal: Option<SeedResult>)
      requires chunkSize > 0
      modifies this
      ensures Saving(rows, refusal) == ChunkOutcome(old(rows), batch, chunkSize, uniqueNames)
      ensures |old(rows)| <= |rows| && saved == Consecutive(|old(rows)|, |rows| - |old(rows)|)
    {
      hide Refusal;
      saved := [];
      var i := 0;
      while i < |batch|
        invariant |old(rows)| <= |rows| && saved == Consecutive(|old(rows)|, |rows| - |old(rows)|)
        invariant ChunkOutcome(rows, batch[Until(i, batch)..], chunkSize, uniqueNames)
               == ChunkOutcome(old(rows), batch, chunkSize, uniqueNames)
      {
        var end := Until(i + chunkSize, batch);
        assert batch[i..][..Until(chunkSize, batch[i..])] == batch[i..end];
        assert batch[i..][Until(chunkSize, batch[i..])..] == batch[end..];
        var inserted, refused := Save(batch[i..end]);
        if refused.Some? { return saved, refused; }
        saved := saved + inserted;
        i := i + chunkSize;
      }
      refusal := None;
    }
  }

  // ── the five tables ──────────────────────────────────────────────────────

  /** The default order of strings: by code units. */
  predicate CodeUnitLeq(a: string, b: string) {
    TextReaders.UnitsLeq(TextReaders.CodeUnits(a), TextReaders.CodeUnits(b))
  }

  /** The sorted codes of a level. */
  function Codes(rows: seq<Row>, v: Level): seq<string> { SortBy(KeysOf(rows, CodeAt(v)), CodeUnitLeq) }

  /** The pkid of the row saved for a code, by the position of the code. */
  function PkidOf(codes: seq<string>, base: nat, code: string): Option<nat> {
    if codes == [] then None
    else if codes[|codes| - 1] == code then Some(base + |codes| - 1)
    else PkidOf(codes[..|codes| - 1], base, code)
  }

  function PlacesFor(rows: seq<Row>, v: Level, codes: seq<string>, parents: seq<string>, base: nat): (r: seq<Place>)
    requires forall k | k in codes :: LastWith(rows, CodeAt(v), k).Some?
    ensures |r| == |codes|
    ensures forall i | 0 <= i < |codes| ::
      var e := EntryAt(v, LastWith(rows, CodeAt(v), codes[i]).value);
      r[i] == Place(e.name, if v == Provinces then None else PkidOf(parents, base, e.parentCode))
  {
    seq(|codes|, i requires 0 <= i < |codes| =>
      var e := EntryAt(v, LastWith(rows, CodeAt(v), codes[i]).value);
      Place(e.name, if v == Provinces then None else PkidOf(parents, base, e.parentCode)))
  }

  lemma CodesHaveRows(rows: seq<Row>, v: Level)
    ensures forall k | k in Codes(rows, v) :: LastWith(rows, CodeAt(v), k).Some?
    ensures forall k :: k in Codes(rows, v) <==> k in KeysOf(rows, CodeAt(v))
  {
    hide KeysOf, LastWith;
    SortPermutes(KeysOf(rows, CodeAt(v)), CodeUnitLeq);
    forall k | k in Codes(rows, v) ensures LastWith(rows, CodeAt(v), k).Some? { LastWithKey(rows, CodeAt(v), k); }
  }

  function LevelPlaces(rows: seq<Row>, v: Level, base: nat): (r: seq<Place>)
    ensures |r| == |Codes(rows, v)|
  {
    CodesHaveRows(rows, v);
    PlacesFor(rows, v, Codes(rows, v), Codes(rows, Above(v)), base)
  }

  datatype Tables = Tables(provinces: seq<Place>, districts: seq<Place>, sectors: seq<Place>, cells: seq<Place>,
    villages: seq<Place>)

  datatype SeedOutcome = SeedOutcome(tables: Tables, result: SeedResult)

  /** seed: nothing happens when there are villages; the tables are saved from the
      top, and the first refusal ends the seeding with the tables as they are. */
  function Seed(t: Tables, rows: seq<Row>): SeedOutcome {
    if t.villages != [] then SeedOutcome(t, AlreadyPresent)
    else
      var p := SaveOutcome(t.provinces, LevelPlaces(rows, Provinces, 0), true);
      if p.refusal.Some? then SeedOutcome(t, p.refusal.value)
      else
        var d := SaveOutcome(t.districts, LevelPlaces(rows, Districts, |t.provinces|), true);
        if d.refusal.Some? then SeedOutcome(t.(provinces := p.rows), d.refusal.value)
        else SeedLower(t.(provinces := p.rows, districts := d.rows), rows, |t.districts|)
  }

  /** The tables that are saved in slices. */
  function SeedLower(t: Tables, rows: seq<Row>, districtBase: nat): SeedOutcome {
    var s := ChunkOutcome(t.sectors, LevelPlaces(rows, Sectors, districtBase), 500, false);
    if s.refusal.Some? then SeedOutcome(t.(sectors := s.rows), s.refusal.value)
    else
      var c := ChunkOutcome(t.cells, LevelPlaces(rows, Cells, |t.sectors|), 800, false);
      if c.refusal.Some? then SeedOutcome(t.(sectors := s.rows, cells := c.rows), c.refusal.value)
      else
        var w := ChunkOutcome(t.villages, LevelPlaces(rows, Villages, |t.cells|), 1500, false);
        SeedOutcome(t.(sectors := s.rows, cells := c.rows, villages := w.rows),
                    if w.refusal.Some? then w.refusal.value else Seeded)
  }

  /** A seeding of tables without villages goes through exactly when no table
      refuses its rows; then all rows are there. */
  lemma SeededTables(t: Tables, rows: seq<Row>)
    requires t.villages == []
    ensures var u := Seed(t, rows);
      && (u.result == Seeded <==> NoRefusal(t, rows))
      && (u.result == Seeded ==>
            u.tables == Tables(t.provinces + LevelPlaces(rows, Provinces, 0),
                               t.districts + LevelPlaces(rows, Districts, |t.provinces|),
                               t.sectors + LevelPlaces(rows, Sectors, |t.districts|),
                               t.cells + LevelPlaces(rows, Cells, |t.sectors|),
                               LevelPlaces(rows, Villages, |t.cells|)))
  {
    hide LevelPlaces, ChunkOutcome, Fits, NamesUnique;
    ChunksAll(t.sectors, LevelPlaces(rows, Sectors, |t.districts|), 500);
    ChunksAll(t.cells, LevelPlaces(rows, Cells, |t.sectors|), 800);
    ChunksAll(t.villages, LevelPlaces(rows, Villages, |t.cells|), 1500);
    assert t.villages + LevelPlaces(rows, Villages, |t.cells|) == LevelPlaces(rows, Villages, |t.cells|);
  }

  predicate NoRefusal(t: Tables, rows: seq<Row>) {
    && Refusal(t.provinces, LevelPlaces(rows, Provinces, 0), true).None?
    && Refusal(t.districts, LevelPlaces(rows, Districts, |t.provinces|), true).None?
    && Fits(LevelPlaces(rows, Sectors, |t.districts|))
    && Fits(LevelPlaces(rows, Cells, |t.sectors|))
    && Fits(LevelPlaces(rows, Villages, |t.cells|))
  }

  function UpToLong(places: seq<Place>, chunkSize: nat): seq<Place>
    requires chunkSize > 0
  {
    places[..WholeSlices(FirstLong(places), chunkSize)]
  }

  /** Where a seeding stops, and what it leaves: a table with unique names takes all
      of its rows or none, the others keep the whole slices before the first name
      that is too long; the tables above are complete, those below as they were. */
  lemma StopsHalfWay(t: Tables, rows: seq<Row>)
    requires t.villages == []
    ensures var out, p, d := Seed(t, rows), LevelPlaces(rows, Provinces, 0),
        LevelPlaces(rows, Districts, |t.provinces|);
      var s, c, w := LevelPlaces(rows, Sectors, |t.districts|), LevelPlaces(rows, Cells, |t.sectors|),
        LevelPlaces(rows, Villages, |t.cells|);
      var u := t.(provinces := t.provinces + p, districts := t.districts + d);
      if !Fits(p) then out == SeedOutcome(t, NameTooLong)
      else if !NamesUnique(t.provinces + p) then out == SeedOutcome(t, DuplicateName)
      else if !Fits(d) then out == SeedOutcome(t.(provinces := t.provinces + p), NameTooLong)
      else if !NamesUnique(t.districts + d) then out == SeedOutcome(t.(provinces := t.provinces + p), DuplicateName)
      else if !Fits(s) then out == SeedOutcome(u.(sectors := t.sectors + UpToLong(s, 500)), NameTooLong)
      else if !Fits(c) then
        out == SeedOutcome(u.(sectors := t.sectors + s, cells := t.cells + UpToLong(c, 800)), NameTooLong)
      else if !Fits(w) then
        out == SeedOutcome(u.(sectors := t.sectors + s, cells := t.cells + c, villages := UpToLong(w, 1500)),
          NameTooLong)
      else out.result == Seeded
  {
    hide LevelPlaces, ChunkOutcome, Fits, NamesUnique, FirstLong, WholeSlices;
    StopsInSlices(t.sectors, LevelPlaces(rows, Sectors, |t.districts|), 500);
    StopsInSlices(t.cells, LevelPlaces(rows, Cells, |t.sectors|), 800);
    StopsInSlices(t.villages, LevelPlaces(rows, Villages, |t.cells|), 1500);
    var w := UpToLong(LevelPlaces(rows, Villages, |t.cells|), 1500);
    assert t.villages + w == w;
  }

  lemma StopsInSlices(rows: seq<Place>, batch: seq<Place>, chunkSize: nat)
    requires chunkSize > 0
    ensures ChunkOutcome(rows, batch, chunkSize, false)
         == if Fits(batch) then Saving(rows + batch, None)
            else Saving(rows + UpToLong(batch, chunkSize), Some(NameTooLong))
  {
    hide ChunkOutcome, FirstLong, WholeSlices;
    ChunksStored(rows, batch, chunkSize);
    assert batch[..|batch|] == batch;
    assert FirstLong(batch) < |batch| ==> batch[FirstLong(batch)] in batch;
  }

  /** Code to pkid of the rows just saved. */
  function SavedMap(codes: seq<string>, saved: seq<nat>): (m: map<string, nat>)
    requires |saved| == |codes|
    ensures forall k :: k in m <==> k in codes
  {
    if codes == [] then map[]
    else
      assert codes == codes[..|codes| - 1] + [codes[|codes| - 1]];
      SavedMap(codes[..|codes| - 1], saved[..|codes| - 1])[codes[|codes| - 1] := saved[|codes| - 1]]
  }

  function Find(m: map<string, nat>, k: string): Option<nat> { if k in m then Some(m[k]) else None }

  lemma {:induction false} SavedMapFinds(codes: seq<string>, base: nat, k: string)
    ensures Find(SavedMap(codes, Consecutive(base, |codes|)), k) == PkidOf(codes, base, k)
  {
    if codes != [] {
      var n := |codes| - 1;
      SavedMapFinds(codes[..n], base, k);
      assert Consecutive(base, |codes|)[..n] == Consecutive(base, n);
    }
  }

  method MakePlaces(ghost rows: seq<Row>, ghost v: Level, codes: seq<string>, entries: map<string, Entry>,
          parents: map<string, nat>, top: bool, ghost parentCodes: seq<string>, ghost base: nat)
    returns (places: seq<Place>)
    requires Filled(rows, v, KeysOf(rows, CodeAt(v)), entries) && codes == Codes(rows, v) && top == (v == Provinces)
    requires !top ==>
      parentCodes == Codes(rows, Above(v)) && parents == SavedMap(parentCodes, Consecutive(base, |parentCodes|))
    ensures places == LevelPlaces(rows, v, base)
  {
    hide KeysOf, LastWith, EntryAt, SavedMap, PkidOf;
    CodesHaveRows(rows, v);
    places := [];
    for i := 0 to |codes|
      invariant |places| == i && places == LevelPlaces(rows, v, base)[..i]
    {
      assert codes[i] in codes;
      var e := entries[codes[i]];
      SavedMapFinds(parentCodes, base, e.parentCode);
      places := places + [Place(e.name, if top then None else Find(parents, e.parentCode))];
    }
  }

  method SeedLocations(provinceRepo: Repository, districtRepo: Repository, sectorRepo: Repository, cellRepo: Repository,
          villageRepo: Repository, rows: seq<Row>)
    returns (result: SeedResult)
    requires provinceRepo != districtRepo && provinceRepo != sectorRepo && provinceRepo != cellRepo
      && provinceRepo != villageRepo
    requires districtRepo != sectorRepo && districtRepo != cellRepo && districtRepo != villageRepo
    requires sectorRepo != cellRepo && sectorRepo != villageRepo && cellRepo != villageRepo
    requires provinceRepo.uniqueNames && districtRepo.uniqueNames
    requires !sectorRepo.uniqueNames && !cellRepo.uniqueNames && !villageRepo.uniqueNames
    modifies provinceRepo, districtRepo, sectorRepo, cellRepo, villageRepo
    ensures
      var before := old(Tables(provinceRepo.rows, districtRepo.rows, sectorRepo.rows, cellRepo.rows, villageRepo.rows));
      var after := Tables(provinceRepo.rows, districtRepo.rows, sectorRepo.rows, cellRepo.rows, villageRepo.rows);
      SeedOutcome(after, result) == Seed(before, rows)
  {
    hide Filled, LevelPlaces, SavedMap, KeysOf, SortBy, CodeAt, ChunkOutcome, Refusal, FirstLong;
    if villageRepo.rows != [] { return AlreadyPresent; }
    var p, d, s, c, w := BuildMaps(rows);
    FilledOrder(rows, Provinces, p);
    FilledOrder(rows, Districts, d);
    FilledOrder(rows, Sectors, s);
    FilledOrder(rows, Cells, c);
    FilledOrder(rows, Villages, w);
    var codes := SortBy(p.order, CodeUnitLeq);
    var places := MakePlaces(rows, Provinces, codes, p.entries, map[], true, [], 0);
    var saved, refusal := provinceRepo.Save(places);
    if refusal.Some? { return refusal.value; }
    ghost var above := codes;
    var byCode := SavedMap(codes, saved);

    codes := SortBy(d.order, CodeUnitLeq);
    places := MakePlaces(rows, Districts, codes, d.entries, byCode, false, above, |old(provinceRepo.rows)|);
    saved, refusal := districtRepo.Save(places);
    if refusal.Some? { return refusal.value; }
    byCode, above := SavedMap(codes, saved), codes;

    codes := SortBy(s.order, CodeUnitLeq);
    places := MakePlaces(rows, Sectors, codes, s.entries, byCode, false, above, |old(districtRepo.rows)|);
    ChunksAll(sectorRepo.rows, places, 500);
    saved, refusal := sectorRepo.ChunkSave(places, 500);
    if refusal.Some? { return refusal.value; }
    byCode, above := SavedMap(codes, saved), codes;

    codes := SortBy(c.order, CodeUnitLeq);
    places := MakePlaces(rows, Cells, codes, c.entries, byCode, false, above, |old(sectorRepo.rows)|);
    ChunksAll(cellRepo.rows, places, 800);
    saved, refusal := cellRepo.ChunkSave(places, 800);
    if refusal.Some? { return refusal.value; }
    byCode, above := SavedMap(codes, saved), codes;

    codes := SortBy(w.order, CodeUnitLeq);
    places := MakePlaces(rows, Villages, codes, w.entries, byCode, false, above, |old(cellRepo.rows)|);
    saved, refusal := villageRepo.ChunkSave(places, 1500);
    result := if refusal.Some? then refusal.value else Seeded;
  }

  lemma FilledOrder(rows: seq<Row>, v: Level, x: Index)
    requires Filled(rows, v, x.order, x.entries)
    ensures x.order == KeysOf(rows, CodeAt(v)) && SortBy(x.order, CodeUnitLeq) == Codes(rows, v)
  {
  }

  // ── the tree survives ────────────────────────────────────────────────────

  /** The names on the way up from a saved village; None if a link is missing. */
  function ChainOf(t: Tables, village: Place): Option<Path> {
    if village.parent.None? || village.parent.value >= |t.cells| then None
    else
      var cell := t.cells[village.parent.value];
      if cell.parent.None? || cell.parent.value >= |t.sectors| then None
      else
        var sector := t.sectors[cell.parent.value];
        if sector.parent.None? || sector.parent.value >= |t.districts| then None
        else
          var district := t.districts[sector.parent.value];
          if district.parent.None? || district.parent.value >= |t.provinces| then None
          else Some(Path(t.provinces[district.parent.value].name, district.name, sector.name, cell.name, village.name))
  }

  /** Equal codes mean the same node: the same trimmed name and the same parent code. */
  ghost predicate Consistent(rows: seq<Row>) {
    forall r, q, v: Level | r in rows && q in rows && CodeAt(v)(r) == CodeAt(v)(q) :: EntryAt(v, r) == EntryAt(v, q)
  }

  lemma {:induction false} PkidIsPosition(codes: seq<string>, base: nat, code: string)
    requires code in codes
    ensures PkidOf(codes, base, code).Some? && base <= PkidOf(codes, base, code).value < base + |codes|
    ensures codes[PkidOf(codes, base, code).value - base] == code
  {
    var front := codes[..|codes| - 1];
    assert codes == front + [codes[|codes| - 1]];
    if codes[|codes| - 1] != code { PkidIsPosition(front, base, code); }
  }

  /** No later row has the same code. */
  predicate Lasts(rows: seq<Row>, v: Level, r: Row) { LastWith(rows, CodeAt(v), CodeAt(v)(r)) == Some(r) }

  /** The last row that has a row's code. */
  function LastRow(rows: seq<Row>, v: Level, r: Row): Row {
    var last := LastWith(rows, CodeAt(v), CodeAt(v)(r));
    if last.Some? then last.value else r
  }

  lemma LastRowLasts(rows: seq<Row>, v: Level, r: Row)
    requires r in rows
    ensures var l := LastRow(rows, v, r);
      l in rows && CodeAt(v)(l) == CodeAt(v)(r) && Lasts(rows, v, l)
  {
    hide CodeAt, LastWith, KeysOf;
    KeysCover(rows, CodeAt(v), r);
    LastWithKey(rows, CodeAt(v), CodeAt(v)(r));
  }

  /** The names on the way up from a village row, each taken from the last row
      with the code above. */
  function PathThrough(rows: seq<Row>, r: Row): Path {
    var c := LastRow(rows, Cells, r);
    var s := LastRow(rows, Sectors, c);
    var d := LastRow(rows, Districts, s);
    var p := LastRow(rows, Provinces, d);
    Path(Trim(p.provinceName), Trim(d.districtName), Trim(s.sectorName), Trim(c.cellName), Trim(r.villageName))
  }

  /** In consistent rows that is the path the row itself spells. */
  lemma ConsistentPath(rows: seq<Row>, r: Row)
    requires Consistent(rows) && r in rows
    ensures PathThrough(rows, r) == RowPath(r)
  {
    hide LastRow, CodeAt, EntryAt, Lasts;
    var c := LastRow(rows, Cells, r);
    LastRowLasts(rows, Cells, r);
    var s := LastRow(rows, Sectors, c);
    LastRowLasts(rows, Sectors, c);
    var d := LastRow(rows, Districts, s);
    LastRowLasts(rows, Districts, s);
    LastRowLasts(rows, Provinces, d);
    LikeRow(rows, Cells, c, r);
    LikeRow(rows, Sectors, s, r);
    LikeRow(rows, Districts, d, r);
    LikeRow(rows, Provinces, LastRow(rows, Provinces, d), r);
  }

  lemma LikeRow(rows: seq<Row>, v: Level, q: Row, r: Row)
    requires Consistent(rows) && q in rows && r in rows && CodeAt(v)(q) == CodeAt(v)(r)
    ensures Trim(NameAt(v, q)) == Trim(NameAt(v, r)) && CodeAt(Above(v))(q) == CodeAt(Above(v))(r)
  {
    hide CodeAt, Trim;
    assert EntryAt(v, q) == EntryAt(v, r);
  }

  /** The saved row a code leads to carries the name and parent of the last row with it. */
  lemma NodeOf(rows: seq<Row>, v: Level, r: Row, base: nat, parentBase: nat)
    requires r in rows && Lasts(rows, v, r)
    ensures var id := PkidOf(Codes(rows, v), base, CodeAt(v)(r));
      && id.Some? && base <= id.value < base + |LevelPlaces(rows, v, parentBase)|
      && LevelPlaces(rows, v, parentBase)[id.value - base]
         == Place(EntryAt(v, r).name,
                  if v == Provinces then None else PkidOf(Codes(rows, Above(v)), parentBase, EntryAt(v, r).parentCode))
  {
    hide KeysOf, LastWith, PkidOf, EntryAt, CodeAt, SortBy;
    var code := CodeAt(v)(r);
    KeysCover(rows, CodeAt(v), r);
    CodesHaveRows(rows, v);
    PkidIsPosition(Codes(rows, v), base, code);
    LastWithKey(rows, CodeAt(v), code);
  }

  lemma CodesOf(v: Level, r: Row)
    ensures EntryAt(v, r).parentCode == CodeAt(Above(v))(r) && EntryAt(v, r).name == Trim(NameAt(v, r))
  {
  }

  /** The saved village of a row leads up through the last rows of its codes. */
  lemma ChainOfRow(t: Tables, rows: seq<Row>, r: Row)
    requires t.villages == [] && Seed(t, rows).result == Seeded && r in rows && Lasts(rows, Villages, r)
    ensures var id := PkidOf(Codes(rows, Villages), 0, CodeAt(Villages)(r));
      && id.Some? && id.value < |Seed(t, rows).tables.villages|
      && ChainOf(Seed(t, rows).tables, Seed(t, rows).tables.villages[id.value]) == Some(PathThrough(rows, r))
  {
    hide LevelPlaces, PkidOf, Codes, CodeAt, EntryAt, Trim, Seed, NoRefusal, LastRow, Lasts;
    SeededTables(t, rows);
    NodeOf(rows, Villages, r, 0, |t.cells|);
    CodesOf(Villages, r);
    var c := LastRow(rows, Cells, r);
    LastRowLasts(rows, Cells, r);
    NodeOf(rows, Cells, c, |t.cells|, |t.sectors|);
    CodesOf(Cells, c);
    var s := LastRow(rows, Sectors, c);
    LastRowLasts(rows, Sectors, c);
    NodeOf(rows, Sectors, s, |t.sectors|, |t.districts|);
    CodesOf(Sectors, s);
    var d := LastRow(rows, Districts, s);
    LastRowLasts(rows, Districts, s);
    NodeOf(rows, Districts, d, |t.districts|, |t.provinces|);
    CodesOf(Districts, d);
    var p := LastRow(rows, Provinces, d);
    LastRowLasts(rows, Provinces, d);
    NodeOf(rows, Provinces, p, |t.provinces|, 0);
    CodesOf(Provinces, p);
  }

  lemma {:induction false} PkidFirst(codes: seq<string>, i: nat)
    requires i < |codes| && Distinct(codes)
    ensures PkidOf(codes, 0, codes[i]) == Some(i)
  {
    if i < |codes| - 1 {
      PkidFirst(codes[..|codes| - 1], i);
    }
  }

  lemma PermutedDistinct<T>(s: seq<T>, t: seq<T>)
    requires multiset(s) == multiset(t) && Distinct(t)
    ensures Distinct(s)
  {
    forall i, j | 0 <= i < j < |s| ensures s[i] != s[j] {
      DistinctCount(t, s[i]);
      if s[i] == s[j] {
        RepeatCount(s, i, j);
        assert false;
      }
    }
  }

  /** Every saved village stands for the last row with its code and leads up
      through the last rows of the codes above, whatever the rows are. */
  lemma SavedChains(t: Tables, rows: seq<Row>, i: nat)
    requires t.villages == [] && Seed(t, rows).result == Seeded
    requires i < |Codes(rows, Villages)|
    ensures |Seed(t, rows).tables.villages| == |Codes(rows, Villages)|
    ensures LastWith(rows, CodeAt(Villages), Codes(rows, Villages)[i]).Some?
    ensures ChainOf(Seed(t, rows).tables, Seed(t, rows).tables.villages[i])
         == Some(PathThrough(rows, LastWith(rows, CodeAt(Villages), Codes(rows, Villages)[i]).value))
  {
    hide LevelPlaces, ChainOf, CodeAt, SortBy, LastWith, Seed, PathThrough;
    var codes := Codes(rows, Villages);
    SeededCount(t, rows);
    CodesHaveRows(rows, Villages);
    SortPermutes(KeysOf(rows, CodeAt(Villages)), CodeUnitLeq);
    KeysDistinct(rows, CodeAt(Villages));
    PermutedDistinct(codes, KeysOf(rows, CodeAt(Villages)));
    PkidFirst(codes, i);
    assert codes[i] in codes;
    LastWithKey(rows, CodeAt(Villages), codes[i]);
    ChainOfRow(t, rows, LastWith(rows, CodeAt(Villages), codes[i]).value);
  }

  // ── from nested dataset to saved tree ────────────────────────────────────

  lemma {:induction false} NoSpaces(s: string)
    requires AllDigits(s)
    ensures Trim(s) == s
  {
    assert s != [] ==> IsDigit(s[0]) && IsDigit(s[|s| - 1]);
  }

  lemma NumeralCodes(a: nat, b: nat)
    ensures CodeText(Num(a)) == CodeText(Num(b)) <==> a == b
  {
    NoSpaces(NatToString(a));
    NoSpaces(NatToString(b));
    if NatToString(a) == NatToString(b) { NumeralsDiffer(a, b); }
  }

  lemma SameNode(f: Flat, r: Row, q: Row, v: Level)
    requires RowAgrees(f, r) && RowAgrees(f, q) && v != Villages && CodeAt(v)(r) == CodeAt(v)(q)
    ensures EntryAt(v, r) == EntryAt(v, q)
  {
    hide CodeText, Trim;
    NumeralCodes(r.provinceCode.n, q.provinceCode.n);
    NumeralCodes(r.districtCode.n, q.districtCode.n);
    NumeralCodes(r.sectorCode.n, q.sectorCode.n);
    NumeralCodes(r.cellCode.n, q.cellCode.n);
  }

  lemma VillageCodes(f: Flat, i: nat, j: nat)
    requires Agrees(f) && i < |f.rows| && j < |f.rows|
    ensures CodeAt(Villages)(f.rows[i]) == CodeAt(Villages)(f.rows[j]) <==> i == j
  {
    hide CodeText, RowAgrees;
    NumeralCodes(i + 1, j + 1);
  }

  lemma SameEntry(f: Flat, r: Row, q: Row, v: Level)
    requires Agrees(f) && r in f.rows && q in f.rows && CodeAt(v)(r) == CodeAt(v)(q)
    ensures EntryAt(v, r) == EntryAt(v, q)
  {
    hide CodeAt, EntryAt, RowAgrees;
    var i :| 0 <= i < |f.rows| && f.rows[i] == r;
    var j :| 0 <= j < |f.rows| && f.rows[j] == q;
    if v == Villages { VillageCodes(f, i, j); } else { SameNode(f, r, q, v); }
  }

  /** Flattened rows are consistent, and no two share a village code. */
  lemma FlattenConsistent(f: Flat)
    requires Agrees(f)
    ensures Consistent(f.rows)
    ensures forall i, j | 0 <= i < j < |f.rows| :: CodeAt(Villages)(f.rows[i]) != CodeAt(Villages)(f.rows[j])
  {
    hide CodeAt, EntryAt, Agrees;
    forall i, j | 0 <= i < j < |f.rows| ensures CodeAt(Villages)(f.rows[i]) != CodeAt(Villages)(f.rows[j]) {
      VillageCodes(f, i, j);
    }
    forall r, q, v: Level | r in f.rows && q in f.rows && CodeAt(v)(r) == CodeAt(v)(q)
      ensures EntryAt(v, r) == EntryAt(v, q)
    {
      SameEntry(f, r, q, v);
    }
  }

  lemma {:induction false} LastOfOwnKey(rows: seq<Row>, key: Row -> string, i: nat)
    requires forall j, k | 0 <= j < k < |rows| :: key(rows[j]) != key(rows[k])
    requires i < |rows|
    ensures LastWith(rows, key, key(rows[i])) == Some(rows[i])
  {
    if i < |rows| - 1 {
      assert rows[..|rows| - 1][i] == rows[i];
      LastOfOwnKey(rows[..|rows| - 1], key, i);
    }
  }

  function Chains(t: Tables): (r: seq<Option<Path>>)
    ensures |r| == |t.villages|
    ensures forall i | 0 <= i < |r| :: r[i] == ChainOf(t, t.villages[i])
  {
    seq(|t.villages|, i requires 0 <= i < |t.villages| => ChainOf(t, t.villages[i]))
  }

  function PathOfCode(rows: seq<Row>): string -> Option<Path> {
    (k: string) => var r := LastWith(rows, CodeAt(Villages), k); if r.Some? then Some(RowPath(r.value)) else None
  }

  function Mapped<T, U>(s: seq<T>, f: T -> U): (r: seq<U>)
    ensures |r| == |s|
    ensures forall i | 0 <= i < |s| :: r[i] == f(s[i])
  {
    seq(|s|, i requires 0 <= i < |s| => f(s[i]))
  }

  lemma {:induction false} MappedPermutes<T, U>(a: seq<T>, b: seq<T>, f: T -> U)
    requires multiset(a) == multiset(b)
    ensures multiset(Mapped(a, f)) == multiset(Mapped(b, f))
  {
    assert |multiset(a)| == |a| && |multiset(b)| == |b|;
    if a != [] {
      var i := PullFront(a, b);
      var rest := b[..i] + b[i + 1..];
      MappedPermutes(a[1..], rest, f);
      assert Mapped(a, f) == [f(a[0])] + Mapped(a[1..], f);
      PullAt(Mapped(b, f), i);
      assert Mapped(b, f)[..i] + Mapped(b, f)[i + 1..] == Mapped(rest, f);
    }
  }

  function Somes(ps: seq<Path>): (r: seq<Option<Path>>)
    ensures |r| == |ps|
    ensures forall i | 0 <= i < |ps| :: r[i] == Some(ps[i])
  {
    seq(|ps|, i requires 0 <= i < |ps| => Some(ps[i]))
  }

  /** Flattening and rebuilding preserve the tree: when the seeding goes through,
      the saved villages with their saved ancestors are exactly the villages of
      the dataset with their own, trimmed ancestors, each as often as it occurs. */
  lemma FlattenThenSeed(t: Tables, data: seq<ProvinceNode>)
    requires Seed(t, Flatten(data).rows).result == Seeded
    ensures multiset(Chains(Seed(t, Flatten(data).rows).tables)) == multiset(Somes(Paths(data)))
  {
    hide ChainOf, CodeAt, Consistent, SortBy, KeysOf, LastWith, RowPath, LevelPlaces, Seed, AddProvinces, Paths;
    var f := Flatten(data);
    FlattenAgrees(Flat([], [], [], [], []), data);
    FlattenLists(Flat([], [], [], [], []), data);
    FlattenConsistent(f);
    SeedOfDistinct(t, f.rows);
    assert Somes(RowPaths(f.rows)) == Somes(Paths(data));
  }

  lemma SeedOfDistinct(t: Tables, rows: seq<Row>)
    requires Seed(t, rows).result == Seeded && Consistent(rows)
    requires forall i, j | 0 <= i < j < |rows| :: CodeAt(Villages)(rows[i]) != CodeAt(Villages)(rows[j])
    ensures multiset(Chains(Seed(t, rows).tables)) == multiset(Somes(RowPaths(rows)))
  {
    hide ChainOf, CodeAt, Consistent, SortBy, KeysOf, LastWith, RowPath, LevelPlaces, Seed, PathThrough;
    var key, path := CodeAt(Villages), PathOfCode(rows);
    var keys, codes := KeysOf(rows, key), Codes(rows, Villages);
    KeysInOrder(rows, key);
    forall i | 0 <= i < |rows| ensures LastWith(rows, key, key(rows[i])) == Some(rows[i]) {
      LastOfOwnKey(rows, key, i);
    }
    assert Mapped(keys, path) == Somes(RowPaths(rows));
    SortPermutes(keys, CodeUnitLeq);
    MappedPermutes(codes, keys, path);
    var saved := Chains(Seed(t, rows).tables);
    SeededCount(t, rows);
    forall i | 0 <= i < |codes| ensures saved[i] == path(codes[i]) {
      SavedChains(t, rows, i);
      LastWithKey(rows, key, codes[i]);
      ConsistentPath(rows, LastWith(rows, key, codes[i]).value);
    }
    assert saved == Mapped(codes, path);
  }

  lemma SeededCount(t: Tables, rows: seq<Row>)
    requires Seed(t, rows).result == Seeded
    ensures t.villages == [] && |Seed(t, rows).tables.villages| == |Codes(rows, Villages)|
  {
    hide SeedLower, SaveOutcome;
    SeededTables(t, rows);
  }

  // ── when the seeding goes through ────────────────────────────────────────

  /** No two codes of a level have the same trimmed name in their last rows. */
  ghost predicate NamesApart(rows: seq<Row>, v: Level) {
    forall r, q | r in rows && q in rows && Lasts(rows, v, r) && Lasts(rows, v, q)
      && EntryAt(v, r).name == EntryAt(v, q).name ::
      CodeAt(v)(r) == CodeAt(v)(q)
  }

  lemma PlaceName(rows: seq<Row>, v: Level, base: nat, i: nat)
    requires i < |Codes(rows, v)|
    ensures LastWith(rows, CodeAt(v), Codes(rows, v)[i]).Some?
    ensures var r := LastWith(rows, CodeAt(v), Codes(rows, v)[i]).value;
      && r in rows && CodeAt(v)(r) == Codes(rows, v)[i] && Lasts(rows, v, r)
      && LevelPlaces(rows, v, base)[i].name == EntryAt(v, r).name
  {
    hide CodeAt, EntryAt, LastWith, SortBy, KeysOf;
    CodesHaveRows(rows, v);
    assert Codes(rows, v)[i] in Codes(rows, v);
    LastWithKey(rows, CodeAt(v), Codes(rows, v)[i]);
  }

  lemma DistinctCodes(rows: seq<Row>, v: Level)
    ensures Distinct(Codes(rows, v))
  {
    hide CodeAt, SortBy, KeysOf;
    SortPermutes(KeysOf(rows, CodeAt(v)), CodeUnitLeq);
    KeysDistinct(rows, CodeAt(v));
    PermutedDistinct(Codes(rows, v), KeysOf(rows, CodeAt(v)));
  }

  lemma UniqueWhenApart(rows: seq<Row>, v: Level, base: nat)
    ensures NamesUnique(LevelPlaces(rows, v, base)) <==> NamesApart(rows, v)
  {
    hide CodeAt, EntryAt, LastWith, LevelPlaces, Codes, Lasts;
    var places, codes := LevelPlaces(rows, v, base), Codes(rows, v);
    DistinctCodes(rows, v);
    if NamesApart(rows, v) {
      forall i, j | 0 <= i < j < |places| ensures places[i].name != places[j].name {
        PlaceName(rows, v, base, i);
        PlaceName(rows, v, base, j);
      }
    }
    if NamesUnique(places) {
      forall r, q | r in rows && q in rows && Lasts(rows, v, r) && Lasts(rows, v, q)
        && EntryAt(v, r).name == EntryAt(v, q).name
        ensures CodeAt(v)(r) == CodeAt(v)(q)
      {
        RowPlace(rows, v, base, r);
        RowPlace(rows, v, base, q);
      }
    }
  }

  lemma RowPlace(rows: seq<Row>, v: Level, base: nat, r: Row)
    requires r in rows && Lasts(rows, v, r)
    ensures exists i ::
      && 0 <= i < |Codes(rows, v)| && Codes(rows, v)[i] == CodeAt(v)(r)
      && LevelPlaces(rows, v, base)[i].name == EntryAt(v, r).name
  {
    hide CodeAt, EntryAt, LastWith, LevelPlaces, Codes, Lasts;
    NodeOf(rows, v, r, 0, base);
    CodeInCodes(rows, v, r);
    PkidIsPosition(Codes(rows, v), 0, CodeAt(v)(r));
  }

  lemma CodeInCodes(rows: seq<Row>, v: Level, r: Row)
    requires r in rows
    ensures CodeAt(v)(r) in Codes(rows, v)
  {
    hide CodeAt, KeysOf, LastWith, SortBy;
    KeysCover(rows, CodeAt(v), r);
    CodesHaveRows(rows, v);
  }

  /** Every trimmed name that the level takes from a last row fits its column. */
  ghost predicate NamesFit(rows: seq<Row>, v: Level) {
    forall r | r in rows && Lasts(rows, v, r) :: |EntryAt(v, r).name| <= 100
  }

  lemma SpeaksForCode(rows: seq<Row>, v: Level, r: Row)
    requires Consistent(rows) && r in rows
    ensures var l := LastRow(rows, v, r);
      l in rows && Lasts(rows, v, l) && CodeAt(v)(l) == CodeAt(v)(r) && EntryAt(v, l) == EntryAt(v, r)
  {
    hide CodeAt, EntryAt, LastRow, Lasts;
    LastRowLasts(rows, v, r);
  }

  /** In consistent rows every row speaks for its code: names apart in the last
      rows are apart in all. */
  lemma ConsistentApart(rows: seq<Row>, v: Level, r: Row, q: Row)
    requires Consistent(rows) && NamesApart(rows, v)
    requires r in rows && q in rows && EntryAt(v, r).name == EntryAt(v, q).name
    ensures CodeAt(v)(r) == CodeAt(v)(q)
  {
    hide CodeAt, EntryAt, LastRow, Lasts, Consistent;
    SpeaksForCode(rows, v, r);
    SpeaksForCode(rows, v, q);
  }

  lemma ConsistentFit(rows: seq<Row>, v: Level, r: Row)
    requires Consistent(rows) && NamesFit(rows, v) && r in rows
    ensures |EntryAt(v, r).name| <= MAX_NAME
  {
    hide CodeAt, EntryAt, LastRow, Lasts, Consistent;
    SpeaksForCode(rows, v, r);
  }

  lemma FitsWhenNamesFit(rows: seq<Row>, v: Level, base: nat)
    ensures Fits(LevelPlaces(rows, v, base)) <==> NamesFit(rows, v)
  {
    hide CodeAt, EntryAt, LastWith, LevelPlaces, Codes, Lasts;
    var places := LevelPlaces(rows, v, base);
    if NamesFit(rows, v) {
      forall i | 0 <= i < |places| ensures |places[i].name| <= MAX_NAME { PlaceName(rows, v, base, i); }
    }
    if Fits(places) {
      forall r | r in rows && Lasts(rows, v, r) ensures |EntryAt(v, r).name| <= MAX_NAME { RowPlace(rows, v, base, r); }
    }
  }

  /** Starting from empty tables, any rows are seeded exactly when no two codes of
      provinces and no two of districts end up with the same trimmed name and every
      trimmed name a code ends up with, of whatever level, has at most a hundred
      characters. */
  lemma SeedsExactlyWhenNamesDiffer(rows: seq<Row>)
    ensures Seed(Tables([], [], [], [], []), rows).result == Seeded
      <==> NamesApart(rows, Provinces) && NamesApart(rows, Districts) && forall v: Level :: NamesFit(rows, v)
  {
    hide NamesApart, NamesFit, LevelPlaces, NamesUnique, Fits, Seed;
    var none := Tables([], [], [], [], []);
    SeededTables(none, rows);
    UniqueWhenApart(rows, Provinces, 0);
    UniqueWhenApart(rows, Districts, 0);
    forall v: Level ensures Fits(LevelPlaces(rows, v, 0)) <==> NamesFit(rows, v) { FitsWhenNamesFit(rows, v, 0); }
    assert [] + LevelPlaces(rows, Provinces, 0) == LevelPlaces(rows, Provinces, 0);
    assert [] + LevelPlaces(rows, Districts, 0) == LevelPlaces(rows, Districts, 0);
    AllLevels(rows);
  }

  lemma AllLevels(rows: seq<Row>)
    ensures (forall v: Level :: NamesFit(rows, v))
      <==> NamesFit(rows, Provinces) && NamesFit(rows, Districts) && NamesFit(rows, Sectors) && NamesFit(rows, Cells)
           && NamesFit(rows, Villages)
  {
    hide NamesFit;
    if NamesFit(rows, Provinces) && NamesFit(rows, Districts) && NamesFit(rows, Sectors) && NamesFit(rows, Cells)
      && NamesFit(rows, Villages)
    {
      forall v: Level ensures NamesFit(rows, v) {
        match v
        case Provinces => case Districts => case Sectors => case Cells => case Villages =>
      }
    }
  }

  lemma LeftProvinces(t: Tables, rows: seq<Row>)
    requires t.villages == [] && Seed(t, rows).result != Seeded
    ensures Seed(t, rows).tables != t ==>
      && Refusal(t.provinces, LevelPlaces(rows, Provinces, 0), true).None?
      && Seed(t, rows).tables.provinces == t.provinces + LevelPlaces(rows, Provinces, 0)
  {
    hide LevelPlaces, ChunkOutcome, Refusal;
  }

  lemma NoRowsNoRefusal(t: Tables)
    requires t.villages == [] && NamesUnique(t.provinces) && NamesUnique(t.districts)
    ensures Seed(t, []).result == Seeded
  {
    hide Seed;
    forall v: Level ensures KeysOf([], CodeAt(v)) == [] && Codes([], v) == [] { }
    assert t.provinces + [] == t.provinces && t.districts + [] == t.districts;
    SeededTables(t, []);
  }

  /** A seeding that stops half way is never completed by running it again: the
      second run stops too and changes nothing, and so does every later one. */
  lemma StoppedForGood(t: Tables, rows: seq<Row>)
    requires t.villages == [] && NamesUnique(t.provinces) && NamesUnique(t.districts)
    requires Seed(t, rows).result != Seeded
    ensures var u := Seed(t, rows).tables;
      Seed(u, rows).result != Seeded && Seed(u, rows).tables == u
  {
    hide LevelPlaces, Fits, NamesUnique, SeedLower;
    if rows == [] {
      NoRowsNoRefusal(t);
      assert false;
    }
    LeftProvinces(t, rows);
    var u, places := Seed(t, rows).tables, LevelPlaces(rows, Provinces, 0);
    if u != t && u.villages == [] {
      ProvincesNotEmpty(rows);
      SavedTwice(t.provinces, places);
    }
  }

  lemma ProvincesNotEmpty(rows: seq<Row>)
    requires rows != []
    ensures LevelPlaces(rows, Provinces, 0) != []
  {
    hide LevelPlaces, Codes;
    CodeInCodes(rows, Provinces, rows[0]);
  }

  lemma SavedTwice(rows: seq<Place>, places: seq<Place>)
    requires places != []
    ensures !NamesUnique(rows + places + places)
  {
    var twice := rows + places + places;
    assert twice[|rows|] == places[0] && twice[|rows| + |places|] == places[0];
  }

  /** Two provinces that differ only in white space stop the seeding. */
  lemma SameNameStops(data: seq<ProvinceNode>, i: nat, j: nat)
    requires i < |Flatten(data).rows| && j < |Flatten(data).rows|
    requires var r, q := Flatten(data).rows[i], Flatten(data).rows[j];
      Trim(r.provinceName) == Trim(q.provinceName) && r.provinceCode != q.provinceCode
    ensures Seed(Tables([], [], [], [], []), Flatten(data).rows)
         == SeedOutcome(Tables([], [], [], [], []),
                        if NamesFit(Flatten(data).rows, Provinces) then DuplicateName else NameTooLong)
  {
    hide AddProvinces, LevelPlaces, NamesUnique, Fits, NamesFit, SeedLower;
    var rows := Flatten(data).rows;
    FitsWhenNamesFit(rows, Provinces, 0);
    UniqueWhenApart(rows, Provinces, 0);
    assert [] + LevelPlaces(rows, Provinces, 0) == LevelPlaces(rows, Provinces, 0);
    SharedName(data, i, j);
  }

  lemma SharedName(data: seq<ProvinceNode>, i: nat, j: nat)
    requires i < |Flatten(data).rows| && j < |Flatten(data).rows|
    requires var r, q := Flatten(data).rows[i], Flatten(data).rows[j];
      Trim(r.provinceName) == Trim(q.provinceName) && r.provinceCode != q.provinceCode
    ensures !NamesApart(Flatten(data).rows, Provinces)
  {
    hide AddProvinces, Trim, NamesApart, Consistent;
    var rows := Flatten(data).rows;
    FlattenAgrees(Flat([], [], [], [], []), data);
    FlattenConsistent(Flatten(data));
    assert RowAgrees(Flatten(data), rows[i]) && RowAgrees(Flatten(data), rows[j]);
    NumeralCodes(rows[i].provinceCode.n, rows[j].provinceCode.n);
    assert rows[i] in rows && rows[j] in rows && EntryAt(Provinces, rows[i]).name == EntryAt(Provinces, rows[j]).name;
    if NamesApart(rows, Provinces) { ConsistentApart(rows, Provinces, rows[i], rows[j]); }
  }

  function Hamlet(province: string, district: string, cell: string): ProvinceNode {
    ProvinceNode(province, [DistrictNode(district, [SectorNode("S", [CellNode(cell, ["V"])])])])
  }

  lemma AddHamlet(f: Flat, province: string, district: string, cell: string)
    ensures var g := AddDistricts(InProvince(f, province), Hamlet(province, district, cell).districts);
      && |g.rows| == |f.rows| + 1 && g.rows[..|f.rows|] == f.rows && g.provinces == f.provinces + [province]
      && var r := g.rows[|f.rows|];
        && r.provinceCode == Num(|f.provinces| + 1) && r.provinceName == province
        && r.districtName == district && r.sectorName == "S" && r.cellName == cell
  {
    hide AddCells, AddSectors, AddDistricts;
    var p := Hamlet(province, district, cell);
    var d := p.districts[0];
    var atProvince := InProvince(f, province);
    var atDistrict := InDistrict(atProvince, district);
    var atSector := InSector(atDistrict, "S");
    var atCell := InCell(atSector, cell);
    DistrictsStep(atProvince, p.districts, 0);
    SectorsStep(atDistrict, d.sectors, 0);
    CellsStep(atSector, d.sectors[0].cells, 0);
    assert p.districts[..1] == p.districts && d.sectors[..1] == d.sectors
      && d.sectors[0].cells[..1] == d.sectors[0].cells;
    assert ["V"][..0] == [];
    assert AddVillages(atCell, ["V"]) == AddVillage(atCell, "V");
  }

  /** A dataset with two provinces called East is not seeded. */
  lemma TwoEasts()
    ensures Seed(Tables([], [], [], [], []), Flatten([Hamlet("East", "A", "C"), Hamlet(" East", "B", "C")]).rows).result
         == DuplicateName
  {
    hide AddDistricts, AddProvinces, Seed, Hamlet, EntryAt, Trim;
    var data := [Hamlet("East", "A", "C"), Hamlet(" East", "B", "C")];
    var none := Flat([], [], [], [], []);
    HamletName("East", "A", "C");
    HamletName(" East", "B", "C");
    ProvincesStep(none, data, 0);
    ProvincesStep(none, data, 1);
    AddHamlet(none, "East", "A", "C");
    var f := AddProvinces(none, data[..1]);
    AddHamlet(f, " East", "B", "C");
    var rows := Flatten(data).rows;
    assert rows[..1][0] == f.rows[0];
    SpaceEast();
    SameNameStops(data, 0, 1);
    forall r | r in rows ensures |EntryAt(Provinces, r).name| <= MAX_NAME {
      assert r == rows[0] || r == rows[1];
      CodesOf(Provinces, r);
      TrimShortens(r.provinceName);
    }
  }

  lemma HamletName(province: string, district: string, cell: string)
    ensures Hamlet(province, district, cell).name == province
  {
  }

  lemma {:induction false} TrimEndShortens(s: string)
    ensures |TextReaders.TrimEnd(s)| <= |s|
  {
    if s != [] { TrimEndShortens(s[..|s| - 1]); }
  }

  lemma TrimShortens(s: string)
    ensures |Trim(s)| <= |s|
  {
    TrimEndShortens(TextReaders.TrimStart(s));
  }

  lemma SpaceEast()
    ensures Trim(" East") == Trim("East")
  {
    assert " East"[1..] == "East";
    assert TextReaders.TrimStart(" East") == TextReaders.TrimStart("East");
  }

  function LongName(): (s: string)
    ensures |s| == MAX_NAME + 1 && AllDigits(s)
  {
    seq(MAX_NAME + 1, _ => '1')
  }

  /** One cell whose name has 101 characters: the upper tables are left behind
      without cells and villages, and running the seeding again does not help. */
  lemma LongCell()
    ensures var out := Seed(Tables([], [], [], [], []), Flatten([Hamlet("P", "D", LongName())]).rows);
      && out.result == NameTooLong
      && |out.tables.provinces| == |out.tables.districts| == |out.tables.sectors| == 1
      && out.tables.cells == [] && out.tables.villages == []
      && Seed(out.tables, Flatten([Hamlet("P", "D", LongName())]).rows) == SeedOutcome(out.tables, DuplicateName)
  {
    hide AddDistricts, AddProvinces, Seed, Hamlet, LongName;
    var data, none := [Hamlet("P", "D", LongName())], Flat([], [], [], [], []);
    HamletName("P", "D", LongName());
    ProvincesStep(none, data, 0);
    AddHamlet(none, "P", "D", LongName());
    var rows := Flatten(data).rows;
    assert rows == [rows[0]];
    NoSpaces(LongName());
    ShortNames();
    LongCellStops(rows[0]);
  }

  lemma ShortNames()
    ensures |Trim("P")| <= MAX_NAME && |Trim("D")| <= MAX_NAME && |Trim("S")| <= MAX_NAME
  {
    hide Trim;
    TrimShortens("P");
    TrimShortens("D");
    TrimShortens("S");
  }

  lemma OneEach(r: Row, v: Level, base: nat)
    ensures |LevelPlaces([r], v, base)| == 1 && LevelPlaces([r], v, base)[0].name == EntryAt(v, r).name
  {
    hide CodeAt, EntryAt;
    assert [r][..0] == [] && KeysOf([r], CodeAt(v)) == [CodeAt(v)(r)];
    SortPermutes(KeysOf([r], CodeAt(v)), CodeUnitLeq);
  }

  lemma LongFirst(batch: seq<Place>)
    requires |batch| == 1 && |batch[0].name| > MAX_NAME
    ensures FirstLong(batch) == 0 && ChunkOutcome([], batch, 800, false) == Saving([], Some(NameTooLong))
  {
    assert batch[0] in batch[..1];
    assert [] + batch[..0] == [];
    ChunksStored([], batch, 800);
  }

  lemma OnePlace(places: seq<Place>)
    requires |places| == 1 && |places[0].name| <= MAX_NAME
    ensures SaveOutcome([], places, true) == Saving(places, None)
    ensures ChunkOutcome([], places, 500, false) == Saving(places, None)
    ensures SaveOutcome(places, places, true) == Saving(places, Some(DuplicateName))
  {
    assert [] + places == places && [] + places + places == places + places;
    assert places == [places[0]];
    ChunksAll([], places, 500);
    SavedTwice([], places);
  }

  lemma LongCellStops(r: Row)
    requires |Trim(r.provinceName)| <= MAX_NAME && |Trim(r.districtName)| <= MAX_NAME
      && |Trim(r.sectorName)| <= MAX_NAME
    requires |Trim(r.cellName)| > MAX_NAME
    ensures var p, d, s := LevelPlaces([r], Provinces, 0), LevelPlaces([r], Districts, 0), LevelPlaces([r], Sectors, 0);
      && |p| == |d| == |s| == 1
      && Seed(Tables([], [], [], [], []), [r]) == SeedOutcome(Tables(p, d, s, [], []), NameTooLong)
      && Seed(Tables(p, d, s, [], []), [r]) == SeedOutcome(Tables(p, d, s, [], []), DuplicateName)
  {
    hide LevelPlaces, ChunkOutcome, SaveOutcome, Trim, EntryAt, CodeAt;
    forall v: Level ensures |LevelPlaces([r], v, 0)| == 1 && LevelPlaces([r], v, 0)[0].name == Trim(NameAt(v, r)) {
      OneEach(r, v, 0);
      CodesOf(v, r);
    }
    OnePlace(LevelPlaces([r], Provinces, 0));
    OnePlace(LevelPlaces([r], Districts, 0));
    OnePlace(LevelPlaces([r], Sectors, 0));
    LongFirst(LevelPlaces([r], Cells, 0));
  }
}
