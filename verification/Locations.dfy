/** The Rwanda location seeder: flattening a nested dataset into rows with
    numeric codes, and rebuilding the five tables from the rows. */
module Locations {
  import opened Collections
  import opened DecimalText
  import TextReaders

  // ── datasets ─────────────────────────────────────────────────────────────

  datatype Code = Num(n: nat) | Text(s: string)

  datatype Row = Row(
    provinceCode: Code, provinceName: string, districtCode: Code, districtName: string,
    sectorCode: Code, sectorName: string, cellCode: Code, cellName: string,
    villageCode: Code, villageName: string)

  datatype CellNode = CellNode(name: string, villages: seq<string>)
  datatype SectorNode = SectorNode(name: string, cells: seq<CellNode>)
  datatype DistrictNode = DistrictNode(name: string, sectors: seq<SectorNode>)
  datatype ProvinceNode = ProvinceNode(name: string, districts: seq<DistrictNode>)

  function Trim(s: string): string { TextReaders.Trim(s) }

  /** A village with its ancestors, all names trimmed. */
  datatype Path = Path(province: string, district: string, sector: string, cell: string, village: string)

  function RowPath(r: Row): Path {
    Path(Trim(r.provinceName), Trim(r.districtName), Trim(r.sectorName), Trim(r.cellName), Trim(r.villageName))
  }

  function RowPaths(rows: seq<Row>): (ps: seq<Path>)
    ensures |ps| == |rows|
    ensures forall i | 0 <= i < |rows| :: ps[i] == RowPath(rows[i])
  {
    seq(|rows|, i requires 0 <= i < |rows| => RowPath(rows[i]))
  }

  /** The villages of a nested dataset in reading order. */
  function VillagePaths(p: string, d: string, s: string, c: string, villages: seq<string>): seq<Path> {
    if villages == [] then []
    else
      VillagePaths(p, d, s, c, villages[..|villages| - 1])
      + [Path(Trim(p), Trim(d), Trim(s), Trim(c), Trim(villages[|villages| - 1]))]
  }

  function CellPaths(p: string, d: string, s: string, cells: seq<CellNode>): seq<Path> {
    if cells == [] then []
    else
      var c := cells[|cells| - 1];
      CellPaths(p, d, s, cells[..|cells| - 1]) + VillagePaths(p, d, s, c.name, c.villages)
  }

  function SectorPaths(p: string, d: string, sectors: seq<SectorNode>): seq<Path> {
    if sectors == [] then []
    else
      var s := sectors[|sectors| - 1];
      SectorPaths(p, d, sectors[..|sectors| - 1]) + CellPaths(p, d, s.name, s.cells)
  }

  function DistrictPaths(p: string, districts: seq<DistrictNode>): seq<Path> {
    if districts == [] then []
    else
      var d := districts[|districts| - 1];
      DistrictPaths(p, districts[..|districts| - 1]) + SectorPaths(p, d.name, d.sectors)
  }

  function Paths(data: seq<ProvinceNode>): seq<Path> {
    if data == [] then []
    else
      var p := data[|data| - 1];
      Paths(data[..|data| - 1]) + DistrictPaths(p.name, p.districts)
  }

  // ── flattening ───────────────────────────────────────────────────────────

  datatype Numbered = Numbered(name: string, parent: nat)

  /** The rows so far and, for each level, the nodes met so far: the counters of
      the program are the lengths of these lists, and a node's code its position
      counted from one. */
  datatype Flat = Flat(rows: seq<Row>, provinces: seq<string>, districts: seq<Numbered>, sectors: seq<Numbered>,
    cells: seq<Numbered>)

  /** Inside a province, district, sector and cell, each the child of the one before. */
  predicate Inside(f: Flat) {
    && f.provinces != [] && f.districts != [] && f.sectors != [] && f.cells != []
    && f.districts[|f.districts| - 1].parent == |f.provinces|
    && f.sectors[|f.sectors| - 1].parent == |f.districts|
    && f.cells[|f.cells| - 1].parent == |f.sectors|
  }

  function AddVillage(f: Flat, village: string): Flat
    requires Inside(f)
  {
    f.(rows := f.rows + [Row(Num(|f.provinces|), f.provinces[|f.provinces| - 1],
                             Num(|f.districts|), f.districts[|f.districts| - 1].name,
                             Num(|f.sectors|), f.sectors[|f.sectors| - 1].name,
                             Num(|f.cells|), f.cells[|f.cells| - 1].name,
                             Num(|f.rows| + 1), village)])
  }

  function AddVillages(f: Flat, villages: seq<string>): (g: Flat)
    requires Inside(f)
    ensures g == f.(rows := g.rows)
  {
    if villages == [] then f else AddVillage(AddVillages(f, villages[..|villages| - 1]), villages[|villages| - 1])
  }

  function InCell(f: Flat, name: string): Flat { f.(cells := f.cells + [Numbered(name, |f.sectors|)]) }

  function InSector(f: Flat, name: string): Flat { f.(sectors := f.sectors + [Numbered(name, |f.districts|)]) }

  function InDistrict(f: Flat, name: string): Flat { f.(districts := f.districts + [Numbered(name, |f.provinces|)]) }

  function InProvince(f: Flat, name: string): Flat { f.(provinces := f.provinces + [name]) }

  predicate InsideSector(f: Flat) {
    && f.provinces != [] && f.districts != [] && f.sectors != []
    && f.districts[|f.districts| - 1].parent == |f.provinces|
    && f.sectors[|f.sectors| - 1].parent == |f.districts|
  }

  predicate InsideDistrict(f: Flat) {
    f.provinces != [] && f.districts != [] && f.districts[|f.districts| - 1].parent == |f.provinces|
  }

  function AddCells(f: Flat, cells: seq<CellNode>): (g: Flat)
    requires InsideSector(f)
    ensures g == f.(rows := g.rows, cells := g.cells)
  {
    if cells == [] then f
    else
      var c := cells[|cells| - 1];
      AddVillages(InCell(AddCells(f, cells[..|cells| - 1]), c.name), c.villages)
  }

  function AddSectors(f: Flat, sectors: seq<SectorNode>): (g: Flat)
    requires InsideDistrict(f)
    ensures g == f.(rows := g.rows, cells := g.cells, sectors := g.sectors)
  {
    if sectors == [] then f
    else
      var s := sectors[|sectors| - 1];
      AddCells(InSector(AddSectors(f, sectors[..|sectors| - 1]), s.name), s.cells)
  }

  function AddDistricts(f: Flat, districts: seq<DistrictNode>): (g: Flat)
    requires f.provinces != []
    ensures g.provinces == f.provinces
  {
    if districts == [] then f
    else
      var d := districts[|districts| - 1];
      AddSectors(InDistrict(AddDistricts(f, districts[..|districts| - 1]), d.name), d.sectors)
  }

  function AddProvinces(f: Flat, data: seq<ProvinceNode>): Flat {
    if data == [] then f
    else
      var p := data[|data| - 1];
      AddDistricts(InProvince(AddProvinces(f, data[..|data| - 1]), p.name), p.districts)
  }

  function Flatten(data: seq<ProvinceNode>): Flat { AddProvinces(Flat([], [], [], [], []), data) }

  method FlattenVillages(p: (nat, string), d: (nat, string), s: (nat, string), c: (nat, string), villages: seq<string>,
                         rows: seq<Row>, villageCode: nat, ghost f: Flat)
    returns (out: seq<Row>, lastVillage: nat)
    requires Inside(f) && rows == f.rows && villageCode == |rows|
    requires p == (|f.provinces|, f.provinces[|f.provinces| - 1])
      && d == (|f.districts|, f.districts[|f.districts| - 1].name)
    requires s == (|f.sectors|, f.sectors[|f.sectors| - 1].name) && c == (|f.cells|, f.cells[|f.cells| - 1].name)
    ensures out == AddVillages(f, villages).rows && lastVillage == |out|
  {
    out, lastVillage := rows, villageCode;
    for i := 0 to |villages|
      invariant out == AddVillages(f, villages[..i]).rows && lastVillage == |out|
    {
      assert villages[..i + 1][..i] == villages[..i];
      lastVillage := lastVillage + 1;
      out := out + [Row(Num(p.0), p.1, Num(d.0), d.1, Num(s.0), s.1, Num(c.0), c.1, Num(lastVillage), villages[i])];
    }
    assert villages[..|villages|] == villages;
  }

  lemma CellsStep(f: Flat, cells: seq<CellNode>, i: nat)
    requires InsideSector(f) && i <= |cells|
    ensures AddCells(f, cells[..0]) == f && cells[..|cells|] == cells
    ensures i < |cells| ==>
      AddCells(f, cells[..i + 1])
      == AddVillages(InCell(AddCells(f, cells[..i]), cells[i].name), cells[i].villages)
  {
    assert i < |cells| ==> cells[..i + 1][..i] == cells[..i];
  }

  lemma SectorsStep(f: Flat, sectors: seq<SectorNode>, i: nat)
    requires InsideDistrict(f) && i <= |sectors|
    ensures AddSectors(f, sectors[..0]) == f && sectors[..|sectors|] == sectors
    ensures i < |sectors| ==>
      AddSectors(f, sectors[..i + 1])
        == AddCells(InSector(AddSectors(f, sectors[..i]), sectors[i].name), sectors[i].cells)
  {
    assert i < |sectors| ==> sectors[..i + 1][..i] == sectors[..i];
  }

  lemma DistrictsStep(f: Flat, districts: seq<DistrictNode>, i: nat)
    requires f.provinces != [] && i <= |districts|
    ensures AddDistricts(f, districts[..0]) == f && districts[..|districts|] == districts
    ensures i < |districts| ==>
      AddDistricts(f, districts[..i + 1])
        == AddSectors(InDistrict(AddDistricts(f, districts[..i]), districts[i].name), districts[i].sectors)
  {
    assert i < |districts| ==> districts[..i + 1][..i] == districts[..i];
  }

  lemma ProvincesStep(f: Flat, data: seq<ProvinceNode>, i: nat)
    requires i <= |data|
    ensures AddProvinces(f, data[..0]) == f && data[..|data|] == data
    ensures i < |data| ==>
      AddProvinces(f, data[..i + 1])
        == AddDistricts(InProvince(AddProvinces(f, data[..i]), data[i].name), data[i].districts)
  {
    assert i < |data| ==> data[..i + 1][..i] == data[..i];
  }

  /** The counters of the program against the lists of the specification. */
  ghost predicate Counts(f: Flat, rows: seq<Row>, provinceCode: nat, districtCode: nat, sectorCode: nat, cellCode: nat,
          villageCode: nat)
  {
    rows == f.rows && villageCode == |rows| && provinceCode == |f.provinces|
    && districtCode == |f.districts| && sectorCode == |f.sectors| && cellCode == |f.cells|
  }

  /** The five nested loops; each counter is bumped on entering its level. */
  method FlattenNested(data: seq<ProvinceNode>) returns (rows: seq<Row>)
    ensures rows == Flatten(data).rows
  {
    hide AddVillages, AddCells, AddSectors, AddDistricts, AddProvinces;
    rows := [];
    var provinceCode, districtCode, sectorCode, cellCode, villageCode := 0, 0, 0, 0, 0;
    ghost var start := Flat([], [], [], [], []);
    ghost var f := start;
    ProvincesStep(start, data, 0);
    for i := 0 to |data|
      invariant f == AddProvinces(start, data[..i])
      invariant Counts(f, rows, provinceCode, districtCode, sectorCode, cellCode, villageCode)
    {
      ProvincesStep(start, data, i);
      var province := data[i];
      provinceCode := provinceCode + 1;
      f := InProvince(f, province.name);
      ghost var atProvince := f;
      DistrictsStep(atProvince, province.districts, 0);
      for j := 0 to |province.districts|
        invariant f == AddDistricts(atProvince, province.districts[..j])
        invariant Counts(f, rows, provinceCode, districtCode, sectorCode, cellCode, villageCode)
      {
        DistrictsStep(atProvince, province.districts, j);
        var district := province.districts[j];
        districtCode := districtCode + 1;
        f := InDistrict(f, district.name);
        ghost var atDistrict := f;
        SectorsStep(atDistrict, district.sectors, 0);
        for k := 0 to |district.sectors|
          invariant f == AddSectors(atDistrict, district.sectors[..k])
          invariant Counts(f, rows, provinceCode, districtCode, sectorCode, cellCode, villageCode)
        {
          SectorsStep(atDistrict, district.sectors, k);
          var sector := district.sectors[k];
          sectorCode := sectorCode + 1;
          f := InSector(f, sector.name);
          ghost var atSector := f;
          CellsStep(atSector, sector.cells, 0);
          for l := 0 to |sector.cells|
            invariant f == AddCells(atSector, sector.cells[..l])
            invariant Counts(f, rows, provinceCode, districtCode, sectorCode, cellCode, villageCode)
          {
            CellsStep(atSector, sector.cells, l);
            var cell := sector.cells[l];
            cellCode := cellCode + 1;
            f := InCell(f, cell.name);
            rows, villageCode := FlattenVillages((provinceCode, province.name), (districtCode, district.name),
              (sectorCode, sector.name), (cellCode, cell.name), cell.villages, rows, villageCode, f);
            f := AddVillages(f, cell.villages);
          }
        }
      }
    }
  }

  // ── what flattening yields ───────────────────────────────────────────────

  lemma RowPathsAppend(rows: seq<Row>, r: Row)
    ensures RowPaths(rows + [r]) == RowPaths(rows) + [RowPath(r)]
  {
  }

  lemma {:induction false} VillagesPaths(f: Flat, villages: seq<string>)
    requires Inside(f)
    ensures RowPaths(AddVillages(f, villages).rows)
         == RowPaths(f.rows) + VillagePaths(f.provinces[|f.provinces| - 1], f.districts[|f.districts| - 1].name,
                                            f.sectors[|f.sectors| - 1].name, f.cells[|f.cells| - 1].name, villages)
  {
    hide RowPath, Trim;
    if villages != [] {
      VillagesPaths(f, villages[..|villages| - 1]);
      var g := AddVillages(f, villages[..|villages| - 1]);
      var out := AddVillages(f, villages);
      RowPathsAppend(g.rows, out.rows[|g.rows|]);
      VillageRow(out.rows[|g.rows|]);
    }
  }

  lemma VillageRow(r: Row)
    ensures RowPath(r) == Path(Trim(r.provinceName), Trim(r.districtName), Trim(r.sectorName), Trim(r.cellName),
      Trim(r.villageName))
  {
  }

  lemma {:induction false} CellsPaths(f: Flat, cells: seq<CellNode>)
    requires InsideSector(f)
    ensures RowPaths(AddCells(f, cells).rows)
         == RowPaths(f.rows) + CellPaths(f.provinces[|f.provinces| - 1], f.districts[|f.districts| - 1].name,
           f.sectors[|f.sectors| - 1].name, cells)
  {
    hide RowPaths, VillagePaths, AddVillages;
    if cells != [] {
      var front, c := cells[..|cells| - 1], cells[|cells| - 1];
      CellsPaths(f, front);
      VillagesPaths(InCell(AddCells(f, front), c.name), c.villages);
    }
  }

  lemma {:induction false} SectorsPaths(f: Flat, sectors: seq<SectorNode>)
    requires InsideDistrict(f)
    ensures RowPaths(AddSectors(f, sectors).rows)
         == RowPaths(f.rows) + SectorPaths(f.provinces[|f.provinces| - 1], f.districts[|f.districts| - 1].name, sectors)
  {
    hide RowPaths, CellPaths, AddCells;
    if sectors != [] {
      var front, s := sectors[..|sectors| - 1], sectors[|sectors| - 1];
      SectorsPaths(f, front);
      CellsPaths(InSector(AddSectors(f, front), s.name), s.cells);
    }
  }

  lemma {:induction false} DistrictsPaths(f: Flat, districts: seq<DistrictNode>)
    requires f.provinces != []
    ensures RowPaths(AddDistricts(f, districts).rows)
      == RowPaths(f.rows) + DistrictPaths(f.provinces[|f.provinces| - 1], districts)
  {
    hide RowPaths, SectorPaths, AddSectors;
    if districts != [] {
      var front, d := districts[..|districts| - 1], districts[|districts| - 1];
      DistrictsPaths(f, front);
      SectorsPaths(InDistrict(AddDistricts(f, front), d.name), d.sectors);
    }
  }

  /** Flattening lists exactly the villages of the dataset, in reading order, with their ancestors' names. */
  lemma {:induction false} FlattenLists(f: Flat, data: seq<ProvinceNode>)
    ensures RowPaths(AddProvinces(f, data).rows) == RowPaths(f.rows) + Paths(data)
  {
    hide RowPaths, DistrictPaths, AddDistricts;
    if data != [] {
      var front, p := data[..|data| - 1], data[|data| - 1];
      FlattenLists(f, front);
      DistrictsPaths(InProvince(AddProvinces(f, front), p.name), p.districts);
    }
  }

  predicate NodeAt(list: seq<Numbered>, code: Code, name: string, parent: Code) {
    code.Num? && parent.Num? && 1 <= code.n <= |list| && list[code.n - 1] == Numbered(name, parent.n)
  }

  /** A row's codes lead to the nodes it names. */
  predicate RowAgrees(f: Flat, r: Row) {
    && r.provinceCode.Num? && 1 <= r.provinceCode.n <= |f.provinces|
      && f.provinces[r.provinceCode.n - 1] == r.provinceName
    && NodeAt(f.districts, r.districtCode, r.districtName, r.provinceCode)
    && NodeAt(f.sectors, r.sectorCode, r.sectorName, r.districtCode)
    && NodeAt(f.cells, r.cellCode, r.cellName, r.sectorCode)
  }

  predicate Agrees(f: Flat) {
    forall i | 0 <= i < |f.rows| :: RowAgrees(f, f.rows[i]) && f.rows[i].villageCode == Num(i + 1)
  }

  lemma AgreesGrows(f: Flat, g: Flat)
    requires Agrees(f) && g.rows == f.rows
    requires f.provinces <= g.provinces && f.districts <= g.districts && f.sectors <= g.sectors && f.cells <= g.cells
    ensures Agrees(g)
  {
    forall i | 0 <= i < |g.rows| ensures RowAgrees(g, g.rows[i]) { assert RowAgrees(f, f.rows[i]); }
  }

  lemma {:induction false} VillagesAgree(f: Flat, villages: seq<string>)
    requires Inside(f) && Agrees(f)
    ensures Agrees(AddVillages(f, villages))
  {
    if villages != [] {
      VillagesAgree(f, villages[..|villages| - 1]);
      var g, h := AddVillages(f, villages[..|villages| - 1]), AddVillages(f, villages);
      forall i | 0 <= i < |h.rows| ensures RowAgrees(h, h.rows[i]) && h.rows[i].villageCode == Num(i + 1) {
        if i < |g.rows| { assert RowAgrees(g, g.rows[i]); }
      }
    }
  }

  lemma {:induction false} CellsAgree(f: Flat, cells: seq<CellNode>)
    requires InsideSector(f) && Agrees(f)
    ensures Agrees(AddCells(f, cells))
  {
    hide Agrees, AddVillages;
    if cells != [] {
      var front, c := cells[..|cells| - 1], cells[|cells| - 1];
      CellsAgree(f, front);
      var g := AddCells(f, front);
      AgreesGrows(g, InCell(g, c.name));
      VillagesAgree(InCell(g, c.name), c.villages);
    }
  }

  lemma {:induction false} SectorsAgree(f: Flat, sectors: seq<SectorNode>)
    requires InsideDistrict(f) && Agrees(f)
    ensures Agrees(AddSectors(f, sectors))
  {
    hide Agrees, AddCells;
    if sectors != [] {
      var front, s := sectors[..|sectors| - 1], sectors[|sectors| - 1];
      SectorsAgree(f, front);
      var g := AddSectors(f, front);
      AgreesGrows(g, InSector(g, s.name));
      CellsAgree(InSector(g, s.name), s.cells);
    }
  }

  lemma {:induction false} DistrictsAgree(f: Flat, districts: seq<DistrictNode>)
    requires f.provinces != [] && Agrees(f)
    ensures Agrees(AddDistricts(f, districts))
  {
    hide Agrees, AddSectors;
    if districts != [] {
      var front, d := districts[..|districts| - 1], districts[|districts| - 1];
      DistrictsAgree(f, front);
      var g := AddDistricts(f, front);
      AgreesGrows(g, InDistrict(g, d.name));
      SectorsAgree(InDistrict(g, d.name), d.sectors);
    }
  }

  lemma {:induction false} FlattenAgrees(f: Flat, data: seq<ProvinceNode>)
    requires Agrees(f)
    ensures Agrees(AddProvinces(f, data))
  {
    hide Agrees, AddDistricts;
    if data != [] {
      var front, p := data[..|data| - 1], data[|data| - 1];
      FlattenAgrees(f, front);
      var g := AddProvinces(f, front);
      AgreesGrows(g, InProvince(g, p.name));
      DistrictsAgree(InProvince(g, p.name), p.districts);
    }
  }
}
