/** mapa_densidade.py: the IBGE household table is cleaned (headers trimmed and
    renamed, thousands separators removed from the household counts, non-numeric
    counts made missing), the per-municipality table is left-joined to it on
    title-cased names, the density of systems per 1000 households is computed and
    its missing values set to 0, the boundary layer is left-joined to the result,
    and the least positive and the greatest density are reported. */
module DensityMap {
  import opened Common
  import opened Text
  import opened Joins
  import opened Frames

  // ---------------------------------------------------------------------------
  // The household table: header clean-up and the household count column
  // ---------------------------------------------------------------------------

  const MunicipiosHeader: string := "Municípios"
  const HouseholdsHeader: string := "Domicílios" + " particulares permanentes - " + "Domicílios"
  const MunicipioColumn: string := "municipio"
  const HouseholdsColumn: string := "total_domicilios"

  /** `rename(columns={...})` on one column name: only the two exact names change. */
  function RenameColumn(name: string): string
  {
    if name == MunicipiosHeader then MunicipioColumn
    else if name == HouseholdsHeader then HouseholdsColumn
    else name
  }

  /** The renamed header has a `municipio` column exactly when the original had
      `municipio` or `Municípios`, and a `total_domicilios` column exactly when it
      had `total_domicilios` or the IBGE household header; every other name is kept
      where it was. */
  function RenameAll(header: seq<string>): (r: seq<string>)
    ensures |r| == |header|
    ensures MunicipioColumn in r <==> MunicipioColumn in header || MunicipiosHeader in header
    ensures HouseholdsColumn in r <==> HouseholdsColumn in header || HouseholdsHeader in header
    ensures forall i :: 0 <= i < |header| && header[i] != MunicipiosHeader && header[i] != HouseholdsHeader ==>
      r[i] == header[i]
  {
    var r := seq(|header|, i requires 0 <= i < |header| => RenameColumn(header[i]));
    assert forall i :: 0 <= i < |header| ==> r[i] == RenameColumn(header[i]);
    assert MunicipioColumn in header ==> MunicipioColumn in r by {
      if MunicipioColumn in header {
        var i :| 0 <= i < |header| && header[i] == MunicipioColumn;
        assert r[i] == MunicipioColumn;
      }
    }
    assert MunicipiosHeader in header ==> MunicipioColumn in r by {
      if MunicipiosHeader in header {
        var i :| 0 <= i < |header| && header[i] == MunicipiosHeader;
        assert r[i] == MunicipioColumn;
      }
    }
    assert HouseholdsColumn in header ==> HouseholdsColumn in r by {
      if HouseholdsColumn in header {
        var i :| 0 <= i < |header| && header[i] == HouseholdsColumn;
        assert r[i] == HouseholdsColumn;
      }
    }
    assert HouseholdsHeader in header ==> HouseholdsColumn in r by {
      if HouseholdsHeader in header {
        var i :| 0 <= i < |header| && header[i] == HouseholdsHeader;
        assert r[i] == HouseholdsColumn;
      }
    }
    r
  }

  /** `astype(str)` on one cell: text as it is, an integer as its decimal text, a
      missing value as "nan". */
  function AsText(c: Cell): string
  {
    match c
    case Text(s) => s
    case Number(n) => ShowInt(n)
    case Blank => "nan"
  }

  /** `astype(str).str.replace('.', '', regex=False)` on one cell: the result is
      always text, and text without a '.'. */
  function CleanCell(c: Cell): (r: Cell)
    ensures r.Text? && '.' !in r.text
  {
    Text(RemoveDots(AsText(c)))
  }

  /** `pd.to_numeric(..., errors='coerce')` on one cell: integer text becomes its
      value, any other text becomes missing (never an error), and numbers and
      missing values are kept. */
  function ToNumeric(c: Cell): (r: Cell)
    ensures !r.Text?
    ensures c.Text? ==> (r.Number? <==> IsIntegerText(c.text))
    ensures c.Text? && IsIntegerText(c.text) ==> Some(r.value) == ParseInt(c.text)
    ensures !c.Text? ==> r == c
  {
    match c
    case Text(s) => (match ParseInt(s) case Some(n) => Number(n) case None => Blank)
    case _ => c
  }

  /** Column `k` of every row rewritten by `f`; a row too short to have that column
      (where the cell reads as missing) is left alone. */
  function UpdateColumn(rows: seq<seq<Cell>>, k: nat, f: Cell -> Cell): (r: seq<seq<Cell>>)
    ensures |r| == |rows|
    ensures forall i :: 0 <= i < |rows| ==> |r[i]| == |rows[i]|
    ensures forall i :: 0 <= i < |rows| && k < |rows[i]| ==> r[i][k] == f(rows[i][k])
    ensures forall i, j :: 0 <= i < |rows| && 0 <= j < |rows[i]| && j != k ==> r[i][j] == rows[i][j]
  {
    seq(|rows|, i requires 0 <= i < |rows| => if k < |rows[i]| then rows[i][k := f(rows[i][k])] else rows[i])
  }

  /** The household table while its header and its household column are
      rewritten in place. */
  class HouseholdSheet {
    var header: seq<string>
    var rows: seq<seq<Cell>>

    constructor (s: Sheet)
      ensures header == s.header && rows == s.rows
    {
      header := s.header;
      rows := s.rows;
    }

    /** `df_domicilios.columns = df_domicilios.columns.str.strip()` */
    method StripHeaders()
      modifies this
      ensures header == StripAll(old(header)) && rows == old(rows)
    {
      header := StripAll(header);
    }

    /** `df_domicilios.rename(columns={...}, inplace=True)` */
    method RenameHeaders()
      modifies this
      ensures header == RenameAll(old(header)) && rows == old(rows)
    {
      header := RenameAll(header);
    }

    /** `df_domicilios['total_domicilios'] = df_domicilios['total_domicilios']
        .astype(str).str.replace('.', '', regex=False)`; `found` is false, and
        nothing changes, when the column is missing (the KeyError). */
    method CleanHouseholds() returns (found: bool)
      modifies this
      ensures found <==> HouseholdsColumn in header
      ensures header == old(header)
      ensures found ==> rows == UpdateColumn(old(rows), IndexOf(header, HouseholdsColumn).value, CleanCell)
      ensures !found ==> rows == old(rows)
    {
      var k := IndexOf(header, HouseholdsColumn);
      if k.None? {
        return false;
      }
      rows := UpdateColumn(rows, k.value, CleanCell);
      found := true;
    }

    /** `df_domicilios['total_domicilios'] = pd.to_numeric(df_domicilios['total_domicilios'], errors='coerce')` */
    method ParseHouseholds()
      requires HouseholdsColumn in header
      modifies this
      ensures header == old(header)
      ensures rows == UpdateColumn(old(rows), IndexOf(header, HouseholdsColumn).value, ToNumeric)
    {
      rows := UpdateColumn(rows, IndexOf(header, HouseholdsColumn).value, ToNumeric);
    }
  }

  /** A row of `df_domicilios[['municipio', 'total_domicilios']]`. */
  datatype Household = Household(municipio: Cell, households: Option<int>)

  function HouseholdOf(c: Cell): Option<int>
  {
    match c
    case Number(n) => Some(n)
    case _ => None
  }

  /** `df_domicilios[['municipio', 'total_domicilios']]`: a missing column is a
      KeyError naming it, `municipio` first. */
  function SelectHouseholds(header: seq<string>, rows: seq<seq<Cell>>): (r: Result<seq<Household>>)
    ensures r.Err? <==> MunicipioColumn !in header || HouseholdsColumn !in header
    ensures r.Err? ==> r.error == SchemaError(if MunicipioColumn !in header then MunicipioColumn else HouseholdsColumn)
    ensures r.Ok? ==> |r.value| == |rows|
  {
    match (IndexOf(header, MunicipioColumn), IndexOf(header, HouseholdsColumn))
    case (None, _) => Err(SchemaError(MunicipioColumn))
    case (_, None) => Err(SchemaError(HouseholdsColumn))
    case (Some(m), Some(h)) =>
      Ok(seq(|rows|, i requires 0 <= i < |rows| => Household(CellAt(rows[i], m), HouseholdOf(CellAt(rows[i], h)))))
  }

  /** The household table as lines 34-42 of the script leave it: the KeyError of
      line 40 when the trimmed and renamed header lacks `total_domicilios`, the one
      of line 42 when it has that column but lacks `municipio`, and otherwise one
      row per spreadsheet row. */
  function HouseholdTable(sheet: Sheet): (r: Result<seq<Household>>)
    ensures r == Err(SchemaError(HouseholdsColumn)) <==> HouseholdsColumn !in RenameAll(StripAll(sheet.header))
    ensures r == Err(SchemaError(MunicipioColumn)) <==>
      HouseholdsColumn in RenameAll(StripAll(sheet.header)) && MunicipioColumn !in RenameAll(StripAll(sheet.header))
    ensures r.Err? ==> r == Err(SchemaError(HouseholdsColumn)) || r == Err(SchemaError(MunicipioColumn))
    ensures r.Ok? ==> |r.value| == |sheet.rows|
  {
    var header := RenameAll(StripAll(sheet.header));
    match IndexOf(header, HouseholdsColumn)
    case None => Err(SchemaError(HouseholdsColumn))
    case Some(k) => SelectHouseholds(header, UpdateColumn(UpdateColumn(sheet.rows, k, CleanCell), k, ToNumeric))
  }

  // ---------------------------------------------------------------------------
  // The title-cased household keys
  // ---------------------------------------------------------------------------

  /** `str.title()` on a column of mixed cells: text is title-cased, anything else
      becomes missing. */
  function TitleCell(c: Cell): (r: Cell)
    ensures c.Text? <==> r.Text?
    ensures c.Text? ==> r.text == Title(c.text)
    ensures !c.Text? ==> r == Blank
  {
    match c
    case Text(s) => Text(Title(s))
    case _ => Blank
  }

  function TitleHouseholds(hs: seq<Household>): (r: seq<Household>)
    ensures |r| == |hs|
    ensures forall i :: 0 <= i < |hs| ==> r[i].households == hs[i].households
  {
    seq(|hs|, i requires 0 <= i < |hs| => hs[i].(municipio := TitleCell(hs[i].municipio)))
  }

  /** The household table; its `municipio` column is title-cased in place. */
  class HouseholdFrame {
    var rows: seq<Household>

    constructor (hs: seq<Household>)
      ensures rows == hs
    {
      rows := hs;
    }

    /** `df_domicilios['municipio'] = df_domicilios['municipio'].str.title()` */
    method TitleCaseMunicipios()
      modifies this
      ensures rows == TitleHouseholds(old(rows))
    {
      rows := TitleHouseholds(rows);
    }
  }

  // ---------------------------------------------------------------------------
  // Density
  // ---------------------------------------------------------------------------

  /** A density value: a real number, or the infinities that a division by zero
      gives. */
  datatype Density = Finite(value: real) | PosInf | NegInf

  /** `(Numero_Sistemas / total_domicilios) * 1000`: missing when the household count
      is missing or for 0/0, an infinity for a non-zero count over zero households,
      and otherwise the real number `v` with `v * households == systems * 1000`. */
  function Ratio(systems: int, households: Option<int>): (r: Option<Density>)
    ensures households.None? ==> r.None?
    ensures households.Some? && households.value != 0 ==>
      r.Some? && r.value.Finite? && r.value.value * (households.value as real) == (systems as real) * 1000.0
    ensures households.Some? && households.value > 0 && systems >= 0 ==> r.Some? && r.value.Finite? && r.value.value >= 0.0
    ensures households == Some(0) ==> (r.None? <==> systems == 0)
    ensures households == Some(0) && systems > 0 ==> r == Some(PosInf)
    ensures households == Some(0) && systems < 0 ==> r == Some(NegInf)
  {
    match households
    case None => None
    case Some(h) =>
      if h == 0 then (if systems > 0 then Some(PosInf) else if systems < 0 then Some(NegInf) else None)
      else Some(Finite((systems as real) / (h as real) * 1000.0))
  }

  /** `fillna(0)` on one density. */
  function Filled(d: Option<Density>): Density
  {
    if d.None? then Finite(0.0) else d.value
  }

  /** A row of `dados_completos`: the per-municipality row, the household count the
      join brought (missing when nothing matched) and the density. */
  datatype CompleteRow = CompleteRow(municipio: string, systems: int, households: Option<int>, density: Option<Density>)

  function AggregateKey(r: SystemsRow): Cell
  {
    Text(r.municipio)
  }

  function HouseholdKey(h: Household): Cell
  {
    h.municipio
  }

  function CompleteKey(r: CompleteRow): string
  {
    r.municipio
  }

  function ToCompleteRow(p: (SystemsRow, Option<Household>)): CompleteRow
  {
    CompleteRow(p.0.municipio, p.0.systems, if p.1.None? then None else p.1.value.households, None)
  }

  /** `pd.merge(dados_sistemas, df_domicilios, on='municipio', how='left')` */
  function MergeHouseholds(table: seq<SystemsRow>, hs: seq<Household>): (r: seq<CompleteRow>)
    ensures |r| == |LeftMerge(table, hs, AggregateKey, HouseholdKey)|
  {
    var m := LeftMerge(table, hs, AggregateKey, HouseholdKey);
    seq(|m|, i requires 0 <= i < |m| => ToCompleteRow(m[i]))
  }

  function AssignDensities(rows: seq<CompleteRow>): (r: seq<CompleteRow>)
    ensures |r| == |rows|
  {
    seq(|rows|, i requires 0 <= i < |rows| => rows[i].(density := Ratio(rows[i].systems, rows[i].households)))
  }

  /** `dados_completos['Densidade'].fillna(0)`, on the per-municipality table; the
      boundary map's second fill is `FillMapDensities`, the same step on its own row
      type. Every density becomes defined, a defined one is kept, and nothing else
      changes. */
  function FillDensities(rows: seq<CompleteRow>): (r: seq<CompleteRow>)
    ensures |r| == |rows|
    ensures forall i :: 0 <= i < |r| ==>
      && r[i].density.Some?
      && (rows[i].density.Some? ==> r[i].density == rows[i].density)
      && (rows[i].density.None? ==> r[i].density == Some(Finite(0.0)))
      && r[i].(density := rows[i].density) == rows[i]
  {
    seq(|rows|, i requires 0 <= i < |rows| => rows[i].(density := Some(Filled(rows[i].density))))
  }

  /** `dados_completos`; its `Densidade` column is assigned and then filled in place. */
  class CompleteFrame {
    var rows: seq<CompleteRow>

    constructor (rs: seq<CompleteRow>)
      ensures rows == rs
    {
      rows := rs;
    }

    /** `dados_completos['Densidade'] = (dados_completos['Numero_Sistemas'] / dados_completos['total_domicilios']) * 1000` */
    method AssignDensity()
      modifies this
      ensures rows == AssignDensities(old(rows))
    {
      rows := AssignDensities(rows);
    }

    /** `dados_completos['Densidade'] = dados_completos['Densidade'].fillna(0)` */
    method FillDensity()
      modifies this
      ensures rows == FillDensities(old(rows))
    {
      rows := FillDensities(rows);
    }
  }

  /** `dados_completos` as the script leaves it. */
  function CompleteTable(table: seq<SystemsRow>, hs: seq<Household>): seq<CompleteRow>
  {
    FillDensities(AssignDensities(MergeHouseholds(TitleMunicipios(table), TitleHouseholds(hs))))
  }

  // ---------------------------------------------------------------------------
  // The boundary join
  // ---------------------------------------------------------------------------

  /** A row of `mapa_completo_pi`: the boundary feature and the columns the join
      brings from `dados_completos` (missing when nothing matched). */
  datatype MapRow = MapRow(feature: Feature, municipio: Option<string>, systems: Option<int>,
                           households: Option<int>, density: Option<Density>)

  function ToMapRow(p: (Feature, Option<CompleteRow>)): MapRow
  {
    match p.1
    case None => MapRow(p.0, None, None, None, None)
    case Some(c) => MapRow(p.0, Some(c.municipio), Some(c.systems), c.households, c.density)
  }

  /** `mapa_pi.merge(dados_completos, left_on='name', right_on='municipio', how='left')` */
  function MergeComplete(fs: seq<Feature>, rows: seq<CompleteRow>): (r: seq<MapRow>)
    ensures |r| == |LeftMerge(fs, rows, FeatureKey, CompleteKey)|
  {
    var m := LeftMerge(fs, rows, FeatureKey, CompleteKey);
    seq(|m|, i requires 0 <= i < |m| => ToMapRow(m[i]))
  }

  /** `mapa_completo_pi['Densidade'].fillna(0)`, on the boundary map: the same step
      as `FillDensities` on the map's row type. Only `Densidade` is filled, so the
      other joined columns of an unmatched boundary stay missing. */
  function FillMapDensities(rows: seq<MapRow>): (r: seq<MapRow>)
    ensures |r| == |rows|
    ensures forall i :: 0 <= i < |r| ==>
      && r[i].density.Some?
      && (rows[i].density.Some? ==> r[i].density == rows[i].density)
      && (rows[i].density.None? ==> r[i].density == Some(Finite(0.0)))
      && r[i].(density := rows[i].density) == rows[i]
  {
    seq(|rows|, i requires 0 <= i < |rows| => rows[i].(density := Some(Filled(rows[i].density))))
  }

  /** `mapa_completo_pi`; its `Densidade` column is filled in place. */
  class MapFrame {
    var rows: seq<MapRow>

    constructor (rs: seq<MapRow>)
      ensures rows == rs
    {
      rows := rs;
    }

    /** `mapa_completo_pi['Densidade'] = mapa_completo_pi['Densidade'].fillna(0)` */
    method FillDensity()
      modifies this
      ensures rows == FillMapDensities(old(rows))
    {
      rows := FillMapDensities(rows);
    }
  }

  /** `mapa_completo_pi` as the script leaves it before the diagnostics. */
  function DensityMapRows(boundaries: seq<Feature>, complete: seq<CompleteRow>): seq<MapRow>
  {
    FillMapDensities(MergeComplete(TitleNames(boundaries), complete))
  }

  /** Every boundary, title-cased, has a map row, and every map row belongs to a
      boundary. */
  lemma DensityMapCoversBoundaries(boundaries: seq<Feature>, complete: seq<CompleteRow>)
    ensures var rows := DensityMapRows(boundaries, complete);
      (forall k :: 0 <= k < |boundaries| ==>
        exists i :: 0 <= i < |rows| && rows[i].feature == boundaries[k].(name := Title(boundaries[k].name))) &&
      (forall i :: 0 <= i < |rows| ==>
        exists k :: 0 <= k < |boundaries| && rows[i].feature == boundaries[k].(name := Title(boundaries[k].name)))
  {
    var fs := TitleNames(boundaries);
    var m := LeftMerge(fs, complete, FeatureKey, CompleteKey);
    var rows := DensityMapRows(boundaries, complete);
    MergeKeepsLeft(fs, complete, FeatureKey, CompleteKey);
    assert forall i :: 0 <= i < |rows| ==> rows[i].feature == m[i].0;
    forall k | 0 <= k < |boundaries|
      ensures exists i :: 0 <= i < |rows| && rows[i].feature == boundaries[k].(name := Title(boundaries[k].name))
    {
      assert fs[k] == boundaries[k].(name := Title(boundaries[k].name));
      var i :| 0 <= i < |m| && m[i].0 == fs[k];
      assert rows[i].feature == fs[k];
    }
    forall i | 0 <= i < |rows|
      ensures exists k :: 0 <= k < |boundaries| && rows[i].feature == boundaries[k].(name := Title(boundaries[k].name))
    {
      var k :| 0 <= k < |fs| && fs[k] == m[i].0;
      assert rows[i].feature == fs[k];
    }
  }

  // ---------------------------------------------------------------------------
  // Diagnostics
  // ---------------------------------------------------------------------------

  /** The order of densities: -inf below every real number, +inf above. */
  predicate DensityLe(a: Density, b: Density)
  {
    match (a, b)
    case (NegInf, _) => true
    case (_, PosInf) => true
    case (Finite(x), Finite(y)) => x <= y
    case _ => false
  }

  /** The mask `Densidade > 0`. */
  predicate IsPositive(d: Density)
  {
    d.PosInf? || (d.Finite? && d.value > 0.0)
  }

  predicate HasPositiveDensity(r: MapRow)
  {
    r.density.Some? && IsPositive(r.density.value)
  }

  function Densities(rows: seq<MapRow>): (r: seq<Option<Density>>)
    ensures |r| == |rows|
  {
    seq(|rows|, i requires 0 <= i < |rows| => rows[i].density)
  }

  /** `Series.max()`: missing values are skipped; missing when every value is. */
  function MaxDensity(ds: seq<Option<Density>>): (r: Option<Density>)
    ensures r.None? <==> forall i :: 0 <= i < |ds| ==> ds[i].None?
    ensures r.Some? ==> r in ds
    ensures r.Some? ==> forall i :: 0 <= i < |ds| && ds[i].Some? ==> DensityLe(ds[i].value, r.value)
  {
    if ds == [] then None
    else
      var m := MaxDensity(ds[1..]);
      assert forall i :: 1 <= i < |ds| ==> ds[i] == ds[1..][i - 1];
      if ds[0].None? then m
      else if m.None? || DensityLe(m.value, ds[0].value) then ds[0]
      else m
  }

  /** `Series.min()`: missing values are skipped; missing when every value is. */
  function MinDensity(ds: seq<Option<Density>>): (r: Option<Density>)
    ensures r.None? <==> forall i :: 0 <= i < |ds| ==> ds[i].None?
    ensures r.Some? ==> r in ds
    ensures r.Some? ==> forall i :: 0 <= i < |ds| && ds[i].Some? ==> DensityLe(r.value, ds[i].value)
  {
    if ds == [] then None
    else
      var m := MinDensity(ds[1..]);
      assert forall i :: 1 <= i < |ds| ==> ds[i] == ds[1..][i - 1];
      if ds[0].None? then m
      else if m.None? || DensityLe(ds[0].value, m.value) then ds[0]
      else m
  }

  /** The legend ticks `round(max_dens/4.1)` and `round(max_dens*3/4.1)` exist only
      for a finite `max_dens`: `round` of an infinity raises OverflowError and of a
      missing value ValueError, both reaching the generic handler after the
      diagnostics are printed. */
  predicate LegendScales(maxDensity: Option<Density>)
  {
    maxDensity.Some? && maxDensity.value.Finite?
  }

  /** The printed diagnostics: `min_dens` over the rows with a positive density, and
      `max_dens` over all rows. */
  datatype DensityOutput = DensityOutput(rows: seq<MapRow>, minDensity: Option<Density>, maxDensity: Option<Density>)

  function Diagnostics(rows: seq<MapRow>): DensityOutput
  {
    DensityOutput(rows, MinDensity(Densities(Filter(rows, HasPositiveDensity))), MaxDensity(Densities(rows)))
  }

  // ---------------------------------------------------------------------------
  // The script
  // ---------------------------------------------------------------------------

  /** The script: an absent GeoJSON layer makes `gpd.read_file` fail with an error
      that is not a FileNotFoundError, so the generic handler reports it as
      Unexpected; an absent CSV table or Excel sheet gives NotFound (the layers are
      read first); a missing household or
      municipality column gives the KeyError naming it, and otherwise the filled
      boundary join with its diagnostics. */
  function DensityScript(boundaries: Option<seq<Feature>>, states: Option<seq<Feature>>,
                         table: Option<seq<SystemsRow>>, households: Option<Sheet>): (r: Result<DensityOutput>)
    ensures r == Err(Unexpected) <==> boundaries.None? || states.None?
    ensures r == Err(NotFound) <==> boundaries.Some? && states.Some? && (table.None? || households.None?)
    ensures boundaries.Some? && states.Some? && table.Some? && households.Some? ==>
      (r == Err(SchemaError(HouseholdsColumn)) <==> HouseholdsColumn !in RenameAll(StripAll(households.value.header)))
    ensures boundaries.Some? && states.Some? && table.Some? && households.Some? ==>
      (r == Err(SchemaError(MunicipioColumn)) <==>
        HouseholdsColumn in RenameAll(StripAll(households.value.header)) &&
        MunicipioColumn !in RenameAll(StripAll(households.value.header)))
    ensures r.Err? ==> r.error == Unexpected || r.error == NotFound || r.error == SchemaError(HouseholdsColumn) || r.error == SchemaError(MunicipioColumn)
    ensures r.Ok? <==>
      && boundaries.Some? && states.Some? && table.Some? && households.Some?
      && HouseholdsColumn in RenameAll(StripAll(households.value.header))
      && MunicipioColumn in RenameAll(StripAll(households.value.header))
    ensures r.Ok? ==> |r.value.rows| >= |boundaries.value|
    ensures r.Ok? ==> forall k :: 0 <= k < |boundaries.value| ==>
      exists i :: 0 <= i < |r.value.rows| &&
        r.value.rows[i].feature == boundaries.value[k].(name := Title(boundaries.value[k].name))
  {
    if boundaries.None? || states.None? then Err(Unexpected)
    else if table.None? || households.None? then Err(NotFound)
    else match HouseholdTable(households.value)
      case Err(e) => Err(e)
      case Ok(hs) =>
        var rows := DensityMapRows(boundaries.value, CompleteTable(table.value, hs));
        MergedAtLeastLeft(TitleNames(boundaries.value), CompleteTable(table.value, hs), FeatureKey, CompleteKey);
        DensityMapCoversBoundaries(boundaries.value, CompleteTable(table.value, hs));
        Ok(Diagnostics(rows))
  }

  /** Lines 34-42 on the household frame: trim and rename the header, clean and
      convert the household column, and select the two columns. */
  method PrepareHouseholds(sheet: Sheet) returns (r: Result<seq<Household>>)
    ensures r == HouseholdTable(sheet)
  {
    var domicilios := new HouseholdSheet(sheet);
    domicilios.StripHeaders();
    domicilios.RenameHeaders();
    var found := domicilios.CleanHouseholds();
    if !found {
      return Err(SchemaError(HouseholdsColumn));
    }
    domicilios.ParseHouseholds();
    r := SelectHouseholds(domicilios.header, domicilios.rows);
  }

  /** Lines 46-50: title-case both key columns, join, assign and fill the density. */
  method JoinHouseholds(table: seq<SystemsRow>, hs: seq<Household>) returns (rows: seq<CompleteRow>)
    ensures rows == CompleteTable(table, hs)
  {
    var dadosSistemas := new SystemsFrame(table);
    dadosSistemas.TitleCaseMunicipios();
    var dfDomicilios := new HouseholdFrame(hs);
    dfDomicilios.TitleCaseMunicipios();
    var dadosCompletos := new CompleteFrame(MergeHouseholds(dadosSistemas.rows, dfDomicilios.rows));
    dadosCompletos.AssignDensity();
    dadosCompletos.FillDensity();
    rows := dadosCompletos.rows;
  }

  /** Lines 52-54: title-case the boundary names, join, and fill the density. */
  method JoinBoundaries(boundaries: seq<Feature>, complete: seq<CompleteRow>) returns (rows: seq<MapRow>)
    ensures rows == DensityMapRows(boundaries, complete)
  {
    var mapaPi := new BoundaryFrame(boundaries);
    mapaPi.TitleCaseNames();
    var mapaCompleto := new MapFrame(MergeComplete(mapaPi.features, complete));
    mapaCompleto.FillDensity();
    rows := mapaCompleto.rows;
  }

  /** The script's steps in order, with the in-place updates on the frames; it
      computes `DensityScript`. */
  method RunDensityMap(boundaries: Option<seq<Feature>>, states: Option<seq<Feature>>,
                       table: Option<seq<SystemsRow>>, households: Option<Sheet>) returns (r: Result<DensityOutput>)
    ensures r == DensityScript(boundaries, states, table, households)
  {
    if boundaries.None? || states.None? {
      return Err(Unexpected);
    }
    if table.None? || households.None? {
      return Err(NotFound);
    }
    var selected := PrepareHouseholds(households.value);
    if selected.Err? {
      return Err(selected.error);
    }
    var complete := JoinHouseholds(table.value, selected.value);
    var rows := JoinBoundaries(boundaries.value, complete);
    r := Ok(Diagnostics(rows));
  }

  // ---------------------------------------------------------------------------
  // Properties of the household column
  // ---------------------------------------------------------------------------

  /** IBGE's thousands separator is removed before the conversion: "12.345" is 12345. */
  lemma HouseholdCountExample()
    ensures ToNumeric(CleanCell(Text("12.345"))) == Number(12345)
  {
    assert "12.345" == "12" + "." + "345";
    RemoveDotsBetween("12", "345");
    assert "12" + "345" == "12345";
    DigitsExample();
    assert ParseInt("12345") == Some(12345);
  }

  lemma DigitsExample()
    ensures AllDigits("12345") && DigitsValue("12345") == 12345
  {
    var d := "12345";
    assert d[..4] == "1234";
    assert "1234"[..3] == "123";
    assert "123"[..2] == "12";
    assert "12"[..1] == "1";
    assert "1"[..0] == "";
    assert DigitsValue("1") == 1;
    assert DigitsValue("12") == 12;
    assert DigitsValue("123") == 123;
    assert DigitsValue("1234") == 1234;
  }

  /** Cleaning a cleaned household cell changes nothing. */
  lemma CleanCellIdempotent(c: Cell)
    ensures CleanCell(CleanCell(c)) == CleanCell(c)
  {
    RemoveDotsIdempotent(AsText(c));
  }

  /** A count the spreadsheet already holds as an integer survives the text
      round trip of the cleaning and the numeric conversion. */
  lemma CleanNumberRoundTrip(n: int)
    ensures ToNumeric(CleanCell(Number(n))) == Number(n)
  {
    var s := ShowInt(n);
    assert forall i :: 0 <= i < |s| ==> NotDot(s[i]) by {
      if n < 0 {
        assert forall i :: 1 <= i < |s| ==> s[i] == ShowNat(-n)[i - 1];
      }
    }
    FilterAll(s, NotDot);
    ParseShowInt(n);
  }

  /** Each row of the cleaned household table carries that spreadsheet row's
      municipality cell and the household count read from the text of its household
      cell once the dots are removed: missing when that text is not an integer, or
      when the row has no such cell. */
  lemma HouseholdTableRows(sheet: Sheet)
    ensures HouseholdTable(sheet).Ok? ==>
      var header := RenameAll(StripAll(sheet.header));
      var hs := HouseholdTable(sheet).value;
      forall i :: 0 <= i < |sheet.rows| ==>
        hs[i].municipio == CellAt(sheet.rows[i], IndexOf(header, MunicipioColumn).value) &&
        hs[i].households == ParseInt(RemoveDots(AsText(CellAt(sheet.rows[i], IndexOf(header, HouseholdsColumn).value))))
  {
    if HouseholdTable(sheet).Ok? {
      var header := RenameAll(StripAll(sheet.header));
      var k := IndexOf(header, HouseholdsColumn).value;
      var m := IndexOf(header, MunicipioColumn).value;
      var rows := UpdateColumn(UpdateColumn(sheet.rows, k, CleanCell), k, ToNumeric);
      var hs := HouseholdTable(sheet).value;
      assert hs == SelectHouseholds(header, rows).value;
      forall i | 0 <= i < |sheet.rows|
        ensures hs[i].municipio == CellAt(sheet.rows[i], m)
        ensures hs[i].households == ParseInt(RemoveDots(AsText(CellAt(sheet.rows[i], k))))
      {
        assert hs[i] == Household(CellAt(rows[i], m), HouseholdOf(CellAt(rows[i], k)));
        CleanedRowAt(sheet.rows, k, m, i);
      }
    }
  }

  /** Cell `k` of row `i` after both rewrites of column `k`, and any other cell `m`
      of that row, which the rewrites leave alone. */
  lemma CleanedRowAt(rows: seq<seq<Cell>>, k: nat, m: nat, i: nat)
    requires i < |rows| && m != k
    ensures var after := UpdateColumn(UpdateColumn(rows, k, CleanCell), k, ToNumeric)[i];
      CellAt(after, m) == CellAt(rows[i], m) &&
      HouseholdOf(CellAt(after, k)) == ParseInt(RemoveDots(AsText(CellAt(rows[i], k))))
  {
    var once := UpdateColumn(rows, k, CleanCell)[i];
    var after := UpdateColumn(UpdateColumn(rows, k, CleanCell), k, ToNumeric)[i];
    assert once == if k < |rows[i]| then rows[i][k := CleanCell(rows[i][k])] else rows[i];
    assert after == if k < |once| then once[k := ToNumeric(once[k])] else once;
    CleanedCellAt(rows[i], k);
  }

  /** One row's household cell after the cleaning and the conversion, read as a
      count: the integer value of its dot-free text, where a missing cell reads
      as the text "nan". */
  lemma CleanedCellAt(row: seq<Cell>, k: nat)
    ensures var after := if k < |row| then row[k := ToNumeric(CleanCell(row[k]))] else row;
      HouseholdOf(CellAt(after, k)) == ParseInt(RemoveDots(AsText(CellAt(row, k))))
  {
    if k >= |row| {
      assert RemoveDots("nan") == "nan" by {
        assert "nan"[1..] == "an" && "nan"[1..][1..] == "n" && "n"[1..] == "";
        assert Filter("n", NotDot) == "n";
      }
      assert !IsDigit('n');
    }
  }

  lemma HouseholdsHeaderTrimmed()
    ensures IsTrimmed(HouseholdsHeader)
  {
    var h := HouseholdsHeader;
    assert h[0] == 'D' && h[|h| - 1] == 's';
  }

  /** A household header padded with whitespace still resolves after the trim and
      the rename. */
  lemma PaddedHouseholdHeaderResolves(header: seq<string>, left: string, right: string)
    requires AllSpace(left) && AllSpace(right)
    requires left + HouseholdsHeader + right in header
    ensures HouseholdsColumn in RenameAll(StripAll(header))
  {
    var i :| 0 <= i < |header| && header[i] == left + HouseholdsHeader + right;
    HouseholdsHeaderTrimmed();
    StripPadded(left, HouseholdsHeader, right);
    assert StripAll(header)[i] == HouseholdsHeader;
  }

  // ---------------------------------------------------------------------------
  // Properties of the household join and the density
  // ---------------------------------------------------------------------------

  /** No title-cased municipality of the table equals two title-cased household
      names. */
  ghost predicate HouseholdsMatchOnce(table: seq<SystemsRow>, hs: seq<Household>)
  {
    forall i :: 0 <= i < |table| ==> KeyAtMostOnce(TitleHouseholds(hs), HouseholdKey, Text(Title(table[i].municipio)))
  }

  /** When no municipality matches two household rows, `dados_completos` has one row
      per row of the table, in order, with the title-cased municipality and the count
      kept; a row whose title-cased name equals a title-cased household name carries
      that household count, and any other row has none. */
  lemma CompleteTableRows(table: seq<SystemsRow>, hs: seq<Household>)
    requires HouseholdsMatchOnce(table, hs)
    ensures var c := CompleteTable(table, hs);
      |c| == |table| &&
      (forall i :: 0 <= i < |table| ==>
        c[i].municipio == Title(table[i].municipio) && c[i].systems == table[i].systems) &&
      (forall i, j :: (0 <= i < |table| && 0 <= j < |hs| && TitleCell(hs[j].municipio) == Text(Title(table[i].municipio))) ==>
        c[i].households == hs[j].households) &&
      (forall i :: (0 <= i < |table| && forall j :: 0 <= j < |hs| ==> TitleCell(hs[j].municipio) != Text(Title(table[i].municipio))) ==>
        c[i].households == None)
  {
    var ts := TitleMunicipios(table);
    var th := TitleHouseholds(hs);
    assert forall i :: 0 <= i < |ts| ==> AggregateKey(ts[i]) == Text(Title(table[i].municipio));
    MergeOneToOne(ts, th, AggregateKey, HouseholdKey);
    var m := LeftMerge(ts, th, AggregateKey, HouseholdKey);
    var c := CompleteTable(table, hs);
    forall i, j | 0 <= i < |table| && 0 <= j < |hs| && TitleCell(hs[j].municipio) == Text(Title(table[i].municipio))
      ensures c[i].households == hs[j].households
    {
      assert HouseholdKey(th[j]) == AggregateKey(ts[i]);
      assert m[i].1 == Some(th[j]);
    }
    forall i | 0 <= i < |table| && forall j :: 0 <= j < |hs| ==> TitleCell(hs[j].municipio) != Text(Title(table[i].municipio))
      ensures c[i].households == None
    {
      assert forall j :: 0 <= j < |th| ==> HouseholdKey(th[j]) != AggregateKey(ts[i]);
      assert m[i].1.None?;
    }
  }

  /** Every density of `dados_completos` is defined after the fill: 0 where the
      household count is missing or for 0/0, `v` with `v * households == systems *
      1000` for a non-zero household count (non-negative when both counts are),
      and an infinity, which the fill does not touch, for a non-zero count over
      zero households. */
  lemma CompleteTableDensity(table: seq<SystemsRow>, hs: seq<Household>)
    ensures var c := CompleteTable(table, hs);
      forall i :: 0 <= i < |c| ==>
        c[i].density.Some? &&
        (c[i].households.None? ==> c[i].density == Some(Finite(0.0))) &&
        (c[i].households.Some? && c[i].households.value != 0 ==>
          c[i].density.value.Finite? &&
          c[i].density.value.value * (c[i].households.value as real) == (c[i].systems as real) * 1000.0) &&
        (c[i].households.Some? && c[i].households.value > 0 && c[i].systems >= 0 ==> c[i].density.value.Finite? && c[i].density.value.value >= 0.0) &&
        (c[i].households == Some(0) ==>
          c[i].density == Some(if c[i].systems > 0 then PosInf else if c[i].systems < 0 then NegInf else Finite(0.0)))
  {
    var a := AssignDensities(MergeHouseholds(TitleMunicipios(table), TitleHouseholds(hs)));
    var c := CompleteTable(table, hs);
    forall i | 0 <= i < |c|
      ensures c[i].households == a[i].households && c[i].systems == a[i].systems
      ensures c[i].density == Some(Filled(Ratio(a[i].systems, a[i].households)))
    {
    }
  }

  /** A municipality written with trailing whitespace in the household table does
      not join: its row keeps no household count and its density is filled with 0. */
  lemma PaddedHouseholdNameDoesNotJoin()
    ensures var c := CompleteTable([SystemsRow("Teresina", 5)], [Household(Text("Teresina "), Some(10))]);
      |c| == 1 && c[0].households == None && c[0].density == Some(Finite(0.0))
  {
    var table := [SystemsRow("Teresina", 5)];
    var hs := [Household(Text("Teresina "), Some(10))];
    TitleAt("Teresina");
    TitleAt("Teresina ");
    assert TitleCell(hs[0].municipio) != Text(Title(table[0].municipio));
    CompleteTableRows(table, hs);
    CompleteTableDensity(table, hs);
  }

  /** A positive count over zero households is an infinite density, and the fill
      keeps it. */
  lemma ZeroHouseholdsExample()
    ensures var c := CompleteTable([SystemsRow("Teresina", 5)], [Household(Text("Teresina"), Some(0))]);
      |c| == 1 && c[0].density == Some(PosInf)
  {
    var table := [SystemsRow("Teresina", 5)];
    var hs := [Household(Text("Teresina"), Some(0))];
    CompleteTableRows(table, hs);
    CompleteTableDensity(table, hs);
  }

  /** 123 systems over 12345 households give 123 / 12345 * 1000 systems per 1000
      households. */
  lemma DensityExample()
    ensures var c := CompleteTable([SystemsRow("Teresina", 123)], [Household(Text("Teresina"), Some(12345))]);
      |c| == 1 && c[0].density.Some? && c[0].density.value.Finite? && c[0].density.value.value * 12345.0 == 123000.0
  {
    var table := [SystemsRow("Teresina", 123)];
    var hs := [Household(Text("Teresina"), Some(12345))];
    CompleteTableRows(table, hs);
    CompleteTableDensity(table, hs);
  }

  // ---------------------------------------------------------------------------
  // Properties of the boundary join and the diagnostics
  // ---------------------------------------------------------------------------

  /** When no title-cased boundary name occurs twice in `dados_completos`, the filled
      boundary join has one row per boundary, in order, carrying the boundary with
      only its name title-cased; a matched boundary gets the matched row's
      municipality, counts and density (a density already defined is not
      changed by the fill), and an unmatched one gets density 0 while its system and
      household counts stay missing. */
  lemma DensityMapOneRowPerBoundary(boundaries: seq<Feature>, complete: seq<CompleteRow>)
    requires forall i :: 0 <= i < |boundaries| ==> KeyAtMostOnce(complete, CompleteKey, Title(boundaries[i].name))
    ensures var m := DensityMapRows(boundaries, complete);
      |m| == |boundaries| &&
      (forall i :: 0 <= i < |boundaries| ==>
        m[i].feature == boundaries[i].(name := Title(boundaries[i].name)) && m[i].density.Some?) &&
      (forall i, j :: (0 <= i < |boundaries| && 0 <= j < |complete| && complete[j].municipio == Title(boundaries[i].name)) ==>
        m[i].municipio == Some(complete[j].municipio) && m[i].systems == Some(complete[j].systems) &&
        m[i].households == complete[j].households &&
        (complete[j].density.Some? ==> m[i].density == complete[j].density)) &&
      (forall i :: (0 <= i < |boundaries| && forall j :: 0 <= j < |complete| ==> complete[j].municipio != Title(boundaries[i].name)) ==>
        m[i].density == Some(Finite(0.0)) && m[i].systems == None && m[i].households == None && m[i].municipio == None)
  {
    var fs := TitleNames(boundaries);
    assert forall i :: 0 <= i < |fs| ==> FeatureKey(fs[i]) == Title(boundaries[i].name);
    MergeOneToOne(fs, complete, FeatureKey, CompleteKey);
    var mm := LeftMerge(fs, complete, FeatureKey, CompleteKey);
    var m := DensityMapRows(boundaries, complete);
    forall i, j | 0 <= i < |boundaries| && 0 <= j < |complete| && complete[j].municipio == Title(boundaries[i].name)
      ensures m[i].municipio == Some(complete[j].municipio) && m[i].systems == Some(complete[j].systems)
      ensures m[i].households == complete[j].households
      ensures complete[j].density.Some? ==> m[i].density == complete[j].density
    {
      assert CompleteKey(complete[j]) == FeatureKey(fs[i]);
      assert mm[i].1 == Some(complete[j]);
    }
    forall i | 0 <= i < |boundaries| && forall j :: 0 <= j < |complete| ==> complete[j].municipio != Title(boundaries[i].name)
      ensures m[i].density == Some(Finite(0.0)) && m[i].systems == None && m[i].households == None && m[i].municipio == None
    {
      assert forall j :: 0 <= j < |complete| ==> CompleteKey(complete[j]) != FeatureKey(fs[i]);
      assert mm[i].1.None?;
    }
  }

  /** With unique title-cased names in the per-municipality table and no municipality
      matching two household rows, no boundary name occurs twice in
      `dados_completos`. */
  lemma CompleteKeysOnce(table: seq<SystemsRow>, hs: seq<Household>, k: string)
    requires UniqueTitledKeys(table) && HouseholdsMatchOnce(table, hs)
    ensures KeyAtMostOnce(CompleteTable(table, hs), CompleteKey, k)
  {
    CompleteTableRows(table, hs);
  }

  /** The whole join chain: under the two uniqueness conditions the map has one row
      per boundary, every density is defined, a boundary that matches a table row gets
      that row's count, and one that matches none gets density 0 and no count. */
  lemma DensityMapChain(boundaries: seq<Feature>, table: seq<SystemsRow>, hs: seq<Household>)
    requires UniqueTitledKeys(table) && HouseholdsMatchOnce(table, hs)
    ensures var m := DensityMapRows(boundaries, CompleteTable(table, hs));
      |m| == |boundaries| &&
      (forall i :: 0 <= i < |m| ==> m[i].density.Some?) &&
      (forall i, j :: (0 <= i < |boundaries| && 0 <= j < |table| && Title(table[j].municipio) == Title(boundaries[i].name)) ==>
        m[i].systems == Some(table[j].systems)) &&
      (forall i :: (0 <= i < |boundaries| && forall j :: 0 <= j < |table| ==> Title(table[j].municipio) != Title(boundaries[i].name)) ==>
        m[i].density == Some(Finite(0.0)) && m[i].systems == None)
  {
    var c := CompleteTable(table, hs);
    CompleteTableRows(table, hs);
    forall i | 0 <= i < |boundaries| ensures KeyAtMostOnce(c, CompleteKey, Title(boundaries[i].name)) {
      CompleteKeysOnce(table, hs, Title(boundaries[i].name));
    }
    DensityMapOneRowPerBoundary(boundaries, c);
  }

  /** `min_dens` is missing exactly when no row has a positive density, and
      otherwise is positive, is the density of some row, and is at most every
      positive density. */
  lemma LeastPositiveDensity(rows: seq<MapRow>)
    ensures var lo := Diagnostics(rows).minDensity;
      (lo.None? <==> forall i :: 0 <= i < |rows| ==> !HasPositiveDensity(rows[i])) &&
      (lo.Some? ==>
        IsPositive(lo.value) && (exists i :: 0 <= i < |rows| && rows[i].density == lo) &&
        forall i :: 0 <= i < |rows| && HasPositiveDensity(rows[i]) ==> DensityLe(lo.value, rows[i].density.value))
  {
    var pos := Filter(rows, HasPositiveDensity);
    var ds := Densities(pos);
    assert forall k :: 0 <= k < |pos| ==> ds[k] == pos[k].density && HasPositiveDensity(pos[k]);
    var lo := MinDensity(ds);
    if lo.Some? {
      var k :| 0 <= k < |ds| && ds[k] == lo;
      assert pos[k] in rows;
      var i :| 0 <= i < |rows| && rows[i] == pos[k];
      forall i | 0 <= i < |rows| && HasPositiveDensity(rows[i])
        ensures DensityLe(lo.value, rows[i].density.value)
      {
        assert rows[i] in pos;
        var k :| 0 <= k < |pos| && pos[k] == rows[i];
        assert ds[k].Some?;
      }
    }
    if exists i :: 0 <= i < |rows| && HasPositiveDensity(rows[i]) {
      var i :| 0 <= i < |rows| && HasPositiveDensity(rows[i]);
      assert rows[i] in pos;
      var k :| 0 <= k < |pos| && pos[k] == rows[i];
      assert ds[k].Some?;
    }
  }

  /** `max_dens` is missing exactly when every density is (so, after the fill,
      exactly when there are no rows), and otherwise is the density of some row and
      at least every density. */
  lemma GreatestDensity(rows: seq<MapRow>)
    ensures var hi := Diagnostics(rows).maxDensity;
      (hi.None? <==> forall i :: 0 <= i < |rows| ==> rows[i].density.None?) &&
      (hi.Some? ==>
        (exists i :: 0 <= i < |rows| && rows[i].density == hi) &&
        forall i :: 0 <= i < |rows| && rows[i].density.Some? ==> DensityLe(rows[i].density.value, hi.value))
  {
    var all := Densities(rows);
    assert forall i :: 0 <= i < |rows| ==> all[i] == rows[i].density;
    var hi := MaxDensity(all);
    if hi.Some? {
      var k :| 0 <= k < |all| && all[k] == hi;
    }
  }

  /** An infinite density on any map row makes `max_dens` that infinity, so the
      legend ticks cannot be computed and the map is not drawn. */
  lemma InfiniteDensityStopsLegend(rows: seq<MapRow>, k: nat)
    requires k < |rows| && rows[k].density == Some(PosInf)
    ensures Diagnostics(rows).maxDensity == Some(PosInf)
    ensures !LegendScales(Diagnostics(rows).maxDensity)
  {
    GreatestDensity(rows);
    var hi := Diagnostics(rows).maxDensity;
    assert DensityLe(rows[k].density.value, hi.value);
  }

  /** The legend scales exactly when some map row has a finite density and none has
      +inf; in particular it fails on a layer with no rows. */
  lemma LegendScalesIff(rows: seq<MapRow>)
    ensures LegendScales(Diagnostics(rows).maxDensity) <==>
      (exists i :: 0 <= i < |rows| && rows[i].density.Some? && rows[i].density.value.Finite?) &&
      forall i :: 0 <= i < |rows| ==> rows[i].density != Some(PosInf)
  {
    GreatestDensity(rows);
    var hi := Diagnostics(rows).maxDensity;
    if LegendScales(hi) {
      var j :| 0 <= j < |rows| && rows[j].density == hi;
      forall i | 0 <= i < |rows| ensures rows[i].density != Some(PosInf) {
        if rows[i].density.Some? {
          assert DensityLe(rows[i].density.value, hi.value);
        }
      }
    }
    if (exists i :: 0 <= i < |rows| && rows[i].density.Some? && rows[i].density.value.Finite?) &&
       forall i :: 0 <= i < |rows| ==> rows[i].density != Some(PosInf) {
      var j :| 0 <= j < |rows| && rows[j].density.Some? && rows[j].density.value.Finite?;
      assert DensityLe(rows[j].density.value, hi.value);
      var m :| 0 <= m < |rows| && rows[m].density == hi;
    }
  }
}
