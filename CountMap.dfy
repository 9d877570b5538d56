/** The join of criar_mapa_pi.py: boundary features are left-joined to the
    per-municipality table on title-cased municipality names, an unmatched count
    becomes 0, and the features with a positive count are selected for colouring. */
module CountMap {
  import opened Common
  import opened Text
  import opened Joins
  import opened Frames

  /** A row of `mapa_completo_pi`: the boundary feature and the columns the join
      brings from the per-municipality table (missing when nothing matched). */
  datatype CountRow = CountRow(feature: Feature, municipio: Option<string>, systems: Option<int>)

  function ToCountRow(p: (Feature, Option<SystemsRow>)): CountRow
  {
    match p.1
    case None => CountRow(p.0, None, None)
    case Some(s) => CountRow(p.0, Some(s.municipio), Some(s.systems))
  }

  /** `mapa_pi.merge(dados_sistemas, left_on='name', right_on='municipio', how='left')` */
  function Merge(fs: seq<Feature>, rows: seq<SystemsRow>): (r: seq<CountRow>)
    ensures |r| == |LeftMerge(fs, rows, FeatureKey, RowKey)|
  {
    var m := LeftMerge(fs, rows, FeatureKey, RowKey);
    seq(|m|, i requires 0 <= i < |m| => ToCountRow(m[i]))
  }

  /** `fillna(0)` on `Numero_Sistemas`: a missing count becomes 0, any other is kept. */
  function FillCounts(rows: seq<CountRow>): (r: seq<CountRow>)
    ensures |r| == |rows|
  {
    seq(|rows|, i requires 0 <= i < |rows| =>
      if rows[i].systems.None? then rows[i].(systems := Some(0)) else rows[i])
  }

  /** The mask `mapa_completo_pi['Numero_Sistemas'] > 0`. */
  predicate HasSystems(r: CountRow)
  {
    r.systems.Some? && r.systems.value > 0
  }

  /** The joined table; its `Numero_Sistemas` column is filled in place. */
  class CountFrame {
    var rows: seq<CountRow>

    constructor (rs: seq<CountRow>)
      ensures rows == rs
    {
      rows := rs;
    }

    /** `mapa_completo_pi['Numero_Sistemas'] = mapa_completo_pi['Numero_Sistemas'].fillna(0)` */
    method FillSystems()
      modifies this
      ensures rows == FillCounts(old(rows))
    {
      rows := FillCounts(rows);
    }
  }

  /** `mapa_completo_pi` as the script leaves it before plotting. */
  function CompleteMap(boundaries: seq<Feature>, table: seq<SystemsRow>): seq<CountRow>
  {
    FillCounts(Merge(TitleNames(boundaries), TitleMunicipios(table)))
  }

  /** The number of rows of the table whose name title-cases to `key`. */
  function MatchCount(table: seq<SystemsRow>, key: string): nat
  {
    if table == [] then 0
    else (if Title(table[0].municipio) == key then 1 else 0) + MatchCount(table[1..], key)
  }

  datatype Output = Output(complete: seq<CountRow>, withSystems: seq<CountRow>)

  /** The script: an absent GeoJSON layer makes `gpd.read_file` fail with an error
      that is not a FileNotFoundError, so the generic handler reports it as
      Unexpected; an absent CSV table gives NotFound; otherwise the filled join and
      its rows with a positive count. The layers are read before the table. */
  function CountScript(boundaries: Option<seq<Feature>>, states: Option<seq<Feature>>,
                       table: Option<seq<SystemsRow>>): (r: Result<Output>)
    ensures r == Err(Unexpected) <==> boundaries.None? || states.None?
    ensures r == Err(NotFound) <==> boundaries.Some? && states.Some? && table.None?
    ensures r.Err? ==> r.error == Unexpected || r.error == NotFound
    ensures r.Ok? ==> |r.value.complete| >= |boundaries.value|
    ensures r.Ok? ==> forall k :: 0 <= k < |boundaries.value| ==>
      exists i :: 0 <= i < |r.value.complete| &&
        r.value.complete[i].feature == boundaries.value[k].(name := Title(boundaries.value[k].name))
    ensures r.Ok? ==> forall i :: 0 <= i < |r.value.withSystems| ==>
      r.value.withSystems[i] in r.value.complete && HasSystems(r.value.withSystems[i])
  {
    if boundaries.None? || states.None? then Err(Unexpected)
    else if table.None? then Err(NotFound)
    else
      MergedAtLeastLeft(TitleNames(boundaries.value), TitleMunicipios(table.value), FeatureKey, RowKey);
      CompleteMapCoversBoundaries(boundaries.value, table.value);
      var complete := CompleteMap(boundaries.value, table.value);
      Ok(Output(complete, Filter(complete, HasSystems)))
  }

  /** The script's steps in order, with the three in-place column updates on the
      frames; it computes `CountScript`. */
  method RunCountMap(boundaries: Option<seq<Feature>>, states: Option<seq<Feature>>,
                     table: Option<seq<SystemsRow>>) returns (r: Result<Output>)
    ensures r == CountScript(boundaries, states, table)
  {
    if boundaries.None? || states.None? {
      return Err(Unexpected);
    }
    if table.None? {
      return Err(NotFound);
    }
    var mapaPi := new BoundaryFrame(boundaries.value);
    var dadosSistemas := new SystemsFrame(table.value);
    mapaPi.TitleCaseNames();
    dadosSistemas.TitleCaseMunicipios();
    var mapaCompleto := new CountFrame(Merge(mapaPi.features, dadosSistemas.rows));
    mapaCompleto.FillSystems();
    var comSistemas := Filter(mapaCompleto.rows, HasSystems);
    r := Ok(Output(mapaCompleto.rows, comSistemas));
  }

  // ---------------------------------------------------------------------------
  // Properties of the join
  // ---------------------------------------------------------------------------

  /** With title-cased names unique in the table, the filled join has exactly one row
      per boundary, in boundary order, carrying the boundary with only its name
      title-cased; a boundary whose title-cased name equals a title-cased table name
      gets that row's count, and any other boundary gets count 0 and no municipality. */
  lemma CompleteMapOneRowPerBoundary(boundaries: seq<Feature>, table: seq<SystemsRow>)
    requires UniqueTitledKeys(table)
    ensures var c := CompleteMap(boundaries, table);
      |c| == |boundaries| &&
      (forall i :: 0 <= i < |boundaries| ==>
        c[i].feature == boundaries[i].(name := Title(boundaries[i].name))) &&
      (forall i, j ::
        (0 <= i < |boundaries| && 0 <= j < |table| && Title(table[j].municipio) == Title(boundaries[i].name)) ==>
        c[i].systems == Some(table[j].systems) && c[i].municipio == Some(Title(table[j].municipio))) &&
      (forall i ::
        (0 <= i < |boundaries| && forall j :: 0 <= j < |table| ==> Title(table[j].municipio) != Title(boundaries[i].name)) ==>
        c[i].systems == Some(0) && c[i].municipio == None)
  {
    var fs := TitleNames(boundaries);
    var ts := TitleMunicipios(table);
    assert forall i :: 0 <= i < |fs| ==> KeyAtMostOnce(ts, RowKey, FeatureKey(fs[i]));
    MergeOneToOne(fs, ts, FeatureKey, RowKey);
    var m := LeftMerge(fs, ts, FeatureKey, RowKey);
    var c := CompleteMap(boundaries, table);
    forall i | 0 <= i < |boundaries| &&
        (forall j :: 0 <= j < |table| ==> Title(table[j].municipio) != Title(boundaries[i].name))
      ensures c[i].systems == Some(0) && c[i].municipio == None
    {
      assert forall j :: 0 <= j < |ts| ==> RowKey(ts[j]) != FeatureKey(fs[i]);
      assert m[i].1.None?;
    }
    forall i, j | 0 <= i < |boundaries| && 0 <= j < |table| &&
        Title(table[j].municipio) == Title(boundaries[i].name)
      ensures c[i].systems == Some(table[j].systems) && c[i].municipio == Some(Title(table[j].municipio))
    {
      assert RowKey(ts[j]) == FeatureKey(fs[i]);
      assert m[i].1 == Some(ts[j]);
    }
  }

  /** After the fill every count is defined; it is 0 or a count taken from the table,
      so it is non-negative when the table's counts are. */
  lemma CompleteMapCountsDefined(boundaries: seq<Feature>, table: seq<SystemsRow>)
    ensures var c := CompleteMap(boundaries, table);
      (forall i :: 0 <= i < |c| ==> c[i].systems.Some?) &&
      (forall i :: 0 <= i < |c| ==>
        (c[i].systems == Some(0) || exists j :: 0 <= j < |table| && c[i].systems == Some(table[j].systems))) &&
      ((forall j :: 0 <= j < |table| ==> table[j].systems >= 0) ==>
        forall i :: 0 <= i < |c| ==> c[i].systems.value >= 0)
  {
    var fs := TitleNames(boundaries);
    var ts := TitleMunicipios(table);
    var m := LeftMerge(fs, ts, FeatureKey, RowKey);
    MergedRightRows(fs, ts, FeatureKey, RowKey);
    var c := CompleteMap(boundaries, table);
    forall i | 0 <= i < |c| ensures c[i].systems == Some(0) ||
        exists j :: 0 <= j < |table| && c[i].systems == Some(table[j].systems)
    {
      if m[i].1.Some? {
        var j :| 0 <= j < |ts| && m[i].1.value == ts[j];
        assert c[i].systems == Some(table[j].systems);
      }
    }
  }

  /** With duplicate title-cased names in the table, one boundary yields one row per
      table row that matches it, in table order (the i-th row carries the i-th match's
      count and name), or a single row with count 0 when none does. */
  lemma CompleteMapDuplicates(f: Feature, table: seq<SystemsRow>)
    ensures var c := CompleteMap([f], table);
      var n := MatchCount(table, Title(f.name));
      |c| == (if n == 0 then 1 else n) &&
      (n == 0 ==> c[0].systems == Some(0) && c[0].municipio == None) &&
      (forall i :: 0 <= i < |c| ==> c[i].feature == f.(name := Title(f.name))) &&
      n == |Matches(TitleMunicipios(table), RowKey, Title(f.name))| &&
      (n > 0 ==> forall i :: 0 <= i < |c| ==>
        var t := Matches(TitleMunicipios(table), RowKey, Title(f.name))[i];
        c[i].systems == Some(t.systems) && c[i].municipio == Some(t.municipio))
  {
    var ts := TitleMunicipios(table);
    var g := f.(name := Title(f.name));
    var ms := Matches(ts, RowKey, g.name);
    MatchCountIsMatches(table, Title(f.name));
    assert TitleNames([f]) == [g];
    assert LeftMerge([g], ts, FeatureKey, RowKey)
      == RowsFor(g, ms) + LeftMerge([g][1..], ts, FeatureKey, RowKey);
    assert [g][1..] == [];
    assert LeftMerge([g], ts, FeatureKey, RowKey) == RowsFor(g, ms);
  }

  /** Every boundary, title-cased, has a row of the filled join, and every row of it
      belongs to a boundary. */
  lemma CompleteMapCoversBoundaries(boundaries: seq<Feature>, table: seq<SystemsRow>)
    ensures var c := CompleteMap(boundaries, table);
      (forall k :: 0 <= k < |boundaries| ==>
        exists i :: 0 <= i < |c| && c[i].feature == boundaries[k].(name := Title(boundaries[k].name))) &&
      (forall i :: 0 <= i < |c| ==>
        exists k :: 0 <= k < |boundaries| && c[i].feature == boundaries[k].(name := Title(boundaries[k].name)))
  {
    MergeKeepsLeft(TitleNames(boundaries), TitleMunicipios(table), FeatureKey, RowKey);
    CompleteMapFeatures(boundaries, table);
    BoundariesHaveRows(boundaries, table);
    RowsHaveBoundaries(boundaries, table);
  }

  lemma BoundariesHaveRows(boundaries: seq<Feature>, table: seq<SystemsRow>)
    requires var m := LeftMerge(TitleNames(boundaries), TitleMunicipios(table), FeatureKey, RowKey);
      forall k :: 0 <= k < |boundaries| ==> exists i :: 0 <= i < |m| && m[i].0 == TitleNames(boundaries)[k]
    requires var m := LeftMerge(TitleNames(boundaries), TitleMunicipios(table), FeatureKey, RowKey);
      var c := CompleteMap(boundaries, table);
      |c| == |m| && forall i :: 0 <= i < |c| ==> c[i].feature == m[i].0
    ensures var c := CompleteMap(boundaries, table);
      forall k :: 0 <= k < |boundaries| ==>
        exists i :: 0 <= i < |c| && c[i].feature == boundaries[k].(name := Title(boundaries[k].name))
  {
    var fs := TitleNames(boundaries);
    var m := LeftMerge(fs, TitleMunicipios(table), FeatureKey, RowKey);
    var c := CompleteMap(boundaries, table);
    forall k | 0 <= k < |boundaries|
      ensures exists i :: 0 <= i < |c| && c[i].feature == boundaries[k].(name := Title(boundaries[k].name))
    {
      var i :| 0 <= i < |m| && m[i].0 == fs[k];
      assert c[i].feature == fs[k];
    }
  }

  lemma RowsHaveBoundaries(boundaries: seq<Feature>, table: seq<SystemsRow>)
    requires var m := LeftMerge(TitleNames(boundaries), TitleMunicipios(table), FeatureKey, RowKey);
      forall i :: 0 <= i < |m| ==> m[i].0 in TitleNames(boundaries)
    requires var m := LeftMerge(TitleNames(boundaries), TitleMunicipios(table), FeatureKey, RowKey);
      var c := CompleteMap(boundaries, table);
      |c| == |m| && forall i :: 0 <= i < |c| ==> c[i].feature == m[i].0
    ensures var c := CompleteMap(boundaries, table);
      forall i :: 0 <= i < |c| ==>
        exists k :: 0 <= k < |boundaries| && c[i].feature == boundaries[k].(name := Title(boundaries[k].name))
  {
    var fs := TitleNames(boundaries);
    var m := LeftMerge(fs, TitleMunicipios(table), FeatureKey, RowKey);
    var c := CompleteMap(boundaries, table);
    forall i | 0 <= i < |c|
      ensures exists k :: 0 <= k < |boundaries| && c[i].feature == boundaries[k].(name := Title(boundaries[k].name))
    {
      var k :| 0 <= k < |fs| && fs[k] == m[i].0;
      assert c[i].feature == fs[k];
    }
  }

  /** Row i of the filled join carries the left side of merged row i. */
  lemma CompleteMapFeatures(boundaries: seq<Feature>, table: seq<SystemsRow>)
    ensures var m := LeftMerge(TitleNames(boundaries), TitleMunicipios(table), FeatureKey, RowKey);
      var c := CompleteMap(boundaries, table);
      |c| == |m| && forall i :: 0 <= i < |c| ==> c[i].feature == m[i].0
  {
  }

  /** The rows of several boundaries follow boundary order. */
  lemma CompleteMapAppend(a: seq<Feature>, b: seq<Feature>, table: seq<SystemsRow>)
    ensures CompleteMap(a + b, table) == CompleteMap(a, table) + CompleteMap(b, table)
  {
    var ts := TitleMunicipios(table);
    var fa := TitleNames(a);
    var fb := TitleNames(b);
    assert TitleNames(a + b) == fa + fb;
    MergeAppend(fa, fb, ts, FeatureKey, RowKey);
    MapAppend(LeftMerge(fa, ts, FeatureKey, RowKey), LeftMerge(fb, ts, FeatureKey, RowKey));
    FillAppend(Merge(fa, ts), Merge(fb, ts));
  }

  lemma MapAppend(x: seq<(Feature, Option<SystemsRow>)>, y: seq<(Feature, Option<SystemsRow>)>)
    ensures seq(|x + y|, i requires 0 <= i < |x + y| => ToCountRow((x + y)[i]))
      == seq(|x|, i requires 0 <= i < |x| => ToCountRow(x[i])) + seq(|y|, i requires 0 <= i < |y| => ToCountRow(y[i]))
  {
  }

  lemma FillAppend(x: seq<CountRow>, y: seq<CountRow>)
    ensures FillCounts(x + y) == FillCounts(x) + FillCounts(y)
  {
    assert forall i :: 0 <= i < |x + y| ==> FillCounts(x + y)[i] == (FillCounts(x) + FillCounts(y))[i];
  }

  /** The matches of a title-cased name among the title-cased table rows number
      `MatchCount`. */
  lemma {:induction false} MatchCountIsMatches(table: seq<SystemsRow>, k: string)
    ensures |Matches(TitleMunicipios(table), RowKey, k)| == MatchCount(table, k)
  {
    if table != [] {
      MatchCountIsMatches(table[1..], k);
      assert TitleMunicipios(table)[1..] == TitleMunicipios(table[1..]);
    }
  }

  /** `mapa_com_sistemas` is exactly the rows of the filled join with a positive
      count, in their order, and contains every copy of each. */
  lemma PositiveRowsSpec(rows: seq<CountRow>, x: CountRow)
    ensures IsSubsequence(Filter(rows, HasSystems), rows)
    ensures x in Filter(rows, HasSystems) <==> x in rows && x.systems.Some? && x.systems.value > 0
    ensures multiset(Filter(rows, HasSystems))[x] == if HasSystems(x) then multiset(rows)[x] else 0
  {
    FilterIsSubsequence(rows, HasSystems);
    FilterCounts(rows, HasSystems, x);
  }

  /** Title-casing does not trim: a boundary named "Teresina " with a trailing space
      does not join the table row "Teresina" and is coloured with count 0. */
  lemma PaddedNameDoesNotJoin(f: Feature)
    requires f.name == "Teresina "
    ensures var c := CompleteMap([f], [SystemsRow("Teresina", 7)]);
      |c| == 1 && c[0].systems == Some(0) && c[0].municipio == None
  {
    var table := [SystemsRow("Teresina", 7)];
    TitleAt("Teresina");
    TitleAt("Teresina ");
    assert Title(table[0].municipio) != Title(f.name);
    CompleteMapOneRowPerBoundary([f], table);
  }
}
