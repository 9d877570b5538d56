/** The filter, group-sum and sort of analise_energia_solar_pi.py: installation
    records of the regulator's spreadsheet are filtered by a fixed seven-clause rule,
    grouped by municipality with their system counts summed, and ordered by
    descending total. */
module SolarAnalysis {
  import opened Common
  import opened Text

  // ---------------------------------------------------------------------------
  // Column lookup after the header trim
  // ---------------------------------------------------------------------------

  /** The columns the script reads, in the order it first reads them: the seven
      filter columns, then the grouping column, then the summed column. */
  const Required: seq<string> :=
    ["uf", "fonte_resumo", "classe", "subgrupo", "modalidade", "mini_micro", "segmento",
     "municipio", "n_sistemas"]

  /** Looks the columns `names` up in `header` one after another; the first absent
      one stops the script with a KeyError naming it. */
  function Resolve(header: seq<string>, names: seq<string>): (r: Result<seq<nat>>)
    ensures r.Ok? <==> forall k :: 0 <= k < |names| ==> names[k] in header
    ensures r.Ok? ==> (|r.value| == |names| &&
      forall k :: 0 <= k < |names| ==> r.value[k] < |header| && header[r.value[k]] == names[k])
    ensures r.Err? ==>
      exists k :: 0 <= k < |names| && r.error == SchemaError(names[k]) &&
        names[k] !in header && forall k' :: 0 <= k' < k ==> names[k'] in header
  {
    if names == [] then Ok([])
    else match IndexOf(header, names[0])
      case None => Err(SchemaError(names[0]))
      case Some(i) =>
        match Resolve(header, names[1..])
        case Err(e) => Err(e)
        case Ok(ix) => Ok([i] + ix)
  }

  /** A column whose header carries whitespace on either side is still found by its
      bare name once the header is trimmed. */
  lemma PaddedColumnResolves(header: seq<string>, i: nat, left: string, name: string, right: string)
    requires i < |header| && header[i] == left + name + right
    requires AllSpace(left) && AllSpace(right) && IsTrimmed(name)
    ensures name in StripAll(header)
    ensures IndexOf(StripAll(header), name).Some?
  {
    StripPadded(left, name, right);
    assert StripAll(header)[i] == name;
  }

  lemma PaddedUfResolves()
    ensures Strip(" uf ") == "uf"
  {
    assert " uf " == " " + "uf" + " ";
    StripPadded(" ", "uf", " ");
  }

  // ---------------------------------------------------------------------------
  // Records and the filter
  // ---------------------------------------------------------------------------

  /** The cells of one row of the installation sheet that the script reads. */
  datatype Installation = Installation(
    uf: Cell, fonteResumo: Cell, classe: Cell, subgrupo: Cell, modalidade: Cell,
    miniMicro: Cell, segmento: Cell, municipio: Cell, systems: Cell)

  function RecordOf(row: seq<Cell>, ix: seq<nat>): Installation
    requires |ix| == |Required|
  {
    Installation(CellAt(row, ix[0]), CellAt(row, ix[1]), CellAt(row, ix[2]), CellAt(row, ix[3]),
                 CellAt(row, ix[4]), CellAt(row, ix[5]), CellAt(row, ix[6]), CellAt(row, ix[7]),
                 CellAt(row, ix[8]))
  }

  function Records(rows: seq<seq<Cell>>, ix: seq<nat>): (r: seq<Installation>)
    requires |ix| == |Required|
    ensures |r| == |rows|
  {
    seq(|rows|, i requires 0 <= i < |rows| => RecordOf(rows[i], ix))
  }

  /** The fixed selection rule: Piauí, photovoltaic, residential or rural class,
      subgroup B1 or B2, one of three generation modalities, micro-generation, and a
      residential segment. A text comparison never holds of a number or a blank. */
  predicate Keep(r: Installation)
  {
    r.uf == Text("PI") &&
    r.fonteResumo == Text("Fotovoltaica") &&
    r.classe in [Text("Residencial"), Text("Rural")] &&
    r.subgrupo in [Text("B1"), Text("B2")] &&
    r.modalidade in [Text("Geração na própria UC"), Text("Autoconsumo remoto"), Text("Geração compartilhada")] &&
    r.miniMicro in [Text("MicroGD")] &&
    r.segmento in [Text("residencial"), Text("residencial_remoto")]
  }

  /** A record survives the filter exactly when the rule holds of it; the surviving
      table is a subsequence of the input, so rows are only dropped, never altered,
      and every copy of a surviving record is kept. */
  lemma SurvivorsSpec(rs: seq<Installation>, x: Installation)
    ensures x in Filter(rs, Keep) <==> x in rs && Keep(x)
    ensures IsSubsequence(Filter(rs, Keep), rs)
    ensures multiset(Filter(rs, Keep))[x] == if Keep(x) then multiset(rs)[x] else 0
  {
    FilterIsSubsequence(rs, Keep);
    FilterCounts(rs, Keep, x);
  }

  // ---------------------------------------------------------------------------
  // Grouping by municipality with the system counts summed
  // ---------------------------------------------------------------------------

  /** One row of the aggregate: a municipality and its `Numero_Sistemas`. */
  datatype AggRow = AggRow(municipio: Cell, systems: int)

  /** What a record adds to its group's sum: its count, or nothing when blank
      (the sum skips missing values). */
  function Contribution(r: Installation): int
  {
    if r.systems.Number? then r.systems.value else 0
  }

  predicate HasKey(g: seq<AggRow>, k: Cell)
  {
    exists i :: 0 <= i < |g| && g[i].municipio == k
  }

  predicate UniqueMunicipios(g: seq<AggRow>)
  {
    forall i, j :: 0 <= i < j < |g| ==> g[i].municipio != g[j].municipio
  }

  /** The sum of the first row of `g` for `k`, or 0 when there is none. */
  function Lookup(g: seq<AggRow>, k: Cell): int
  {
    if g == [] then 0 else if g[0].municipio == k then g[0].systems else Lookup(g[1..], k)
  }

  function Total(g: seq<AggRow>): int
  {
    if g == [] then 0 else g[0].systems + Total(g[1..])
  }

  /** Sum of the counts of the records of municipality `k`. */
  function SystemsFor(rs: seq<Installation>, k: Cell): int
  {
    if rs == [] then 0
    else SystemsFor(rs[..|rs| - 1], k) + (if rs[|rs| - 1].municipio == k then Contribution(rs[|rs| - 1]) else 0)
  }

  /** Sum of the counts of the records that have a municipality. */
  function GroupedTotal(rs: seq<Installation>): int
  {
    if rs == [] then 0
    else GroupedTotal(rs[..|rs| - 1]) + (if rs[|rs| - 1].municipio != Blank then Contribution(rs[|rs| - 1]) else 0)
  }

  /** Sum of the counts of all records. */
  function SystemsTotal(rs: seq<Installation>): int
  {
    if rs == [] then 0 else SystemsTotal(rs[..|rs| - 1]) + Contribution(rs[|rs| - 1])
  }

  /** Adds `n` to the group of `k`, opening a new group at the end when there is none. */
  function AddTo(g: seq<AggRow>, k: Cell, n: int): seq<AggRow>
  {
    if g == [] then [AggRow(k, n)]
    else if g[0].municipio == k then [AggRow(k, g[0].systems + n)] + g[1..]
    else [g[0]] + AddTo(g[1..], k, n)
  }

  /** `groupby('municipio').agg(Numero_Sistemas=('n_sistemas', 'sum'))`: one row per
      municipality in order of first appearance; records without a municipality are
      dropped, as the grouping drops missing keys. */
  function GroupSum(rs: seq<Installation>): seq<AggRow>
  {
    if rs == [] then []
    else
      var g := GroupSum(rs[..|rs| - 1]);
      var r := rs[|rs| - 1];
      if r.municipio == Blank then g else AddTo(g, r.municipio, Contribution(r))
  }

  /** Membership and uniqueness of keys for a table with one row put in front. */
  lemma KeysCons(x: AggRow, g: seq<AggRow>)
    ensures forall k :: HasKey([x] + g, k) <==> k == x.municipio || HasKey(g, k)
    ensures UniqueMunicipios([x] + g) <==> UniqueMunicipios(g) && !HasKey(g, x.municipio)
  {
    var c := [x] + g;
    forall k ensures HasKey(c, k) <==> k == x.municipio || HasKey(g, k) {
      if HasKey(g, k) {
        var i :| 0 <= i < |g| && g[i].municipio == k;
        assert c[i + 1].municipio == k;
      }
      if HasKey(c, k) && k != x.municipio {
        var i :| 0 <= i < |c| && c[i].municipio == k;
        assert g[i - 1].municipio == k;
      }
      if k == x.municipio {
        assert c[0].municipio == k;
      }
    }
    if UniqueMunicipios(c) {
      forall i, j | 0 <= i < j < |g| ensures g[i].municipio != g[j].municipio {
        assert c[i + 1] == g[i] && c[j + 1] == g[j];
      }
      forall j | 0 <= j < |g| ensures g[j].municipio != x.municipio {
        assert c[0] == x && c[j + 1] == g[j];
      }
    }
    if UniqueMunicipios(g) && !HasKey(g, x.municipio) {
      forall i, j | 0 <= i < j < |c| ensures c[i].municipio != c[j].municipio {
        assert c[j] == g[j - 1];
        if i > 0 { assert c[i] == g[i - 1]; }
      }
    }
  }

  /** Adding to a group opens a group only for a new key, changes only that key's
      sum, and adds `n` to the grand total. */
  lemma AddToSpec(g: seq<AggRow>, k: Cell, n: int)
    ensures forall k' :: HasKey(AddTo(g, k, n), k') <==> HasKey(g, k') || k' == k
    ensures forall k' :: Lookup(AddTo(g, k, n), k') == Lookup(g, k') + (if k' == k then n else 0)
    ensures Total(AddTo(g, k, n)) == Total(g) + n
    ensures UniqueMunicipios(g) ==> UniqueMunicipios(AddTo(g, k, n))
  {
    AddToKeys(g, k, n);
    AddToSums(g, k, n);
  }

  lemma {:induction false} AddToKeys(g: seq<AggRow>, k: Cell, n: int)
    ensures forall k' :: HasKey(AddTo(g, k, n), k') <==> HasKey(g, k') || k' == k
    ensures UniqueMunicipios(g) ==> UniqueMunicipios(AddTo(g, k, n))
  {
    if g == [] {
      KeysCons(AggRow(k, n), []);
      assert AddTo(g, k, n) == [AggRow(k, n)] + [];
    } else {
      assert g == [g[0]] + g[1..];
      KeysCons(g[0], g[1..]);
      if g[0].municipio == k {
        KeysCons(AggRow(k, g[0].systems + n), g[1..]);
      } else {
        AddToKeys(g[1..], k, n);
        KeysCons(g[0], AddTo(g[1..], k, n));
      }
    }
  }

  lemma {:induction false} AddToSums(g: seq<AggRow>, k: Cell, n: int)
    ensures forall k' :: Lookup(AddTo(g, k, n), k') == Lookup(g, k') + (if k' == k then n else 0)
    ensures Total(AddTo(g, k, n)) == Total(g) + n
  {
    if g != [] && g[0].municipio != k {
      AddToSums(g[1..], k, n);
      assert AddTo(g, k, n) == [g[0]] + AddTo(g[1..], k, n);
    }
  }

  /** With unique municipalities every row's sum is the one `Lookup` finds. */
  lemma {:induction false} LookupAt(g: seq<AggRow>)
    requires UniqueMunicipios(g)
    ensures forall i :: 0 <= i < |g| ==> g[i].systems == Lookup(g, g[i].municipio)
  {
    if g != [] {
      var rest := g[1..];
      assert UniqueMunicipios(rest) by {
        forall i, j | 0 <= i < j < |rest| ensures rest[i].municipio != rest[j].municipio {
          assert rest[i] == g[i + 1] && rest[j] == g[j + 1];
        }
      }
      LookupAt(rest);
      forall i | 0 < i < |g| ensures g[i].systems == Lookup(g, g[i].municipio) {
        assert g[i] == rest[i - 1];
        assert g[i].municipio != g[0].municipio;
      }
    }
  }

  /** The grouping gives each municipality of a record exactly one row and no other
      row; each row's sum is the sum over that municipality's records, and the grand
      total is the sum over all records that have a municipality. */
  lemma {:induction false} GroupSumSpec(rs: seq<Installation>)
    ensures UniqueMunicipios(GroupSum(rs))
    ensures forall k :: HasKey(GroupSum(rs), k) <==>
      k != Blank && exists i :: 0 <= i < |rs| && rs[i].municipio == k
    ensures forall k :: k != Blank ==> Lookup(GroupSum(rs), k) == SystemsFor(rs, k)
    ensures forall i :: 0 <= i < |GroupSum(rs)| ==>
      GroupSum(rs)[i].systems == SystemsFor(rs, GroupSum(rs)[i].municipio)
    ensures Total(GroupSum(rs)) == GroupedTotal(rs)
  {
    var g := GroupSum(rs);
    if rs != [] {
      var init := rs[..|rs| - 1];
      var r := rs[|rs| - 1];
      var g0 := GroupSum(init);
      GroupSumSpec(init);
      if r.municipio != Blank {
        AddToSpec(g0, r.municipio, Contribution(r));
      }
      forall k ensures HasKey(g, k) <==> k != Blank && exists i :: 0 <= i < |rs| && rs[i].municipio == k {
        if k != Blank && (exists i :: 0 <= i < |rs| && rs[i].municipio == k) && k != r.municipio {
          var i :| 0 <= i < |rs| && rs[i].municipio == k;
          assert init[i].municipio == k;
        }
        if exists i :: 0 <= i < |init| && init[i].municipio == k {
          var i :| 0 <= i < |init| && init[i].municipio == k;
          assert rs[i].municipio == k;
        }
      }
      LookupAt(g);
    } else {
      assert forall k :: !HasKey(g, k);
    }
    LookupAt(g);
    forall i | 0 <= i < |g| ensures g[i].systems == SystemsFor(rs, g[i].municipio) {
      assert HasKey(g, g[i].municipio);
    }
  }

  // ---------------------------------------------------------------------------
  // Ordering by descending total
  // ---------------------------------------------------------------------------

  predicate SortedDesc(g: seq<AggRow>)
  {
    forall i, j :: 0 <= i < j < |g| ==> g[i].systems >= g[j].systems
  }

  function Insert(x: AggRow, g: seq<AggRow>): seq<AggRow>
  {
    if g == [] || g[0].systems <= x.systems then [x] + g else [g[0]] + Insert(x, g[1..])
  }

  /** `sort_values(by='Numero_Sistemas', ascending=False)`. The library does not
      promise an order among equal totals; this insertion sort is one admissible
      order and only its non-increasing order and its permutation are relied on. */
  function SortDesc(g: seq<AggRow>): seq<AggRow>
  {
    if g == [] then [] else Insert(g[0], SortDesc(g[1..]))
  }

  lemma {:induction false} InsertPerm(x: AggRow, g: seq<AggRow>)
    ensures multiset(Insert(x, g)) == multiset{x} + multiset(g)
    ensures Total(Insert(x, g)) == x.systems + Total(g)
  {
    if !(g == [] || g[0].systems <= x.systems) {
      assert g == [g[0]] + g[1..];
      InsertPerm(x, g[1..]);
    }
  }

  /** Every sum in `g` is at most `b`. */
  predicate AtMost(g: seq<AggRow>, b: int)
  {
    forall i :: 0 <= i < |g| ==> g[i].systems <= b
  }

  lemma SortedCons(x: AggRow, g: seq<AggRow>)
    ensures SortedDesc([x] + g) <==> SortedDesc(g) && AtMost(g, x.systems)
  {
    var c := [x] + g;
    if SortedDesc(g) && AtMost(g, x.systems) {
      forall i, j | 0 <= i < j < |c| ensures c[i].systems >= c[j].systems {
        assert c[j] == g[j - 1];
        if i > 0 { assert c[i] == g[i - 1]; }
      }
    }
    if SortedDesc(c) {
      forall i, j | 0 <= i < j < |g| ensures g[i].systems >= g[j].systems {
        assert c[i + 1] == g[i] && c[j + 1] == g[j];
      }
      forall j | 0 <= j < |g| ensures g[j].systems <= x.systems {
        assert c[0] == x && c[j + 1] == g[j];
      }
    }
  }

  lemma {:induction false} InsertBound(x: AggRow, g: seq<AggRow>, b: int)
    requires AtMost(g, b) && x.systems <= b
    ensures AtMost(Insert(x, g), b)
  {
    if !(g == [] || g[0].systems <= x.systems) {
      InsertBound(x, g[1..], b);
      var ir := Insert(x, g[1..]);
      assert Insert(x, g) == [g[0]] + ir;
      forall i | 0 <= i < |Insert(x, g)| ensures Insert(x, g)[i].systems <= b {
        if i > 0 { assert Insert(x, g)[i] == ir[i - 1]; }
      }
    } else {
      forall i | 0 <= i < |Insert(x, g)| ensures Insert(x, g)[i].systems <= b {
        if i > 0 { assert Insert(x, g)[i] == g[i - 1]; }
      }
    }
  }

  lemma {:induction false} InsertSorted(x: AggRow, g: seq<AggRow>)
    requires SortedDesc(g)
    ensures SortedDesc(Insert(x, g))
  {
    if g == [] || g[0].systems <= x.systems {
      SortedCons(x, g);
      if g != [] {
        assert g == [g[0]] + g[1..];
        SortedCons(g[0], g[1..]);
        forall i | 0 <= i < |g| ensures g[i].systems <= x.systems {
          if i > 0 { assert g[i] == g[1..][i - 1]; }
        }
      }
    } else {
      var rest := g[1..];
      assert g == [g[0]] + rest;
      SortedCons(g[0], rest);
      InsertSorted(x, rest);
      InsertBound(x, rest, g[0].systems);
      SortedCons(g[0], Insert(x, rest));
    }
  }

  lemma {:induction false} InsertKeys(x: AggRow, g: seq<AggRow>)
    ensures forall k :: HasKey(Insert(x, g), k) <==> HasKey(g, k) || k == x.municipio
    ensures UniqueMunicipios(g) && !HasKey(g, x.municipio) ==> UniqueMunicipios(Insert(x, g))
  {
    if g == [] || g[0].systems <= x.systems {
      KeysCons(x, g);
    } else {
      var rest := g[1..];
      assert g == [g[0]] + rest;
      KeysCons(g[0], rest);
      InsertKeys(x, rest);
      KeysCons(g[0], Insert(x, rest));
    }
  }

  /** The ordered table is non-increasing in `Numero_Sistemas` and holds exactly the
      rows of the grouped table, so keys, sums and the grand total are unchanged. */
  lemma SortDescSpec(g: seq<AggRow>)
    ensures SortedDesc(SortDesc(g))
    ensures multiset(SortDesc(g)) == multiset(g)
    ensures |SortDesc(g)| == |g|
    ensures Total(SortDesc(g)) == Total(g)
    ensures forall k :: HasKey(SortDesc(g), k) <==> HasKey(g, k)
    ensures UniqueMunicipios(g) ==> UniqueMunicipios(SortDesc(g))
  {
    SortDescSorted(g);
    SortDescPerm(g);
    SortDescKeys(g);
  }

  lemma {:induction false} SortDescSorted(g: seq<AggRow>)
    ensures SortedDesc(SortDesc(g))
  {
    if g != [] {
      SortDescSorted(g[1..]);
      InsertSorted(g[0], SortDesc(g[1..]));
    }
  }

  lemma {:induction false} SortDescPerm(g: seq<AggRow>)
    ensures multiset(SortDesc(g)) == multiset(g)
    ensures |SortDesc(g)| == |g|
    ensures Total(SortDesc(g)) == Total(g)
  {
    if g != [] {
      var rest := g[1..];
      assert g == [g[0]] + rest;
      SortDescPerm(rest);
      InsertPerm(g[0], SortDesc(rest));
      assert Total(g) == g[0].systems + Total(rest);
    }
    assert |SortDesc(g)| == |multiset(SortDesc(g))|;
  }

  lemma {:induction false} SortDescKeys(g: seq<AggRow>)
    ensures forall k :: HasKey(SortDesc(g), k) <==> HasKey(g, k)
    ensures UniqueMunicipios(g) ==> UniqueMunicipios(SortDesc(g))
  {
    if g != [] {
      var rest := g[1..];
      assert g == [g[0]] + rest;
      KeysCons(g[0], rest);
      SortDescKeys(rest);
      InsertKeys(g[0], SortDesc(rest));
    }
  }

  // ---------------------------------------------------------------------------
  // The whole script
  // ---------------------------------------------------------------------------

  /** The records that pass the filter, read through the trimmed header (none when
      the header lacks a required column). */
  function Survivors(sheet: Sheet): seq<Installation>
  {
    match Resolve(StripAll(sheet.header), Required)
    case Ok(cols) => Filter(Records(sheet.rows, cols), Keep)
    case Err(_) => []
  }

  /** A grouped record whose `n_sistemas` is text: the sum fails. */
  predicate HasTextCount(rs: seq<Installation>)
  {
    exists i :: 0 <= i < |rs| && rs[i].municipio != Blank && rs[i].systems.Text?
  }

  /** The script from reading the sheet (`None` when the file is absent) to the
      ordered aggregate it writes. A missing file gives NotFound; otherwise a
      SchemaError names the first required column that no trimmed header matches,
      and there is one exactly when some required column is absent. */
  function Analyse(source: Option<Sheet>): (r: Result<seq<AggRow>>)
    ensures r == Err(NotFound) <==> source.None?
    ensures source.Some? ==>
      ((r.Err? && r.error.SchemaError?) <==>
        exists k :: 0 <= k < |Required| && Required[k] !in StripAll(source.value.header))
    ensures source.Some? && r.Err? && r.error.SchemaError? ==>
      exists k :: 0 <= k < |Required| && r.error.column == Required[k] &&
        Required[k] !in StripAll(source.value.header) &&
        forall k' :: 0 <= k' < k ==> Required[k'] in StripAll(source.value.header)
    ensures source.Some? ==>
      (r.Ok? <==> Resolve(StripAll(source.value.header), Required).Ok? && !HasTextCount(Survivors(source.value)))
    ensures source.Some? && r.Ok? ==> r.value == SortDesc(GroupSum(Survivors(source.value)))
  {
    match source
    case None => Err(NotFound)
    case Some(sheet) =>
      match Resolve(StripAll(sheet.header), Required)
      case Err(e) => Err(e)
      case Ok(_) =>
        var kept := Survivors(sheet);
        if HasTextCount(kept) then Err(Unexpected)
        else Ok(SortDesc(GroupSum(kept)))
  }

  /** The aggregate the script writes lists each municipality of a surviving record
      once and no other, each with the sum of its surviving records' counts, in
      non-increasing order of that sum, as a permutation of the grouped table; its
      grand total is the sum over the surviving records that name a municipality. */
  lemma AnalyseCorrect(sheet: Sheet, out: seq<AggRow>)
    ensures Analyse(Some(sheet)) == Ok(out) ==> Resolve(StripAll(sheet.header), Required).Ok?
    ensures Analyse(Some(sheet)) == Ok(out) ==> SortedDesc(out)
    ensures Analyse(Some(sheet)) == Ok(out) ==> multiset(out) == multiset(GroupSum(Survivors(sheet)))
    ensures Analyse(Some(sheet)) == Ok(out) ==> UniqueMunicipios(out)
    ensures Analyse(Some(sheet)) == Ok(out) ==> forall k :: HasKey(out, k) <==>
      k != Blank && exists i :: 0 <= i < |Survivors(sheet)| && Survivors(sheet)[i].municipio == k
    ensures Analyse(Some(sheet)) == Ok(out) ==>
      forall i :: 0 <= i < |out| ==> out[i].systems == SystemsFor(Survivors(sheet), out[i].municipio)
    ensures Analyse(Some(sheet)) == Ok(out) ==> Total(out) == GroupedTotal(Survivors(sheet))
  {
    if Analyse(Some(sheet)) == Ok(out) {
      AnalyseOk(sheet, out);
      AggregateSpec(Survivors(sheet));
    }
  }

  /** A successful run read every required column, found no text count, and wrote
      the ordered grouping of the survivors. */
  lemma AnalyseOk(sheet: Sheet, out: seq<AggRow>)
    ensures Analyse(Some(sheet)) == Ok(out) ==>
      Resolve(StripAll(sheet.header), Required).Ok? && !HasTextCount(Survivors(sheet)) &&
      out == SortDesc(GroupSum(Survivors(sheet)))
  {
  }

  /** The ordered grouping of any records: sorted, a permutation of the grouping,
      one row per municipality of a record, each with its sum, and the grand total
      of the records that name a municipality. */
  lemma AggregateSpec(rs: seq<Installation>)
    ensures SortedDesc(SortDesc(GroupSum(rs)))
    ensures multiset(SortDesc(GroupSum(rs))) == multiset(GroupSum(rs))
    ensures UniqueMunicipios(SortDesc(GroupSum(rs)))
    ensures forall k :: HasKey(SortDesc(GroupSum(rs)), k) <==>
      k != Blank && exists i :: 0 <= i < |rs| && rs[i].municipio == k
    ensures forall i :: 0 <= i < |SortDesc(GroupSum(rs))| ==>
      SortDesc(GroupSum(rs))[i].systems == SystemsFor(rs, SortDesc(GroupSum(rs))[i].municipio)
    ensures Total(SortDesc(GroupSum(rs))) == GroupedTotal(rs)
  {
    var g := GroupSum(rs);
    var out := SortDesc(g);
    GroupSumSpec(rs);
    SortDescSpec(g);
    forall i | 0 <= i < |out| ensures out[i].systems == SystemsFor(rs, out[i].municipio) {
      assert out[i] in multiset(g);
      var j :| 0 <= j < |g| && g[j] == out[i];
    }
  }

  /** Conservation: when every surviving record names its municipality the grand
      total of the aggregate equals the sum of `n_sistemas` over all surviving records. */
  lemma {:induction false} GroupedTotalIsTotal(rs: seq<Installation>)
    requires forall i :: 0 <= i < |rs| ==> rs[i].municipio != Blank
    ensures GroupedTotal(rs) == SystemsTotal(rs)
  {
    if rs != [] {
      GroupedTotalIsTotal(rs[..|rs| - 1]);
    }
  }

  /** Two surviving records of Teresina with 50 and 30 systems and one record of
      Ceará give a single row for Teresina with 80 systems. */
  lemma TeresinaExample()
    ensures
      var pi := Installation(Text("PI"), Text("Fotovoltaica"), Text("Residencial"), Text("B1"),
                             Text("Geração na própria UC"), Text("MicroGD"), Text("residencial"),
                             Text("Teresina"), Number(50));
      var rs := [pi, pi.(systems := Number(30)), pi.(uf := Text("CE"))];
      SortDesc(GroupSum(Filter(rs, Keep))) == [AggRow(Text("Teresina"), 80)]
  {
    var pi := Installation(Text("PI"), Text("Fotovoltaica"), Text("Residencial"), Text("B1"),
                           Text("Geração na própria UC"), Text("MicroGD"), Text("residencial"),
                           Text("Teresina"), Number(50));
    var rs := [pi, pi.(systems := Number(30)), pi.(uf := Text("CE"))];
    assert Keep(rs[0]) && Keep(rs[1]) && !Keep(rs[2]);
    assert rs[1..] == [rs[1], rs[2]] && rs[1..][1..] == [rs[2]] && rs[1..][1..][1..] == [];
    assert Filter([rs[2]], Keep) == [];
    assert Filter(rs, Keep) == [rs[0], rs[1]];
    var kept := [rs[0], rs[1]];
    assert kept[..1] == [rs[0]];
    assert GroupSum(kept[..1]) == [AggRow(Text("Teresina"), 50)];
  }
}
