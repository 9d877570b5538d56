# Solar generation in Piauí: filter, aggregate, join and density, in Dafny

This project models the table logic of three pandas scripts that map
distributed solar generation in the Brazilian state of Piauí. It proves
properties of that model.

- **analise_energia_solar_pi.py** (module `SolarAnalysis`, pure functions and
  lemmas) reads the regulator's installation sheet and trims its column names.
  It keeps the records that pass a fixed seven-clause rule: Piauí, photovoltaic,
  residential or rural class, low-voltage subgroup B1/B2, one of three
  generation modalities, micro-generation, residential segment. It groups the
  surviving records by `municipio`, summing `n_sistemas` into
  `Numero_Sistemas`, and orders the result by descending total. A missing file
  gives NotFound, a missing column a column error, and any other fault is
  Unexpected.
- **criar_mapa_pi.py** (module `CountMap`, with the frames in `Frames`) works
  in three steps:
  - It title-cases the join keys in place on the municipal boundary layer and
    on the per-municipality table.
  - It left-joins the boundaries to the table and fills a missing count with 0
    in place.
  - It selects the boundaries with a positive count for colouring.
- **mapa_densidade.py** (module `DensityMap`) works in five steps:
  - It cleans the IBGE household table in place: it trims and renames the
    headers, removes the `.` thousands separators from the household counts,
    and turns any count that is not a number into a missing value.
  - It left-joins the per-municipality table to the households on title-cased
    names.
  - It computes `Densidade = Numero_Sistemas / total_domicilios * 1000` and
    fills a missing density with 0.
  - It left-joins the boundary layer to that table and fills the density again.
  - It reports the least positive density and the greatest density.

Shared pieces are defined once:

- `Common`: cells, sheets, results, boolean-mask selection.
- `Text`: Python's `str.strip`, `str.title`, dot removal and integer
  conversion.
- `Joins`: a generic `merge(..., how='left')`.

Where the scripts overwrite a column in place, the model does so too: a class
whose field the method reassigns. The merges, selections and reductions are
functions. `CountMap.RunCountMap` and `DensityMap.RunDensityMap` run each
script's steps in source order through those classes. Each is proved equal to
a specification function (`CountScript`, `DensityScript`), and the lemmas are
stated about those functions.

Modelling choices:

- **Padding in join keys.** Both map scripts prepare their join keys with
  `str.title()` alone (criar_mapa_pi.py:31-32, mapa_densidade.py:46-47). It
  changes letter case and never trims, so `"Teresina "` does not join
  `"Teresina"`: `Text.TitleKeepsUncased`, `CountMap.PaddedNameDoesNotJoin` and
  `DensityMap.PaddedHouseholdNameDoesNotJoin`. Column *headers* are trimmed,
  and that too is modelled.
- **Missing input files.** The map scripts read their two GeoJSON layers with
  `gpd.read_file` before the CSV table and the Excel sheet. For a missing path
  that reader fails with its engine's own error (pyogrio's `DataSourceError`,
  fiona's `DriverError`), not a `FileNotFoundError`. So the generic handler
  reports it, and the model gives Unexpected. A missing CSV or Excel file
  reaches the FileNotFoundError handler and gives NotFound. The first missing
  file in read order decides the outcome.
- **Blank names in the aggregation.** `groupby` drops records whose `municipio`
  is missing. The grand total of the aggregate is therefore the sum over the
  surviving records that name a municipality (`GroupedTotal`). It equals the
  sum over all surviving records when none is blank
  (`SolarAnalysis.GroupedTotalIsTotal`).
- **Sort order.** `sort_values` in its default configuration is not stable.
  Only the non-increasing order and the permutation are stated. The model's
  grouping emits keys in first-appearance order (pandas sorts them); the final
  order is decided by the sort in any case.
- **Cells.** A cell is text, an integer or missing (`Cell`). A missing
  household cell turns into the text "nan" under `astype(str)`, which the
  conversion turns back into a missing value.
- **Density values.** Densities are real numbers. A non-zero count over zero
  households gives ±infinity. `0/0` and a missing household count give a
  missing value, which `fillna(0)` replaces. The fill never replaces an
  infinity, so one municipality with zero households and a positive count
  makes `max_dens` infinite (`DensityMap.ZeroHouseholdsExample`,
  `DensityMap.InfiniteDensityStopsLegend`). The legend ticks
  `round(max_dens/4.1)` (mapa_densidade.py:93) then raise OverflowError. The
  run ends in the generic handler (mapa_densidade.py:133) after the
  diagnostics are printed. An Ok outcome of `DensityScript` is therefore the
  table and the printed diagnostics, not a drawn map; `DensityMap.LegendScales`
  says when the ticks exist.
- **Letter case.** Case mapping is one-to-one: ASCII and the Latin-1 letters
  U+00C0..U+00DE and U+00E0..U+00FE, 32 apart, without × and ÷. Every other
  character counts as uncased.

## Model

| member | source | states |
|---|---|---|
| SolarAnalysis.Resolve | analise_energia_solar_pi.py:26-44 | the column lookups succeed exactly when every required name is in the header, giving an index per name; otherwise the error names the first missing column in reading order |
| SolarAnalysis.PaddedColumnResolves | analise_energia_solar_pi.py:19 | a header cell with whitespace on either side of a name is found by the bare name after the trim |
| SolarAnalysis.PaddedUfResolves | analise_energia_solar_pi.py:19 | the padded header " uf " reads as "uf" |
| SolarAnalysis.SurvivorsSpec | analise_energia_solar_pi.py:26-34 | a record survives exactly when the seven-clause rule holds; the survivors are a subsequence of the input with every copy of each survivor kept |
| SolarAnalysis.GroupSumSpec | analise_energia_solar_pi.py:41-47 | each municipality of a record gets exactly one row and no other municipality appears; each row holds the sum of its records' counts; the grand total is the sum over records with a municipality |
| SolarAnalysis.SortDescSpec | analise_energia_solar_pi.py:49 | the ordered table is non-increasing in `Numero_Sistemas` and a permutation of the grouped table, so keys, uniqueness and the total are kept |
| SolarAnalysis.Analyse | analise_energia_solar_pi.py:13-64 | a missing file gives NotFound and only then; a column error happens exactly when a required column is absent after the trim, and names the first such column; for a present file the run succeeds exactly when every required column resolves and no surviving record with a municipality has a text count, and then writes the ordered grouping of the survivors |
| SolarAnalysis.AnalyseCorrect | analise_energia_solar_pi.py:41-49 | the written table is sorted, a permutation of the grouping of the survivors, has unique municipalities (exactly those of the survivors) with per-municipality sums, and conserves the total |
| SolarAnalysis.AggregateSpec | analise_energia_solar_pi.py:41-49 | for any surviving rows, the grouped and ordered table is sorted, a permutation of the grouping, has unique municipalities (exactly the non-missing ones of the rows), per-municipality sums, and the total of the grouped rows |
| SolarAnalysis.GroupedTotalIsTotal | analise_energia_solar_pi.py:44 | when every record names its municipality, the aggregate's total equals the sum of `n_sistemas` over all records |
| SolarAnalysis.TeresinaExample | analise_energia_solar_pi.py:26-49 | two surviving Teresina records of 50 and 30 systems and one record from another state give the single row (Teresina, 80) |
| Text.StripPadded | analise_energia_solar_pi.py:19 | stripping whitespace padding around trimmed text gives back that text |
| Text.StripIdempotent | mapa_densidade.py:35 | stripping twice is stripping once |
| Text.StripIsTrimmedSlice | analise_energia_solar_pi.py:19 | the stripped text is a slice of the original with no whitespace at either end, and only whitespace was cut |
| Text.TitleAt | criar_mapa_pi.py:31-32 | each character of the title-cased text is the upper-case form after an uncased character (or at the start) and the lower-case form after a cased one |
| Text.TitleIdempotent | criar_mapa_pi.py:31-32 | title-casing twice is title-casing once |
| Text.TitleKeepsUncased | criar_mapa_pi.py:31-32 | title-casing keeps the length and every uncased character, so spaces and punctuation are never removed |
| Text.TitleMatchIff | criar_mapa_pi.py:31-32 | two names are equal after title-casing exactly when they are equal after lower-casing, so only letter case is reconciled |
| Text.RemoveDotsIdempotent | mapa_densidade.py:40 | removing dots from dot-free text changes nothing |
| Text.RemoveDotsKeepsRest | mapa_densidade.py:40 | dot removal keeps every other character, with its multiplicity, in order |
| Text.RemoveDotsBetween | mapa_densidade.py:40 | a separator between two dot-free runs is dropped and the runs are joined |
| Text.ParseInt | mapa_densidade.py:41 | the conversion yields a value exactly for optionally signed decimal digit text |
| Text.ParseShowInt | mapa_densidade.py:40-41 | an integer's decimal text converts back to that integer |
| Joins.MatchesSpec | criar_mapa_pi.py:33-35 | the right rows matched by a key are the rows with that key, every copy, in right-table order |
| Joins.MergeOneToOne | criar_mapa_pi.py:33-35 | when no left key occurs twice on the right, the merge has one row per left row in order, paired with the row carrying its key or with nothing exactly when there is none |
| Joins.MergeSizeIsExact | criar_mapa_pi.py:33-35 | the merge emits one row per match for each left row, or one row when nothing matches |
| Joins.MergeKeepsLeft | criar_mapa_pi.py:33-35 | every left row appears in the left merge, and every merged row carries a left row |
| Joins.MergeAppend | criar_mapa_pi.py:33-35 | merging two blocks of left rows is the concatenation of their merges, so left order is kept |
| Joins.MergedRightRows | criar_mapa_pi.py:33-35 | every right-hand side the merge emits is a row of the right table |
| Frames.BoundaryFrame.TitleCaseNames | criar_mapa_pi.py:31 | the boundary layer's `name` column is replaced by its title-cased form, and nothing else changes |
| Frames.SystemsFrame.TitleCaseMunicipios | criar_mapa_pi.py:32 | the table's `municipio` column is replaced by its title-cased form, and nothing else changes |
| Frames.TitleNamesIdempotent | criar_mapa_pi.py:31 | title-casing the boundary names again changes nothing |
| CountMap.CountFrame.FillSystems | criar_mapa_pi.py:36 | a missing `Numero_Sistemas` becomes 0 and every other row is kept |
| CountMap.CountScript | criar_mapa_pi.py:24-43 | a missing boundary or state GeoJSON is Unexpected exactly when it happens (the layers are read first), a missing table is NotFound exactly when both layers exist, no other error; otherwise at least as many rows as boundaries, every boundary with its title-cased name appears as a row's feature, and the selected rows are filled rows with a positive count |
| CountMap.RunCountMap | criar_mapa_pi.py:26-43 | the script's steps on the frames, with the in-place title-casing and fill, compute `CountScript` |
| CountMap.CompleteMapOneRowPerBoundary | criar_mapa_pi.py:31-36 | with unique title-cased table names: one row per boundary, in order, boundary otherwise unchanged; a match gets the table row's count and name; no match gets 0 and no name |
| CountMap.CompleteMapCountsDefined | criar_mapa_pi.py:36 | after the fill every count is defined, is 0 or a table count, and is non-negative when the table's counts are |
| CountMap.CompleteMapDuplicates | criar_mapa_pi.py:33-35 | a boundary yields one row per matching table row when names repeat, in table order, the i-th row carrying the i-th match's count and name, or one row with count 0 when none matches |
| CountMap.CompleteMapCoversBoundaries | criar_mapa_pi.py:31-36 | every title-cased boundary is the feature of some row of the filled join, and every row's feature is a title-cased boundary |
| CountMap.CompleteMapAppend | criar_mapa_pi.py:33-36 | the filled join of several boundaries follows boundary order |
| CountMap.MatchCountIsMatches | criar_mapa_pi.py:33-35 | the number of matches of a name is the number of table rows whose title-cased name equals it |
| CountMap.PositiveRowsSpec | criar_mapa_pi.py:43 | `mapa_com_sistemas` is the order-preserving subsequence of rows with a positive count, every copy kept |
| CountMap.PaddedNameDoesNotJoin | criar_mapa_pi.py:31-36 | a boundary named "Teresina " does not join the row "Teresina" and gets count 0 |
| DensityMap.HouseholdSheet.StripHeaders | mapa_densidade.py:35 | the header is replaced by its stripped names and the rows are unchanged |
| DensityMap.RenameAll | mapa_densidade.py:36-39 | the renamed header has `municipio` (or `total_domicilios`) exactly when the original had it or the IBGE name; other names stay in place |
| DensityMap.HouseholdSheet.RenameHeaders | mapa_densidade.py:36-39 | the header is replaced by its renamed form and the rows are unchanged |
| DensityMap.CleanCell | mapa_densidade.py:40 | a cleaned household cell is text without any '.' |
| DensityMap.HouseholdSheet.CleanHouseholds | mapa_densidade.py:40 | the KeyError happens exactly when `total_domicilios` is absent; otherwise only that column is rewritten by the cleaning |
| DensityMap.ToNumeric | mapa_densidade.py:41 | text becomes a number exactly when it is integer text, with its value, and missing otherwise; non-text is kept |
| DensityMap.HouseholdSheet.ParseHouseholds | mapa_densidade.py:41 | only the household column is rewritten by the numeric conversion |
| DensityMap.UpdateColumn | mapa_densidade.py:40-41 | exactly one column of every row is rewritten; the shape and the other cells are kept |
| DensityMap.SelectHouseholds | mapa_densidade.py:42 | the selection fails exactly when `municipio` or `total_domicilios` is absent, naming `municipio` first, and otherwise keeps one row per row |
| DensityMap.HouseholdTable | mapa_densidade.py:35-42 | the household table is a KeyError on `total_domicilios` exactly when that column is absent after trim and rename, a KeyError on `municipio` exactly when only that one is absent, no other error, and otherwise one entry per sheet row |
| DensityMap.HouseholdTableRows | mapa_densidade.py:36-42 | each entry holds its row's municipality cell and the integer value of its household text with the dots removed, or missing when that text is not an integer |
| DensityMap.PrepareHouseholds | mapa_densidade.py:35-42 | the in-place steps on the household sheet compute `HouseholdTable` |
| DensityMap.JoinHouseholds | mapa_densidade.py:46-50 | title-casing both frames in place, the left merge and the density assignment and fill compute `CompleteTable` |
| DensityMap.JoinBoundaries | mapa_densidade.py:52-54 | title-casing the boundary names in place, the left merge and the fill compute `DensityMapRows` |
| DensityMap.PaddedHouseholdHeaderResolves | mapa_densidade.py:35-39 | a padded IBGE household header still resolves to `total_domicilios` |
| DensityMap.HouseholdCountExample | mapa_densidade.py:40-41 | the text "12.345" becomes 12345 |
| DensityMap.CleanCellIdempotent | mapa_densidade.py:40 | cleaning a cleaned cell changes nothing |
| DensityMap.CleanNumberRoundTrip | mapa_densidade.py:40-41 | a count already held as an integer survives the text round trip unchanged |
| DensityMap.TitleCell | mapa_densidade.py:47 | a text municipality is title-cased, and any other cell becomes missing (`Blank`) |
| DensityMap.HouseholdFrame.TitleCaseMunicipios | mapa_densidade.py:47 | the household table's `municipio` column is replaced by its title-cased form |
| DensityMap.Ratio | mapa_densidade.py:49 | missing for a missing household count or 0/0, ±infinity for a non-zero count over zero households, otherwise a value `v` with `v * households == systems * 1000` (non-negative for non-negative counts) |
| DensityMap.CompleteFrame.AssignDensity | mapa_densidade.py:49 | every row's `Densidade` is set from its own counts |
| DensityMap.CompleteFrame.FillDensity | mapa_densidade.py:50 | a missing density becomes 0 and every other is kept |
| DensityMap.CompleteTableRows | mapa_densidade.py:46-48 | when no municipality matches two household rows: one row per aggregate row, in order, with its title-cased name and count; a match carries its household count and no match carries none |
| DensityMap.CompleteTableDensity | mapa_densidade.py:49-50 | every density is defined after the fill; missing households or 0/0 give 0; non-zero households give `v` with `v * households == systems * 1000`; zero households with a non-zero count give an infinity, which the fill keeps |
| DensityMap.PaddedHouseholdNameDoesNotJoin | mapa_densidade.py:46-50 | a household row named "Teresina " does not join "Teresina", whose density is then 0 |
| DensityMap.DensityExample | mapa_densidade.py:49 | 123 systems over 12345 households give the density `v` with `v * 12345 == 123000` |
| DensityMap.MapFrame.FillDensity | mapa_densidade.py:54 | a missing density becomes 0 and every other column is kept |
| DensityMap.DensityMapCoversBoundaries | mapa_densidade.py:52-54 | every title-cased boundary is the feature of some map row, and every map row's feature is a title-cased boundary |
| DensityMap.DensityMapOneRowPerBoundary | mapa_densidade.py:52-54 | with no boundary name occurring twice in the table: one row per boundary, in order; a match gets the row's name, counts and density, and an existing density is not changed; no match gets density 0 while its counts stay missing |
| DensityMap.CompleteKeysOnce | mapa_densidade.py:46-53 | unique title-cased table names and single household matches make every name occur at most once in `dados_completos` |
| DensityMap.DensityMapChain | mapa_densidade.py:46-54 | the whole join chain: one row per boundary, every density defined, a matched boundary gets its table count, and an unmatched one gets density 0 and no count |
| DensityMap.MinDensity | mapa_densidade.py:57 | skipping missing values: missing when all are missing, otherwise one of the values and at most every value |
| DensityMap.MaxDensity | mapa_densidade.py:58 | skipping missing values: missing when all are missing, otherwise one of the values and at least every value |
| DensityMap.LeastPositiveDensity | mapa_densidade.py:57 | `min_dens` is missing exactly when no density is positive, and otherwise is a positive row density at most every positive density |
| DensityMap.GreatestDensity | mapa_densidade.py:58 | `max_dens` is missing exactly when every density is, and otherwise is a row's density at least every density |
| DensityMap.DensityScript | mapa_densidade.py:27-58 | Unexpected exactly when a GeoJSON layer is absent (the layers are read first); otherwise NotFound exactly when the CSV table or the Excel sheet is absent; with every file present, a KeyError names `total_domicilios` exactly when that column is absent after trim and rename, and `municipio` exactly when only that one is absent; the run succeeds exactly when every file and both columns are present, and then at least as many map rows as boundaries, and every boundary with its title-cased name appears as a map row's feature |
| DensityMap.ZeroHouseholdsExample | mapa_densidade.py:46-50 | five systems over zero households give the density +inf, which the fill keeps |
| DensityMap.InfiniteDensityStopsLegend | mapa_densidade.py:58 | an infinite density on any map row makes `max_dens` that infinity, for which the legend ticks do not exist |
| DensityMap.LegendScalesIff | mapa_densidade.py:58 | the legend ticks exist exactly when some map row has a finite density and none has +inf (so never for an empty layer) |
| DensityMap.RunDensityMap | mapa_densidade.py:27-58 | the script's steps on the frames, in source order, compute `DensityScript` |

## Left out

- inspecionar_paineis.py: it only reads spreadsheets and prints their headers
  and first rows.
- Reading and writing files: `read_excel`, `read_csv`, `gpd.read_file`, and
  `to_csv` with `;` and a UTF-8 byte-order mark. A file arrives as an optional
  value, and `None` is the missing file.
- `savefig` and its output path.
- Every `print`. An error is an outcome kind instead of a message: NotFound,
  SchemaError with the column name, or Unexpected.
- All plotting. This covers colour norms, colour bars and their ticks, the
  scale bar, the inset map and the axis bounds. None of these changes a table.
  Of the ticks, only whether `round(max_dens/4.1)` exists is modelled
  (`LegendScales`); the failure it causes is not folded into `DensityScript`.
- The state boundary layer (`br_estados`): it is only drawn. It enters the
  model only as a file that must exist (Unexpected when it does not).
- Floating point: counts are integers and densities are exact reals. Cells
  holding floats are not modelled, so neither is the `astype(str)` result of a
  float household count (`12345.0` would lose its dot and read as 123450).
- The numeric conversion accepts only optionally signed decimal digits.
  `to_numeric` also accepts exponents, decimal points, "inf" and surrounding
  whitespace; here those give a missing value.
- Full Unicode `str.title()` (`ß`, `ÿ`, Greek, Cyrillic and others). Case
  mapping is the one-to-one Latin-1 model described above.
- Duplicate column names: the first column with a name is the one read.
- SolarAnalysis.Analyse: for text in `n_sistemas` of a surviving record with a
  municipality, pandas may concatenate or raise depending on the column's
  types. The model reports Unexpected for this case.
- Non-text cells in the household `municipio` column become missing under
  title-casing. A column without any text, for which `.str` raises, is not
  distinguished.
- Missing `municipio` or `Numero_Sistemas` columns in the per-municipality
  table and a missing `name` column in the boundary layer. That table is typed
  by its two columns and the layer by its name, attributes and geometry.
- Tie order among equal totals after the sort, and the groupby's own key order.
