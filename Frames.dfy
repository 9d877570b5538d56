/** The two tables both map scripts start from, and the in-place title-casing of
    their join keys: the municipal boundary layer (`mapa_pi`) and the
    per-municipality table written by the analysis script (`dados_sistemas`). */
module Frames {
  import opened Common
  import opened Text

  datatype Point = Point(lon: real, lat: real)

  /** A municipal boundary: the 'name' attribute used as join key, the other
      attributes, and the polygon rings. */
  datatype Feature = Feature(name: string, attributes: seq<(string, Cell)>, geometry: seq<seq<Point>>)

  /** A row of the per-municipality table: `municipio` and `Numero_Sistemas`. */
  datatype SystemsRow = SystemsRow(municipio: string, systems: int)

  /** The join keys: a boundary's name and a table row's municipality. */
  function FeatureKey(f: Feature): string
  {
    f.name
  }

  function RowKey(r: SystemsRow): string
  {
    r.municipio
  }

  /** The boundary layer after `name.str.title()`. */
  function TitleNames(fs: seq<Feature>): (r: seq<Feature>)
    ensures |r| == |fs|
  {
    seq(|fs|, i requires 0 <= i < |fs| => fs[i].(name := Title(fs[i].name)))
  }

  /** The per-municipality table after `municipio.str.title()`. */
  function TitleMunicipios(rows: seq<SystemsRow>): (r: seq<SystemsRow>)
    ensures |r| == |rows|
  {
    seq(|rows|, i requires 0 <= i < |rows| => rows[i].(municipio := Title(rows[i].municipio)))
  }

  /** No two rows of the per-municipality table agree after title-casing. */
  ghost predicate UniqueTitledKeys(table: seq<SystemsRow>)
  {
    forall i, j :: 0 <= i < j < |table| ==> Title(table[i].municipio) != Title(table[j].municipio)
  }

  /** Title-casing a key column a second time changes nothing. */
  lemma TitleNamesIdempotent(fs: seq<Feature>)
    ensures TitleNames(TitleNames(fs)) == TitleNames(fs)
  {
    forall i | 0 <= i < |fs| ensures TitleNames(TitleNames(fs))[i] == TitleNames(fs)[i] {
      TitleIdempotent(fs[i].name);
    }
  }

  /** The boundary layer; its 'name' column is overwritten in place. */
  class BoundaryFrame {
    var features: seq<Feature>

    constructor (fs: seq<Feature>)
      ensures features == fs
    {
      features := fs;
    }

    /** `mapa_pi['name'] = mapa_pi['name'].str.title()` */
    method TitleCaseNames()
      modifies this
      ensures features == TitleNames(old(features))
    {
      features := TitleNames(features);
    }
  }

  /** The per-municipality table; its `municipio` column is overwritten in place. */
  class SystemsFrame {
    var rows: seq<SystemsRow>

    constructor (rs: seq<SystemsRow>)
      ensures rows == rs
    {
      rows := rs;
    }

    /** `dados_sistemas['municipio'] = dados_sistemas['municipio'].str.title()` */
    method TitleCaseMunicipios()
      modifies this
      ensures rows == TitleMunicipios(old(rows))
    {
      rows := TitleMunicipios(rows);
    }
  }
}
