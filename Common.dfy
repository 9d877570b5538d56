/** Values shared by the three scripts: optional values, the error kinds the scripts
    report, spreadsheet cells, and order-preserving row selection. */
module Common {

  datatype Option<T> = None | Some(value: T)

  /** The three kinds of failure the scripts tell apart when they report an error:
      a missing input file, a column that a lookup cannot find (KeyError), and
      anything else. */
  datatype Error = NotFound | SchemaError(column: string) | Unexpected

  datatype Result<T> = Ok(value: T) | Err(error: Error)

  /** A cell of a table read from a spreadsheet. Blank is the library's missing
      value (NaN). */
  datatype Cell = Text(text: string) | Number(value: int) | Blank

  /** A table as read from a spreadsheet: the header row and the data rows. */
  datatype Sheet = Sheet(header: seq<string>, rows: seq<seq<Cell>>)

  /** The cell of `row` in column `k`; a row shorter than the header reads as blank. */
  function CellAt(row: seq<Cell>, k: nat): Cell
  {
    if k < |row| then row[k] else Blank
  }

  /** Position of the first column called `name`. */
  function IndexOf(names: seq<string>, name: string): (r: Option<nat>)
    ensures r.None? <==> name !in names
    ensures r.Some? ==> (r.value < |names| && names[r.value] == name &&
      forall k :: 0 <= k < r.value ==> names[k] != name)
  {
    if names == [] then None
    else if names[0] == name then Some(0)
    else match IndexOf(names[1..], name)
      case None => None
      case Some(i) => Some(i + 1)
  }

  /** The rows of `s` for which `p` holds, in their original order: boolean-mask
      indexing of a data frame. */
  function Filter<T(==)>(s: seq<T>, p: T -> bool): (r: seq<T>)
    ensures |r| <= |s|
    ensures forall i :: 0 <= i < |r| ==> r[i] in s && p(r[i])
    ensures forall i :: 0 <= i < |s| && p(s[i]) ==> s[i] in r
  {
    if s == [] then []
    else if p(s[0]) then [s[0]] + Filter(s[1..], p)
    else Filter(s[1..], p)
  }

  /** `a` is obtained from `b` by deleting elements, without reordering or changing any. */
  predicate IsSubsequence<T(==)>(a: seq<T>, b: seq<T>)
    decreases |b|
  {
    if b == [] then a == []
    else (a != [] && a[0] == b[0] && IsSubsequence(a[1..], b[1..])) || IsSubsequence(a, b[1..])
  }

  /** Selection drops rows and never alters or reorders one. */
  lemma {:induction false} FilterIsSubsequence<T>(s: seq<T>, p: T -> bool)
    ensures IsSubsequence(Filter(s, p), s)
  {
    if s != [] {
      FilterIsSubsequence(s[1..], p);
    }
  }

  /** Selection keeps every copy of a row satisfying `p` and no copy of any other row. */
  lemma {:induction false} FilterCounts<T>(s: seq<T>, p: T -> bool, x: T)
    ensures multiset(Filter(s, p))[x] == if p(x) then multiset(s)[x] else 0
  {
    if s != [] {
      FilterCounts(s[1..], p, x);
      assert s == [s[0]] + s[1..];
      if p(s[0]) {
        assert Filter(s, p) == [s[0]] + Filter(s[1..], p);
      }
    }
  }

  /** Selecting twice with the same mask selects nothing more. */
  lemma {:induction false} FilterIdempotent<T>(s: seq<T>, p: T -> bool)
    ensures Filter(Filter(s, p), p) == Filter(s, p)
  {
    if s != [] {
      FilterIdempotent(s[1..], p);
    }
  }

  /** Selection over two consecutive blocks of rows is the selection over each. */
  lemma {:induction false} FilterAppend<T>(a: seq<T>, b: seq<T>, p: T -> bool)
    ensures Filter(a + b, p) == Filter(a, p) + Filter(b, p)
  {
    if a == [] {
      assert a + b == b;
    } else {
      assert (a + b)[0] == a[0] && (a + b)[1..] == a[1..] + b;
      FilterAppend(a[1..], b, p);
    }
  }

  /** When every row passes, selection returns the table unchanged. */
  lemma {:induction false} FilterAll<T>(s: seq<T>, p: T -> bool)
    requires forall i :: 0 <= i < |s| ==> p(s[i])
    ensures Filter(s, p) == s
  {
    if s != [] {
      FilterAll(s[1..], p);
    }
  }
}
