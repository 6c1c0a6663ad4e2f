/**
 A row of a downloaded data-value CSV, as a dictionary reader hands it out:
 an insertion-ordered dictionary from column name to cell text. `keys` keeps
 the insertion order (the order `dict.keys()` reports), `fields` the contents.
 */
module Rows {

  datatype Option<T> = None | Some(value: T)

  datatype Row = Row(keys: seq<string>, fields: map<string, string>)

  /** `keys` lists every column of `fields` exactly once. */
  ghost predicate WellFormed(r: Row) {
    && (forall i, j :: 0 <= i < j < |r.keys| ==> r.keys[i] != r.keys[j])
    && (forall k :: k in r.fields <==> k in r.keys)
  }

  /** `row.get(k, default)`: the cell of column `k`, or `default` when the row has no such column. */
  function Get(r: Row, k: string, default: string): string {
    if k in r.fields then r.fields[k] else default
  }

  /** `row.get(k)`: the cell of column `k`, or None when the row has no such column. */
  function Lookup(r: Row, k: string): (v: Option<string>)
    ensures v.Some? <==> k in r.fields
    ensures v.Some? ==> v.value == Get(r, k, "")
  {
    if k in r.fields then Some(r.fields[k]) else None
  }

  /**
   `row[k] = v`: an existing column keeps its place and takes the new value;
   a new column is added after all existing ones.
   */
  function Set(r: Row, k: string, v: string): (r': Row)
    ensures r'.fields == r.fields[k := v]
    ensures WellFormed(r) ==> WellFormed(r')
    ensures r.keys <= r'.keys
    ensures WellFormed(r) && k in r.keys ==> r'.keys == r.keys
    ensures WellFormed(r) && k !in r.keys ==> r'.keys == r.keys + [k]
  {
    Row(if k in r.fields then r.keys else r.keys + [k], r.fields[k := v])
  }

  /** Applies `f` to every row, keeping the number and the order of the rows. */
  function MapRows(f: Row -> Row, rows: seq<Row>): (out: seq<Row>)
    ensures |out| == |rows|
    ensures forall i :: 0 <= i < |rows| ==> out[i] == f(rows[i])
  {
    if rows == [] then [] else [f(rows[0])] + MapRows(f, rows[1..])
  }

  /** `MapRows` distributes over concatenation: rows are handled one at a time, in order. */
  lemma MapRowsAppend(f: Row -> Row, rows: seq<Row>, more: seq<Row>)
    ensures MapRows(f, rows + more) == MapRows(f, rows) + MapRows(f, more)
  {
  }
}
