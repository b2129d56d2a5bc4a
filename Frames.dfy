/** Attribute tables as the preparation scripts see them: a list of column
    names and, per row, one cell per column. Geometry cells and floats are
    opaque values whose text comes from a rendering function. */
module Frames {
  import opened Common

  /** One table cell: a null, a string, an integer, or an opaque value (a
      float, a geometry) identified by a number. */
  datatype Cell = Null | Text(s: string) | Int(i: int) | Opaque(id: nat)

  datatype Frame = Frame(columns: seq<string>, rows: seq<seq<Cell>>)

  /** Every row has one cell per column. */
  predicate Rectangular(f: Frame) {
    forall i :: 0 <= i < |f.rows| ==> |f.rows[i]| == |f.columns|
  }

  /** `DataFrame.empty`: no rows or no columns. */
  function IsEmpty(f: Frame): (b: bool)
    ensures Rectangular(f) ==> (!b <==> f.rows != [] && f.rows[0] != [])
  {
    f.rows == [] || f.columns == []
  }

  /** The position of the first column called `name`. */
  function IndexOf(cols: seq<string>, name: string): (k: nat)
    requires name in cols
    ensures k < |cols| && cols[k] == name
    ensures forall j :: 0 <= j < k ==> cols[j] != name
  {
    if cols[0] == name then 0 else 1 + IndexOf(cols[1..], name)
  }

  /** `df[name] = values`: every column called `name` takes the new values;
      without such a column, one is appended. */
  function SetColumn(f: Frame, name: string, values: seq<Cell>): (r: Frame)
    requires Rectangular(f) && |values| == |f.rows|
    ensures Rectangular(r) && |r.rows| == |f.rows|
    ensures name in f.columns ==> r.columns == f.columns
    ensures name !in f.columns ==> r.columns == f.columns + [name]
    ensures forall i, j :: 0 <= i < |f.rows| && 0 <= j < |f.columns| ==>
      r.rows[i][j] == (if f.columns[j] == name then values[i] else f.rows[i][j])
    ensures name !in f.columns ==> forall i :: 0 <= i < |f.rows| ==> r.rows[i][|f.columns|] == values[i]
  {
    if name in f.columns then
      Frame(f.columns, seq(|f.rows|, i requires 0 <= i < |f.rows| =>
        seq(|f.columns|, j requires 0 <= j < |f.columns| =>
          if f.columns[j] == name then values[i] else f.rows[i][j])))
    else
      Frame(f.columns + [name], seq(|f.rows|, i requires 0 <= i < |f.rows| => f.rows[i] + [values[i]]))
  }

  /** `df[names]`: the named columns, in the order given. */
  function Project(f: Frame, names: seq<string>): (r: Frame)
    requires Rectangular(f)
    requires forall n :: n in names ==> n in f.columns
    ensures Rectangular(r) && r.columns == names && |r.rows| == |f.rows|
    ensures forall i, j :: 0 <= i < |f.rows| && 0 <= j < |names| ==>
      r.rows[i][j] == f.rows[i][IndexOf(f.columns, names[j])]
  {
    Frame(names, seq(|f.rows|, i requires 0 <= i < |f.rows| =>
      seq(|names|, j requires 0 <= j < |names| => f.rows[i][IndexOf(f.columns, names[j])])))
  }

  /** `df.rename(columns={from: to})`: every column called `from` is renamed;
      the cells stay where they are. */
  function Rename(f: Frame, from: string, to: string): (r: Frame)
    ensures |r.columns| == |f.columns| && r.rows == f.rows
    ensures forall j :: 0 <= j < |f.columns| ==>
      r.columns[j] == (if f.columns[j] == from then to else f.columns[j])
    ensures from != to ==> from !in r.columns
    ensures from in f.columns ==> to in r.columns
  {
    var cols := seq(|f.columns|, j requires 0 <= j < |f.columns| =>
      if f.columns[j] == from then to else f.columns[j]);
    if from in f.columns then
      assert cols[IndexOf(f.columns, from)] == to;
      Frame(cols, f.rows)
    else
      Frame(cols, f.rows)
  }

  /** The text `astype(str)` gives a cell: a null becomes "None". */
  function AsStr(c: Cell, render: nat -> string): (s: string)
    ensures c.Null? ==> s == "None"
    ensures c.Text? ==> s == c.s
    ensures c.Int? ==> s == IntText(c.i)
  {
    match c
    case Null => "None"
    case Text(t) => t
    case Int(i) => IntText(i)
    case Opaque(id) => render(id)
  }

  /** The cell `astype("string")` gives: a null stays missing, everything
      else becomes its text. */
  function AsStringDtype(c: Cell, render: nat -> string): (r: Cell)
    ensures c.Null? <==> r.Null?
    ensures r.Null? || r.Text?
    ensures c.Text? ==> r == c
  {
    if c.Null? then Null else Text(AsStr(c, render))
  }

  /** Casting a column to the string dtype: every cell in every column
      called `name` is cast, nothing else changes. */
  function CastColumn(f: Frame, name: string, render: nat -> string): (r: Frame)
    requires Rectangular(f)
    ensures Rectangular(r) && r.columns == f.columns && |r.rows| == |f.rows|
    ensures forall i, j :: 0 <= i < |f.rows| && 0 <= j < |f.columns| ==>
      r.rows[i][j] == (if f.columns[j] == name then AsStringDtype(f.rows[i][j], render) else f.rows[i][j])
  {
    Frame(f.columns, seq(|f.rows|, i requires 0 <= i < |f.rows| =>
      seq(|f.columns|, j requires 0 <= j < |f.columns| =>
        if f.columns[j] == name then AsStringDtype(f.rows[i][j], render) else f.rows[i][j])))
  }
}
