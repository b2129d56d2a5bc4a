/** Tract preparation (analysis/03_prepare_tracts.py): pick the one census
    shapefile, check the layer's CRS, clip to the city boundary, rename the
    county's `POPULATION` column and cast `GEOID` to strings. The list of
    shapefile matches and the clipped table arrive as data. */
module PrepareTracts {
  import opened Common
  import opened Frames

  const RAW_POPULATION_COLUMN: string := "POPULATION"
  const POPULATION_COLUMN: string := "population"
  const GEOID_COLUMN: string := "GEOID"

  /** `get_paths`: the `*.shp` matches of the census directory must be
      exactly one file. */
  function SelectShapefile(matches: seq<string>): (r: Result<string>)
    ensures r.Ok? <==> |matches| == 1
    ensures r.Ok? ==> r.value == matches[0]
    ensures matches == [] ==> r == Err(NoShapefile) && ExceptionOf(r.error) == FileNotFoundError
    ensures |matches| > 1 ==> r == Err(MultipleShapefiles) && ExceptionOf(r.error) == RuntimeError
  {
    if matches == [] then Err(NoShapefile)
    else if |matches| > 1 then Err(MultipleShapefiles)
    else Ok(matches[0])
  }

  /** `main` from the path lookup on: the shapefile selection, the CRS
      check, the reprojection of the boundary to the tracts' CRS (which
      raises ValueError for a boundary without one), then the column checks
      on the clipped table `clipped`, the rename and the cast. */
  function PrepareTracts(matches: seq<string>, tractsCrs: Option<string>, boundaryCrs: Option<string>,
                         clipped: Frame, render: nat -> string): (r: Result<Frame>)
    requires Rectangular(clipped)
    ensures r.Err? ==> ExceptionOf(r.error) in {FileNotFoundError, RuntimeError, ValueError, KeyError}
    ensures r.Ok? ==> |matches| == 1 && tractsCrs.Some? && boundaryCrs.Some?
    ensures r.Ok? ==> Rectangular(r.value) && |r.value.rows| == |clipped.rows|
    ensures r.Ok? ==> POPULATION_COLUMN in r.value.columns && GEOID_COLUMN in r.value.columns
  {
    match SelectShapefile(matches)
    case Err(e) => Err(e)
    case Ok(_) =>
      if tractsCrs.None? then Err(MissingCrs)
      else if boundaryCrs.None? then Err(MissingCrs)
      else if RAW_POPULATION_COLUMN !in clipped.columns then Err(MissingColumns([RAW_POPULATION_COLUMN]))
      else
        var renamed := Rename(clipped, RAW_POPULATION_COLUMN, POPULATION_COLUMN);
        if GEOID_COLUMN !in renamed.columns then Err(MissingColumns([GEOID_COLUMN]))
        else Ok(CastColumn(renamed, GEOID_COLUMN, render))
  }

  /** The checks fire in the order of the script: one shapefile, a tract
      CRS, `POPULATION`, then `GEOID`; each has its exception class. */
  lemma PrepareTractsErrors(matches: seq<string>, tractsCrs: Option<string>, boundaryCrs: Option<string>,
                            clipped: Frame, render: nat -> string)
    requires Rectangular(clipped)
    ensures var r := PrepareTracts(matches, tractsCrs, boundaryCrs, clipped, render);
      && (matches == [] ==> r == Err(NoShapefile))
      && (|matches| > 1 ==> r == Err(MultipleShapefiles))
      && (|matches| == 1 && tractsCrs.None? ==> r == Err(MissingCrs) && ExceptionOf(r.error) == ValueError)
      && (|matches| == 1 && tractsCrs.Some? && boundaryCrs.Some? && RAW_POPULATION_COLUMN !in clipped.columns ==>
            r == Err(MissingColumns([RAW_POPULATION_COLUMN])) && ExceptionOf(r.error) == KeyError)
      && (|matches| == 1 && tractsCrs.Some? && boundaryCrs.Some? && RAW_POPULATION_COLUMN in clipped.columns
          && GEOID_COLUMN !in clipped.columns ==>
            r == Err(MissingColumns([GEOID_COLUMN])) && ExceptionOf(r.error) == KeyError)
      && (r.Ok? <==> |matches| == 1 && tractsCrs.Some? && boundaryCrs.Some?
                     && RAW_POPULATION_COLUMN in clipped.columns && GEOID_COLUMN in clipped.columns)
  {
    var renamed := Rename(clipped, RAW_POPULATION_COLUMN, POPULATION_COLUMN);
    if GEOID_COLUMN in clipped.columns {
      var j := IndexOf(clipped.columns, GEOID_COLUMN);
      assert renamed.columns[j] == GEOID_COLUMN;
    }
  }

  /** On success: the same rows; `POPULATION` is now called `population`
      and keeps its cells; every `GEOID` cell is a string or missing, a
      string one unchanged, a missing one still missing; every other column
      keeps its name and its cells. */
  lemma {:induction false} PrepareTractsResult(matches: seq<string>, tractsCrs: Option<string>, boundaryCrs: Option<string>,
                                               clipped: Frame, render: nat -> string)
    requires Rectangular(clipped)
    requires PrepareTracts(matches, tractsCrs, boundaryCrs, clipped, render).Ok?
    ensures var out := PrepareTracts(matches, tractsCrs, boundaryCrs, clipped, render).value;
      && Rectangular(out) && |out.rows| == |clipped.rows| && |out.columns| == |clipped.columns|
      && RAW_POPULATION_COLUMN !in out.columns && POPULATION_COLUMN in out.columns && GEOID_COLUMN in out.columns
      && (forall j :: 0 <= j < |clipped.columns| && clipped.columns[j] == RAW_POPULATION_COLUMN ==>
            out.columns[j] == POPULATION_COLUMN && forall i :: 0 <= i < |clipped.rows| ==> out.rows[i][j] == clipped.rows[i][j])
      && (forall j :: 0 <= j < |clipped.columns| && clipped.columns[j] == GEOID_COLUMN ==>
            out.columns[j] == GEOID_COLUMN
            && forall i :: 0 <= i < |clipped.rows| ==>
                 && (out.rows[i][j].Text? || out.rows[i][j].Null?)
                 && (clipped.rows[i][j].Null? <==> out.rows[i][j].Null?)
                 && (clipped.rows[i][j].Text? ==> out.rows[i][j] == clipped.rows[i][j]))
      && (forall j :: 0 <= j < |clipped.columns| && clipped.columns[j] != RAW_POPULATION_COLUMN
                      && clipped.columns[j] != GEOID_COLUMN ==>
            out.columns[j] == clipped.columns[j] && forall i :: 0 <= i < |clipped.rows| ==> out.rows[i][j] == clipped.rows[i][j])
  {
    var renamed := Rename(clipped, RAW_POPULATION_COLUMN, POPULATION_COLUMN);
    var out := CastColumn(renamed, GEOID_COLUMN, render);
    assert PrepareTracts(matches, tractsCrs, boundaryCrs, clipped, render).value == out;
    assert Rectangular(renamed);
  }
}
