/** The archived cell-level accessibility layer
    (analysis/archive/05_compute_accessibility_grid.py): a population cell
    counts as reached when its centroid lies inside the union of the park
    isochrones, and then all of its population is within 15 minutes. The
    union, the centroids and the point-in-polygon test are geometry calls;
    the test arrives as the function `inside`. */
module AccessibilityGrid {
  import opened Common

  /** The grid column the script copies into `total_pop`. */
  const POPULATION_COLUMN: string := "population"

  /** A population cell: its centroid and its `population` value. */
  datatype PopCell = PopCell(centroid: (real, real), population: int)

  /** The columns the script adds to a cell; the score is None where pandas
      divides 0 by 0 (a cell without population). */
  datatype CellAccess = CellAccess(within15min: bool, totalPop: int, popWithin15: int, score: Option<real>)

  /** The flag loop: one centroid test per cell, in cell order. */
  method WithinFlags(cells: seq<PopCell>, inside: ((real, real)) -> bool) returns (flags: seq<bool>)
    ensures |flags| == |cells|
    ensures forall i :: 0 <= i < |cells| ==> flags[i] == inside(cells[i].centroid)
  {
    flags := [];
    for i := 0 to |cells|
      invariant |flags| == i
      invariant forall k :: 0 <= k < i ==> flags[k] == inside(cells[k].centroid)
    {
      flags := flags + [inside(cells[i].centroid)];
    }
  }

  /** The column expressions for one cell: `total_pop` copies the
      population, `pop_within_15` keeps it where the flag holds and is 0
      elsewhere, and the score is `100 * pop_within_15 / total_pop`. */
  function Access(population: int, within: bool): (a: CellAccess)
    ensures a.within15min == within && a.totalPop == population
    ensures a.popWithin15 == (if within then population else 0)
    ensures a.score.None? <==> population == 0
  {
    var pw := if within then population else 0;
    CellAccess(within, population, pw,
               if population == 0 then None else Some(100.0 * pw as real / population as real))
  }

  /** Every populated cell scores exactly 100 when reached and 0 when not;
      only an empty cell has no score. */
  lemma {:induction false} ScoreIsAllOrNothing(population: int, within: bool)
    ensures var a := Access(population, within);
      && (population != 0 && within ==> a.score == Some(100.0))
      && (population != 0 && !within ==> a.score == Some(0.0))
      && (population == 0 ==> a.score.None?)
  {
    if population != 0 && within {
      DivCancel(100.0, population as real);
    }
  }

  /** `main` after loading: the flag loop, then the three columns; reading
      the `population` column raises KeyError when the grid has none. */
  method ComputeAccessibilityGrid(cells: seq<PopCell>, hasPopulationColumn: bool, inside: ((real, real)) -> bool)
    returns (r: Result<seq<CellAccess>>)
    ensures !hasPopulationColumn <==> r == Err(MissingColumns([POPULATION_COLUMN]))
    ensures r.Err? ==> ExceptionOf(r.error) == KeyError
    ensures r.Ok? ==> |r.value| == |cells|
    ensures r.Ok? ==> forall i :: 0 <= i < |cells| ==>
      r.value[i] == Access(cells[i].population, inside(cells[i].centroid))
  {
    var flags := WithinFlags(cells, inside);
    if !hasPopulationColumn {
      return Err(MissingColumns([POPULATION_COLUMN]));
    }
    var out := seq(|cells|, i requires 0 <= i < |cells| => Access(cells[i].population, flags[i]));
    return Ok(out);
  }
}
