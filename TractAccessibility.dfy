/** Tract coverage (analysis/04_compute_tract_accessibility.py): the share of
    each census tract's area inside the union of the park isochrones, the
    population living in that share, and a 0..100 accessibility score. The
    projection, the union and the intersection are geometry calls; their
    results arrive as data: the tract area and the intersection area (None
    when the intersection is empty). */
module TractAccessibility {
  import opened Common

  const POPULATION_COLUMN: string := "population"

  /** A tract geometry in the projected CRS. */
  datatype TractGeometry = TractGeometry(isEmpty: bool, area: real, intersection: Option<real>)

  /** One tract row: its geometry (None for a null one) and its `population`
      cell (None when the key is missing or the value is Python `None`). */
  datatype Tract = Tract(geometry: Option<TractGeometry>, population: Option<real>)

  /** The columns the script adds to a tract. */
  datatype TractMetrics = TractMetrics(coverageFraction: real, popWithin15: real,
                                       totalPop: Option<real>, accessibilityScore: real)

  /** `float(row.get("population", 0) or 0)`: a missing or `None` population is 0. */
  function PopulationOf(t: Tract): (p: real)
    ensures t.population.None? ==> p == 0.0
    ensures t.population.Some? ==> p == t.population.value
  {
    match t.population
    case None => 0.0
    case Some(v) => v
  }

  /** `max(0.0, min(1.0, x))`. */
  function Clamp01(x: real): (c: real)
    ensures 0.0 <= c <= 1.0
    ensures 0.0 <= x <= 1.0 ==> c == x
    ensures x < 0.0 ==> c == 0.0
    ensures x > 1.0 ==> c == 1.0
  {
    if x < 0.0 then 0.0 else if x > 1.0 then 1.0 else x
  }

  /** The skip guards of the loop: no usable geometry, no population, or no area. */
  predicate Skipped(t: Tract) {
    t.geometry.None? || t.geometry.value.isEmpty || PopulationOf(t) <= 0.0 || t.geometry.value.area <= 0.0
  }

  /** The coverage fraction of one tract. */
  function Coverage(t: Tract): (c: real)
    ensures 0.0 <= c <= 1.0
  {
    if t.geometry.None? || t.geometry.value.isEmpty || PopulationOf(t) <= 0.0 then 0.0
    else if t.geometry.value.area <= 0.0 then 0.0
    else
      var frac := match t.geometry.value.intersection
        case None => 0.0
        case Some(a) => a / t.geometry.value.area;
      Clamp01(frac)
  }

  /** Coverage is 0 for a skipped tract or an empty intersection, and
      otherwise the clamped ratio of intersection area to tract area; it is
      exactly that ratio when the intersection lies inside the tract. */
  lemma CoverageCases(t: Tract)
    ensures Skipped(t) ==> Coverage(t) == 0.0
    ensures !Skipped(t) && t.geometry.value.intersection.None? ==> Coverage(t) == 0.0
    ensures !Skipped(t) && t.geometry.value.intersection.Some? ==>
      Coverage(t) == Clamp01(t.geometry.value.intersection.value / t.geometry.value.area)
    ensures !Skipped(t) && t.geometry.value.intersection.Some?
            && 0.0 <= t.geometry.value.intersection.value <= t.geometry.value.area ==>
      Coverage(t) * t.geometry.value.area == t.geometry.value.intersection.value
  {
    if !Skipped(t) && t.geometry.value.intersection.Some? {
      var a := t.geometry.value.intersection.value;
      var area := t.geometry.value.area;
      if 0.0 <= a <= area {
        assert 0.0 <= a / area <= 1.0;
      }
    }
  }

  /** The population within reach: never negative, never above the tract's
      population, and 0 exactly when the tract is skipped or not covered. */
  lemma {:induction false} PopWithinBounds(t: Tract)
    ensures 0.0 <= PopulationOf(t) * Coverage(t)
    ensures PopulationOf(t) > 0.0 ==> PopulationOf(t) * Coverage(t) <= PopulationOf(t)
    ensures PopulationOf(t) <= 0.0 ==> PopulationOf(t) * Coverage(t) == 0.0
    ensures PopulationOf(t) * Coverage(t) == 0.0 <==> (Skipped(t) || Coverage(t) == 0.0)
  {
    var p := PopulationOf(t);
    var c := Coverage(t);
    if p > 0.0 {
      assert p * c <= p * 1.0;
    }
  }

  /** The per-tract loop: one coverage value and one `pop_within_15` value per
      tract, in tract order. */
  method CoverageColumns(tracts: seq<Tract>) returns (coverage: seq<real>, popWithin: seq<real>)
    ensures |coverage| == |tracts| && |popWithin| == |tracts|
    ensures forall i :: 0 <= i < |tracts| ==> coverage[i] == Coverage(tracts[i])
    ensures forall i :: 0 <= i < |tracts| ==> popWithin[i] == PopulationOf(tracts[i]) * Coverage(tracts[i])
  {
    coverage := [];
    popWithin := [];
    var i := 0;
    while i < |tracts|
      invariant 0 <= i <= |tracts|
      invariant |coverage| == i && |popWithin| == i
      invariant forall k :: 0 <= k < i ==> coverage[k] == Coverage(tracts[k])
      invariant forall k :: 0 <= k < i ==> popWithin[k] == PopulationOf(tracts[k]) * Coverage(tracts[k])
    {
      var row := tracts[i];
      var totalPop := match row.population case None => 0.0 case Some(v) => v;
      i := i + 1;
      if row.geometry.None? || row.geometry.value.isEmpty || totalPop <= 0.0 {
        coverage := coverage + [0.0];
        popWithin := popWithin + [0.0];
        continue;
      }
      var geom := row.geometry.value;
      var tractArea := geom.area;
      if tractArea <= 0.0 {
        coverage := coverage + [0.0];
        popWithin := popWithin + [0.0];
        continue;
      }
      var frac := match geom.intersection case None => 0.0 case Some(a) => a / tractArea;
      frac := if 1.0 < frac then 1.0 else frac;
      frac := if frac < 0.0 then 0.0 else frac;
      coverage := coverage + [frac];
      popWithin := popWithin + [totalPop * frac];
    }
  }

  /** `100 * pop_within_15 / denom`, with denominator 1 where `total_pop` is
      not positive (a null cell compares false). */
  function AccessibilityScore(popWithin: real, totalPop: Option<real>): (s: real)
    ensures totalPop.Some? && totalPop.value > 0.0 ==> s * totalPop.value == 100.0 * popWithin
    ensures !(totalPop.Some? && totalPop.value > 0.0) ==> s == 100.0 * popWithin
  {
    var denom := if totalPop.Some? && totalPop.value > 0.0 then totalPop.value else 1.0;
    100.0 * popWithin / denom
  }

  /** For the loop's own `pop_within_15`, the score is 100 times the coverage
      for a populated tract and 0 otherwise, so it lies in [0, 100]. */
  lemma {:induction false} ScoreIsScaledCoverage(t: Tract)
    ensures var s := AccessibilityScore(PopulationOf(t) * Coverage(t), t.population);
      && (PopulationOf(t) > 0.0 ==> s == 100.0 * Coverage(t))
      && (PopulationOf(t) <= 0.0 ==> s == 0.0)
      && 0.0 <= s <= 100.0
  {
    var p := PopulationOf(t);
    var c := Coverage(t);
    var s := AccessibilityScore(p * c, t.population);
    PopWithinBounds(t);
    if p > 0.0 {
      assert t.population.Some? && t.population.value == p;
      assert s == 100.0 * (p * c) / p;
      assert 100.0 * (p * c) == (100.0 * c) * p;
      DivCancel(100.0 * c, p);
    }
  }

  /** The metrics of every tract, as the loop and the column expressions
      produce them. */
  function Metrics(tracts: seq<Tract>): (ms: seq<TractMetrics>)
    ensures |ms| == |tracts|
    ensures forall i :: 0 <= i < |tracts| ==> 0.0 <= ms[i].coverageFraction <= 1.0
    ensures forall i :: 0 <= i < |tracts| ==> ms[i].totalPop == tracts[i].population
  {
    seq(|tracts|, i requires 0 <= i < |tracts| => MetricsOf(tracts[i]))
  }

  /** The four columns of one tract: `total_pop` copies the cell, coverage
      lies in [0, 1], the population within reach lies between 0 and the
      population, and the score lies in [0, 100] and is 100 times the
      coverage for a populated tract. */
  function MetricsOf(t: Tract): (m: TractMetrics)
    ensures m.totalPop == t.population && m.coverageFraction == Coverage(t)
    ensures 0.0 <= m.coverageFraction <= 1.0
    ensures 0.0 <= m.popWithin15 && (PopulationOf(t) > 0.0 ==> m.popWithin15 <= PopulationOf(t))
    ensures m.popWithin15 == 0.0 <==> (Skipped(t) || Coverage(t) == 0.0)
    ensures 0.0 <= m.accessibilityScore <= 100.0
    ensures PopulationOf(t) > 0.0 ==> m.accessibilityScore == 100.0 * m.coverageFraction
    ensures PopulationOf(t) <= 0.0 ==> m.popWithin15 == 0.0 && m.accessibilityScore == 0.0
  {
    var c := Coverage(t);
    var pw := PopulationOf(t) * c;
    PopWithinBounds(t);
    ScoreIsScaledCoverage(t);
    assert c == Coverage(t) && pw == PopulationOf(t) * Coverage(t);
    TractMetrics(c, pw, t.population, AccessibilityScore(pw, t.population))
  }

  /** `main` after loading: the loop, then the columns; copying the
      `population` column into `total_pop` raises KeyError when the column
      does not exist. */
  method ComputeTractAccessibility(tracts: seq<Tract>, hasPopulationColumn: bool) returns (r: Result<seq<TractMetrics>>)
    ensures !hasPopulationColumn <==> r == Err(MissingColumns([POPULATION_COLUMN]))
    ensures r.Err? ==> ExceptionOf(r.error) == KeyError
    ensures hasPopulationColumn ==> r == Ok(Metrics(tracts))
  {
    var coverage, popWithin := CoverageColumns(tracts);
    if !hasPopulationColumn {
      return Err(MissingColumns([POPULATION_COLUMN]));
    }
    var rows := seq(|tracts|, i requires 0 <= i < |tracts| =>
      TractMetrics(coverage[i], popWithin[i], tracts[i].population,
                   AccessibilityScore(popWithin[i], tracts[i].population)));
    assert forall i :: 0 <= i < |tracts| ==> rows[i] == MetricsOf(tracts[i]) == Metrics(tracts)[i];
    assert rows == Metrics(tracts);
    return Ok(rows);
  }
}
