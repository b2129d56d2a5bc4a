/** The neighbourhood roll-up (analysis/06_compute_neighborhood_accessibility.py):
    tracts are joined to the neighbourhoods they intersect, the joined rows
    are summed per neighbourhood name, and the sums are merged back onto the
    neighbourhood table. The spatial join is a geometry call; its result
    arrives as the list of (tract, neighbourhood) position pairs it matched,
    in its output order. pandas' NaN is an explicit `None`. */
module NeighborhoodRollup {
  import opened Common

  const NEIGH_NAME: string := "neighborhood_name"
  const TRACT_POP: string := "population"
  const TRACT_POP15: string := "pop_within_15"
  const TRACT_SCORE: string := "accessibility_score"
  const GEOMETRY: string := "geometry"

  /** The tract columns the roll-up needs, in the order they are checked. */
  const REQUIRED_COLUMNS: seq<string> := [TRACT_POP, TRACT_POP15, TRACT_SCORE, GEOMETRY]

  /** The numbers of one tract row. */
  datatype TractRow = TractRow(population: real, popWithin15: real, accessibilityScore: real)

  /** One match of the spatial join: tract position, neighbourhood position. */
  datatype JoinPair = JoinPair(tract: nat, neighborhood: nat)

  /** One row of the joined table: the neighbourhood's name and the tract's numbers. */
  datatype JoinedRow = JoinedRow(name: string, tract: TractRow)

  /** The aggregated metrics of one neighbourhood. */
  datatype Metrics = Metrics(totalPopulation: real, totalPopWithin15: real,
                             coverageFraction: Option<real>, accessibilityScore: Option<real>)

  /** One output row: the neighbourhood's name and its metrics (None when no
      tract joined it). */
  datatype NeighborhoodOut = NeighborhoodOut(name: string, metrics: Option<Metrics>)

  /** `[c for c in required if c not in columns]`. */
  function MissingColumnList(required: seq<string>, columns: set<string>): (m: seq<string>)
    ensures |m| <= |required|
    ensures forall c :: c in m <==> c in required && c !in columns
    ensures m == [] <==> forall c :: c in required ==> c in columns
    ensures m != [] && required[0] !in columns ==> m[0] == required[0]
  {
    if required == [] then []
    else (if required[0] in columns then [] else [required[0]]) + MissingColumnList(required[1..], columns)
  }

  /** CRS alignment: neighbourhoods are reprojected to the tract CRS when the
      two differ, and `to_crs` fails when either side has none. */
  function AlignCrs(neighCrs: Option<string>, tractCrs: Option<string>): (r: Result<Option<string>>)
    ensures r.Ok? ==> r.value == tractCrs
    ensures r.Err? <==> neighCrs != tractCrs && (neighCrs.None? || tractCrs.None?)
    ensures r.Err? ==> r.error == MissingCrs
  {
    if neighCrs == tractCrs then Ok(neighCrs)
    else if neighCrs.None? || tractCrs.None? then Err(MissingCrs)
    else Ok(tractCrs)
  }

  predicate PairsInRange(tracts: seq<TractRow>, names: seq<string>, pairs: seq<JoinPair>) {
    forall k :: 0 <= k < |pairs| ==> pairs[k].tract < |tracts| && pairs[k].neighborhood < |names|
  }

  /** The inner join: one row per matched pair, in the join's order. */
  function Join(tracts: seq<TractRow>, names: seq<string>, pairs: seq<JoinPair>): (rows: seq<JoinedRow>)
    requires PairsInRange(tracts, names, pairs)
    ensures |rows| == |pairs|
    ensures forall k :: 0 <= k < |pairs| ==>
      rows[k] == JoinedRow(names[pairs[k].neighborhood], tracts[pairs[k].tract])
  {
    seq(|pairs|, k requires 0 <= k < |pairs| => JoinedRow(names[pairs[k].neighborhood], tracts[pairs[k].tract]))
  }

  /** The tract rows joined to the neighbourhood `name`, in join order. */
  function Group(rows: seq<JoinedRow>, name: string): (g: seq<TractRow>)
    ensures |g| <= |rows|
  {
    if rows == [] then []
    else (if rows[0].name == name then [rows[0].tract] else []) + Group(rows[1..], name)
  }

  /** A group holds only tracts joined under its name. */
  lemma {:induction false} GroupMembers(rows: seq<JoinedRow>, name: string)
    ensures forall t :: t in Group(rows, name) ==> JoinedRow(name, t) in rows
  {
    if rows != [] {
      GroupMembers(rows[1..], name);
      var g := Group(rows, name);
      forall t | t in g
        ensures JoinedRow(name, t) in rows
      {
        if !(rows[0].name == name && t == rows[0].tract) {
          assert t in Group(rows[1..], name);
          assert JoinedRow(name, t) in rows[1..];
        }
      }
    }
  }

  /** The score relation tract accessibility establishes:
      score × population = 100 × pop_within_15. */
  predicate ScoreMatches(t: TractRow) {
    t.accessibilityScore * t.population == 100.0 * t.popWithin15
  }

  /** 0 <= pop_within_15 <= population. */
  predicate WithinBounded(t: TractRow) {
    0.0 <= t.popWithin15 <= t.population
  }

  /** The neighbourhood names with at least one joined row. */
  function GroupKeys(rows: seq<JoinedRow>): set<string> {
    set k | 0 <= k < |rows| :: rows[k].name
  }

  function Sum(xs: seq<real>): real {
    if xs == [] then 0.0 else xs[0] + Sum(xs[1..])
  }

  /** Sum of products, `(values * weights).sum()`. */
  function Dot(values: seq<real>, weights: seq<real>): real
    requires |values| == |weights|
  {
    if values == [] then 0.0 else values[0] * weights[0] + Dot(values[1..], weights[1..])
  }

  function Populations(g: seq<TractRow>): (ps: seq<real>)
    ensures |ps| == |g| && forall k :: 0 <= k < |g| ==> ps[k] == g[k].population
  {
    seq(|g|, k requires 0 <= k < |g| => g[k].population)
  }

  function WithinPops(g: seq<TractRow>): (ps: seq<real>)
    ensures |ps| == |g| && forall k :: 0 <= k < |g| ==> ps[k] == g[k].popWithin15
  {
    seq(|g|, k requires 0 <= k < |g| => g[k].popWithin15)
  }

  function Scores(g: seq<TractRow>): (ss: seq<real>)
    ensures |ss| == |g| && forall k :: 0 <= k < |g| ==> ss[k] == g[k].accessibilityScore
  {
    seq(|g|, k requires 0 <= k < |g| => g[k].accessibilityScore)
  }

  /** `weighted_mean`: no data when the weights do not sum to a positive
      number, otherwise the weighted average. */
  function WeightedMean(values: seq<real>, weights: seq<real>): (m: Option<real>)
    requires |values| == |weights|
    ensures m.None? <==> Sum(weights) <= 0.0
    ensures m.Some? ==> m.value * Sum(weights) == Dot(values, weights)
  {
    var wSum := Sum(weights);
    if wSum <= 0.0 then None else Some(Dot(values, weights) / wSum)
  }

  /** The lower end of the bound: with non-negative weights, the weighted sum
      is at least `lo` times the weight sum when every value is at least `lo`. */
  lemma {:induction false} DotAtLeast(values: seq<real>, weights: seq<real>, lo: real)
    requires |values| == |weights|
    requires forall k :: 0 <= k < |weights| ==> weights[k] >= 0.0 && values[k] >= lo
    ensures Dot(values, weights) >= lo * Sum(weights)
  {
    if values != [] {
      DotAtLeast(values[1..], weights[1..], lo);
      ScaleLe(lo, values[0], weights[0]);
      assert Dot(values, weights) == values[0] * weights[0] + Dot(values[1..], weights[1..]);
      assert Sum(weights) == weights[0] + Sum(weights[1..]);
      assert lo * Sum(weights) == lo * weights[0] + lo * Sum(weights[1..]);
    }
  }

  /** The upper end of the bound. */
  lemma {:induction false} DotAtMost(values: seq<real>, weights: seq<real>, hi: real)
    requires |values| == |weights|
    requires forall k :: 0 <= k < |weights| ==> weights[k] >= 0.0 && values[k] <= hi
    ensures Dot(values, weights) <= hi * Sum(weights)
  {
    if values != [] {
      DotAtMost(values[1..], weights[1..], hi);
      ScaleLe(values[0], hi, weights[0]);
      assert Dot(values, weights) == values[0] * weights[0] + Dot(values[1..], weights[1..]);
      assert Sum(weights) == weights[0] + Sum(weights[1..]);
      assert hi * Sum(weights) == hi * weights[0] + hi * Sum(weights[1..]);
    }
  }

  /** With non-negative weights the weighted mean lies between any lower and
      upper bound of the values, so between their minimum and maximum. */
  lemma WeightedMeanBetween(values: seq<real>, weights: seq<real>, lo: real, hi: real)
    requires |values| == |weights|
    requires forall k :: 0 <= k < |weights| ==> weights[k] >= 0.0 && lo <= values[k] <= hi
    requires Sum(weights) > 0.0
    ensures lo <= WeightedMean(values, weights).value <= hi
  {
    DotAtLeast(values, weights, lo);
    DotAtMost(values, weights, hi);
    var w := Sum(weights);
    QuotientBounds(Dot(values, weights), w, lo, hi);
  }

  /** The metrics of one neighbourhood over the joined rows. The coverage
      ratio has no zero guard in the source; a zero total is non-finite
      there and is None here. */
  function GroupMetrics(rows: seq<JoinedRow>, name: string): (m: Metrics)
    ensures m.coverageFraction.None? <==> m.totalPopulation == 0.0
    ensures m.coverageFraction.Some? ==> m.coverageFraction.value * m.totalPopulation == m.totalPopWithin15
  {
    var g := Group(rows, name);
    var total := Sum(Populations(g));
    var within := Sum(WithinPops(g));
    Metrics(total, within,
            if total == 0.0 then None else Some(within / total),
            WeightedMean(Scores(g), Populations(g)))
  }

  /** The left merge: every neighbourhood row survives, in its own order;
      one without joined tracts gets no metrics. */
  function Merge(names: seq<string>, rows: seq<JoinedRow>): (out: seq<NeighborhoodOut>)
    ensures |out| == |names|
    ensures forall i :: 0 <= i < |names| ==> out[i].name == names[i]
    ensures forall i :: 0 <= i < |names| ==> (out[i].metrics.None? <==> names[i] !in GroupKeys(rows))
    ensures forall i :: 0 <= i < |names| && out[i].metrics.Some? ==> out[i].metrics.value == GroupMetrics(rows, names[i])
  {
    seq(|names|, i requires 0 <= i < |names| =>
      NeighborhoodOut(names[i], if names[i] in GroupKeys(rows) then Some(GroupMetrics(rows, names[i])) else None))
  }

  /** `main` after loading: column check, CRS alignment, join, empty-join
      check, aggregation and merge. */
  function RollUp(tractColumns: set<string>, neighCrs: Option<string>, tractCrs: Option<string>,
                  tracts: seq<TractRow>, names: seq<string>, pairs: seq<JoinPair>): (r: Result<seq<NeighborhoodOut>>)
    requires PairsInRange(tracts, names, pairs)
    ensures MissingColumnList(REQUIRED_COLUMNS, tractColumns) != [] ==>
      r == Err(MissingColumns(MissingColumnList(REQUIRED_COLUMNS, tractColumns))) && ExceptionOf(r.error) == KeyError
    ensures r.Ok? ==> pairs != [] && |r.value| == |names|
    ensures r.Ok? ==> r.value == Merge(names, Join(tracts, names, pairs))
    ensures r.Err? && r.error == EmptyJoin ==> pairs == [] && ExceptionOf(r.error) == ValueError
  {
    var missing := MissingColumnList(REQUIRED_COLUMNS, tractColumns);
    if missing != [] then Err(MissingColumns(missing))
    else match AlignCrs(neighCrs, tractCrs)
      case Err(e) => Err(e)
      case Ok(_) =>
        var rows := Join(tracts, names, pairs);
        if rows == [] then Err(EmptyJoin) else Ok(Merge(names, rows))
  }

  /** The checks run in order: a missing column wins over a CRS problem, and
      both over an empty join. */
  lemma {:induction false} RollUpErrorOrder(tractColumns: set<string>, neighCrs: Option<string>, tractCrs: Option<string>,
                                            tracts: seq<TractRow>, names: seq<string>, pairs: seq<JoinPair>)
    requires PairsInRange(tracts, names, pairs)
    ensures var r := RollUp(tractColumns, neighCrs, tractCrs, tracts, names, pairs);
      && (r.Ok? <==> (forall c :: c in REQUIRED_COLUMNS ==> c in tractColumns)
                     && AlignCrs(neighCrs, tractCrs).Ok? && pairs != [])
      && (r == Err(MissingCrs) <==> (forall c :: c in REQUIRED_COLUMNS ==> c in tractColumns)
                                    && AlignCrs(neighCrs, tractCrs).Err?)
  {
  }

  lemma {:induction false} SumConcat(xs: seq<real>, ys: seq<real>)
    ensures Sum(xs + ys) == Sum(xs) + Sum(ys)
  {
    if xs == [] {
      assert xs + ys == ys;
    } else {
      SumConcat(xs[1..], ys);
      assert (xs + ys)[0] == xs[0];
      assert (xs + ys)[1..] == xs[1..] + ys;
    }
  }

  /** Unfolding `Group` on a row placed in front. */
  lemma GroupCons(x: JoinedRow, rest: seq<JoinedRow>, name: string)
    ensures Group([x] + rest, name) == (if x.name == name then [x.tract] else []) + Group(rest, name)
  {
    var s := [x] + rest;
    assert s[0] == x && s[1..] == rest;
  }

  lemma {:induction false} GroupConcat(a: seq<JoinedRow>, b: seq<JoinedRow>, name: string)
    ensures Group(a + b, name) == Group(a, name) + Group(b, name)
  {
    if a == [] {
      assert a + b == b;
    } else {
      var x, r := a[0], a[1..];
      assert a == [x] + r;
      assert a + b == [x] + (r + b);
      GroupConcat(r, b, name);
      GroupCons(x, r + b, name);
      GroupCons(x, r, name);
      var head := if x.name == name then [x.tract] else [];
      assert head + (Group(r, name) + Group(b, name)) == (head + Group(r, name)) + Group(b, name);
    }
  }

  lemma {:induction false} PopulationsConcat(g: seq<TractRow>, h: seq<TractRow>)
    ensures Populations(g + h) == Populations(g) + Populations(h)
  {
    assert forall k :: 0 <= k < |g + h| ==> Populations(g + h)[k] == (Populations(g) + Populations(h))[k];
  }

  /** The total of a group is a plain sum over its joined rows: each joined
      row adds its tract's full population to its own neighbourhood's total
      and nothing to any other, however many neighbourhoods that tract also
      joins. */
  lemma {:induction false} EachJoinedRowCountsFully(rows: seq<JoinedRow>, i: nat, name: string)
    requires i < |rows|
    ensures var rest := rows[..i] + rows[i + 1..];
      Sum(Populations(Group(rows, name)))
        == Sum(Populations(Group(rest, name))) + (if rows[i].name == name then rows[i].tract.population else 0.0)
  {
    var a, x, b := rows[..i], [rows[i]], rows[i + 1..];
    assert rows == a + x + b;
    GroupConcat(a + x, b, name);
    GroupConcat(a, x, name);
    GroupConcat(a, b, name);
    assert x[1..] == [];
    var ga, gx, gb := Group(a, name), Group(x, name), Group(b, name);
    PopulationsConcat(ga + gx, gb);
    PopulationsConcat(ga, gx);
    PopulationsConcat(ga, gb);
    SumConcat(Populations(ga) + Populations(gx), Populations(gb));
    SumConcat(Populations(ga), Populations(gx));
    SumConcat(Populations(ga), Populations(gb));
    assert Sum(Populations(gx)) == (if rows[i].name == name then rows[i].tract.population else 0.0) by {
      if rows[i].name == name {
        assert Populations(gx) == [rows[i].tract.population];
        assert Populations(gx)[1..] == [];
      } else {
        assert Populations(gx) == [];
      }
    }
  }

  lemma {:induction false} SumsOrdered(g: seq<TractRow>)
    requires forall k :: 0 <= k < |g| ==> WithinBounded(g[k])
    ensures 0.0 <= Sum(WithinPops(g)) <= Sum(Populations(g))
  {
    if g != [] {
      SumsOrdered(g[1..]);
      assert WithinPops(g)[1..] == WithinPops(g[1..]);
      assert Populations(g)[1..] == Populations(g[1..]);
    }
  }

  /** When every joined row has 0 <= pop_within_15 <= population, a
      neighbourhood's coverage lies in [0, 1]. */
  lemma CoverageInUnitInterval(rows: seq<JoinedRow>, name: string)
    requires forall k :: 0 <= k < |rows| ==> WithinBounded(rows[k].tract)
    ensures var m := GroupMetrics(rows, name);
      m.coverageFraction.Some? ==> 0.0 <= m.coverageFraction.value <= 1.0
  {
    var g := Group(rows, name);
    GroupKeeps(rows, name, WithinBounded);
    SumsOrdered(g);
    var total := Sum(Populations(g));
    var within := Sum(WithinPops(g));
    if total != 0.0 {
      QuotientBounds(within, total, 0.0, 1.0);
    }
  }

  /** The score weighted by population is 100 times the population within
      reach, summed, when every row's score is the one tract accessibility
      computes (score × population = 100 × pop_within_15). */
  lemma {:induction false} DotOfScores(g: seq<TractRow>)
    requires forall k :: 0 <= k < |g| ==> ScoreMatches(g[k])
    ensures Dot(Scores(g), Populations(g)) == 100.0 * Sum(WithinPops(g))
  {
    if g != [] {
      DotOfScores(g[1..]);
      assert Scores(g)[1..] == Scores(g[1..]);
      assert Populations(g)[1..] == Populations(g[1..]);
      assert WithinPops(g)[1..] == WithinPops(g[1..]);
    }
  }

  /** With tract scores as tract accessibility computes them and a positive
      total, the neighbourhood score is 100 times its coverage. */
  lemma ScoreIsScaledCoverage(rows: seq<JoinedRow>, name: string)
    requires forall k :: 0 <= k < |rows| ==> ScoreMatches(rows[k].tract)
    requires Sum(Populations(Group(rows, name))) > 0.0
    ensures var m := GroupMetrics(rows, name);
      m.accessibilityScore.Some? && m.coverageFraction.Some?
      && m.accessibilityScore.value == 100.0 * m.coverageFraction.value
  {
    var g := Group(rows, name);
    GroupKeeps(rows, name, ScoreMatches);
    DotOfScores(g);
    var total := Sum(Populations(g));
    var within := Sum(WithinPops(g));
    var m := GroupMetrics(rows, name);
    assert m.accessibilityScore.value * total == 100.0 * within;
    ScaledRatio(m.accessibilityScore.value, m.coverageFraction.value, total, within);
  }

  /** A property every joined tract has holds for every tract of a group. */
  lemma {:induction false} GroupKeeps(rows: seq<JoinedRow>, name: string, p: TractRow -> bool)
    requires forall k :: 0 <= k < |rows| ==> p(rows[k].tract)
    ensures forall k :: 0 <= k < |Group(rows, name)| ==> p(Group(rows, name)[k])
  {
    if rows != [] {
      var rest := rows[1..];
      assert forall k :: 0 <= k < |rest| ==> p(rest[k].tract) by {
        forall k | 0 <= k < |rest| ensures p(rest[k].tract) {
          assert rest[k] == rows[k + 1];
        }
      }
      GroupKeeps(rest, name, p);
      var head := if rows[0].name == name then [rows[0].tract] else [];
      var g := Group(rows, name);
      assert g == head + Group(rest, name);
      forall k | 0 <= k < |g| ensures p(g[k]) {
        if k >= |head| {
          assert g[k] == Group(rest, name)[k - |head|];
        }
      }
    }
  }

  /** Two ratios over one positive total: a = 100 within / total and
      c = within / total give a = 100 c. */
  lemma ScaledRatio(a: real, c: real, total: real, within: real)
    requires total > 0.0 && a * total == 100.0 * within && c * total == within
    ensures a == 100.0 * c
  {
    assert (100.0 * c) * total == 100.0 * (c * total);
    CancelFactor(a, 100.0 * c, total);
  }
}
