/** The batch isochrone driver of analysis/02_generate_isochrones.py: for
    every park, the nearest street node to its centroid is the source, the
    nodes within fifteen walking minutes are collected, and their convex hull
    becomes the park's isochrone feature. The geometry library calls are
    oracles: `nearest` is the node lookup (None when it raises), `hull` the
    polygon construction over a node set (None when it raises). */
module IsochroneBatch {
  import opened Common
  import opened StreetNetwork
  import opened Reachability

  /** The name a park carries when the table has no `name` column. */
  const UNNAMED_PARK: string := "Unnamed park"

  /** The optional limit on the number of parks processed (None = all). */
  const MAX_PARKS: Option<nat> := None

  datatype Point = Point(x: real, y: real)

  /** An isochrone polygon as the hull construction returns it. */
  datatype Polygon = Polygon(ring: seq<Point>)

  /** A park geometry, reduced to what the driver reads from it. */
  datatype Geometry = Geometry(isEmpty: bool, centroid: Point)

  /** One row of the parks table: its index label, its `name` cell and its
      geometry (None for a null geometry). */
  datatype Park = Park(index: int, name: string, geometry: Option<Geometry>)

  /** One output feature: `park_id`, `park_name`, `minutes`, `geometry`. */
  datatype Feature = Feature(parkId: int, parkName: string, minutes: int, polygon: Polygon)

  /** `park.get("name", "Unnamed park")`. */
  function ParkName(hasNameColumn: bool, park: Park): (n: string)
    ensures hasNameColumn ==> n == park.name
    ensures !hasNameColumn ==> n == UNNAMED_PARK
  {
    if hasNameColumn then park.name else UNNAMED_PARK
  }

  /** `parks.iloc[:MAX_PARKS]` when a limit is set. */
  function Limit(parks: seq<Park>, maxParks: Option<nat>): (r: seq<Park>)
    ensures maxParks.None? ==> r == parks
    ensures maxParks.Some? ==> |r| == (if maxParks.value < |parks| then maxParks.value else |parks|)
    ensures r <= parks
  {
    match maxParks
    case None => parks
    case Some(n) => if n < |parks| then parks[..n] else parks
  }

  /** The nodes within the isochrone budget of `source`. */
  ghost function Isochrone(es: seq<Edge>, source: NodeId): set<NodeId> {
    ReachableSet(es, source, CutoffSeconds(ISOCHRONE_MINUTES))
  }

  /** What one park contributes: a feature, or nothing when it is skipped. */
  ghost function Outcome(es: seq<Edge>, park: Park, hasNameColumn: bool,
                         nearest: Point -> Option<NodeId>, hull: set<NodeId> -> Option<Polygon>): Option<Feature>
  {
    match park.geometry
    case None => None
    case Some(g) =>
      if g.isEmpty then None
      else match nearest(g.centroid)
        case None => None
        case Some(source) =>
          var reach := Isochrone(es, source);
          if reach == {} then None
          else match hull(reach)
            case None => None
            case Some(poly) => Some(Feature(park.index, ParkName(hasNameColumn, park), ISOCHRONE_MINUTES, poly))
  }

  /** The features of a run over `parks`, in park order. */
  ghost function Features(es: seq<Edge>, parks: seq<Park>, hasNameColumn: bool,
                          nearest: Point -> Option<NodeId>, hull: set<NodeId> -> Option<Polygon>): (fs: seq<Feature>)
    ensures |fs| <= |parks|
    ensures forall k :: 0 <= k < |fs| ==> fs[k].minutes == ISOCHRONE_MINUTES
    ensures forall k :: 0 <= k < |fs| ==> exists j :: 0 <= j < |parks| && fs[k].parkId == parks[j].index
  {
    if parks == [] then []
    else
      var front := Features(es, parks[..|parks| - 1], hasNameColumn, nearest, hull);
      var last := parks[|parks| - 1];
      match Outcome(es, last, hasNameColumn, nearest, hull)
      case None => front
      case Some(f) => front + [f]
  }

  /** The positions of the parks that yield a feature. */
  ghost function Emitting(es: seq<Edge>, parks: seq<Park>, hasNameColumn: bool,
                          nearest: Point -> Option<NodeId>, hull: set<NodeId> -> Option<Polygon>): seq<nat>
  {
    if parks == [] then []
    else
      var front := Emitting(es, parks[..|parks| - 1], hasNameColumn, nearest, hull);
      if Outcome(es, parks[|parks| - 1], hasNameColumn, nearest, hull).Some? then front + [|parks| - 1] else front
  }

  /** A park is skipped exactly when its geometry is missing or empty, its
      node lookup fails, or its hull cannot be built; the isochrone of a
      found source is never empty, so that skip never fires. */
  lemma {:induction false} SkipReasons(es: seq<Edge>, park: Park, hasNameColumn: bool,
                                       nearest: Point -> Option<NodeId>, hull: set<NodeId> -> Option<Polygon>)
    ensures Outcome(es, park, hasNameColumn, nearest, hull).None? <==>
      || park.geometry.None?
      || park.geometry.value.isEmpty
      || nearest(park.geometry.value.centroid).None?
      || hull(Isochrone(es, nearest(park.geometry.value.centroid).value)).None?
  {
    if park.geometry.Some? && !park.geometry.value.isEmpty && nearest(park.geometry.value.centroid).Some? {
      var source := nearest(park.geometry.value.centroid).value;
      SourceAlwaysReachable(es, source, CutoffSeconds(ISOCHRONE_MINUTES));
    }
  }

  /** Features are emitted in park order, one per emitting park. */
  lemma {:induction false} FeaturesInParkOrder(es: seq<Edge>, parks: seq<Park>, hasNameColumn: bool,
                                               nearest: Point -> Option<NodeId>, hull: set<NodeId> -> Option<Polygon>)
    ensures var fs := Features(es, parks, hasNameColumn, nearest, hull);
      var pos := Emitting(es, parks, hasNameColumn, nearest, hull);
      && |fs| == |pos|
      && (forall k :: 0 <= k < |pos| ==> pos[k] < |parks|)
      && (forall k, l :: 0 <= k < l < |pos| ==> pos[k] < pos[l])
      && (forall k :: 0 <= k < |pos| ==> Outcome(es, parks[pos[k]], hasNameColumn, nearest, hull) == Some(fs[k]))
  {
    if parks != [] {
      var init := parks[..|parks| - 1];
      FeaturesInParkOrder(es, init, hasNameColumn, nearest, hull);
      var pos0 := Emitting(es, init, hasNameColumn, nearest, hull);
      var pos := Emitting(es, parks, hasNameColumn, nearest, hull);
      var fs := Features(es, parks, hasNameColumn, nearest, hull);
      forall k | 0 <= k < |pos0| ensures parks[pos0[k]] == init[pos0[k]] {
      }
    }
  }

  /** Every park that yields a feature is among the emitting positions. */
  lemma {:induction false} EmittingComplete(es: seq<Edge>, parks: seq<Park>, hasNameColumn: bool,
                                            nearest: Point -> Option<NodeId>, hull: set<NodeId> -> Option<Polygon>,
                                            j: nat)
    requires j < |parks| && Outcome(es, parks[j], hasNameColumn, nearest, hull).Some?
    ensures j in Emitting(es, parks, hasNameColumn, nearest, hull)
  {
    var init := parks[..|parks| - 1];
    if j < |init| {
      assert parks[j] == init[j];
      EmittingComplete(es, init, hasNameColumn, nearest, hull, j);
    }
  }

  /** The `k`-th feature carries the index and name of the park it comes from
      and the isochrone budget. */
  lemma FeatureFields(es: seq<Edge>, parks: seq<Park>, hasNameColumn: bool,
                      nearest: Point -> Option<NodeId>, hull: set<NodeId> -> Option<Polygon>, k: nat)
    requires k < |Emitting(es, parks, hasNameColumn, nearest, hull)|
    ensures k < |Features(es, parks, hasNameColumn, nearest, hull)|
    ensures var f := Features(es, parks, hasNameColumn, nearest, hull)[k];
      var j := Emitting(es, parks, hasNameColumn, nearest, hull)[k];
      && j < |parks|
      && f.parkId == parks[j].index
      && f.parkName == ParkName(hasNameColumn, parks[j])
      && f.minutes == ISOCHRONE_MINUTES
  {
    FeaturesInParkOrder(es, parks, hasNameColumn, nearest, hull);
  }

  /** A skipped park does not stop the parks after it: the features of a
      concatenation are the features of its parts. */
  lemma {:induction false} FeaturesConcat(es: seq<Edge>, ps: seq<Park>, qs: seq<Park>, hasNameColumn: bool,
                                          nearest: Point -> Option<NodeId>, hull: set<NodeId> -> Option<Polygon>)
    ensures Features(es, ps + qs, hasNameColumn, nearest, hull)
         == Features(es, ps, hasNameColumn, nearest, hull) + Features(es, qs, hasNameColumn, nearest, hull)
  {
    if qs == [] {
      assert ps + qs == ps;
    } else {
      FeaturesConcat(es, ps, qs[..|qs| - 1], hasNameColumn, nearest, hull);
      assert (ps + qs)[..|ps + qs| - 1] == ps + qs[..|qs| - 1];
      assert (ps + qs)[|ps + qs| - 1] == qs[|qs| - 1];
    }
  }

  /** The outcome of the whole run over the already annotated edges. */
  ghost function BatchResult(es: seq<Edge>, parks: seq<Park>, hasNameColumn: bool, maxParks: Option<nat>,
                             nearest: Point -> Option<NodeId>, hull: set<NodeId> -> Option<Polygon>): Result<seq<Feature>>
  {
    var fs := Features(es, Limit(parks, maxParks), hasNameColumn, nearest, hull);
    if fs == [] then Err(NoIsochronesBuilt) else Ok(fs)
  }

  /** A run fails only when no park yields a feature, and then with the
      RuntimeError of the empty result; a successful run lists exactly the
      features of the processed parks. */
  lemma {:induction false} BatchFailsOnlyWhenNothingBuilt(es: seq<Edge>, parks: seq<Park>, hasNameColumn: bool,
                                                          maxParks: Option<nat>, nearest: Point -> Option<NodeId>,
                                                          hull: set<NodeId> -> Option<Polygon>)
    ensures var r := BatchResult(es, parks, hasNameColumn, maxParks, nearest, hull);
      && (r.Err? <==> forall j :: 0 <= j < |Limit(parks, maxParks)| ==>
                        Outcome(es, Limit(parks, maxParks)[j], hasNameColumn, nearest, hull).None?)
      && (r.Err? ==> r.error == NoIsochronesBuilt && ExceptionOf(r.error) == RuntimeError)
  {
    var ps := Limit(parks, maxParks);
    FeaturesInParkOrder(es, ps, hasNameColumn, nearest, hull);
    var pos := Emitting(es, ps, hasNameColumn, nearest, hull);
    if pos != [] {
      assert Outcome(es, ps[pos[0]], hasNameColumn, nearest, hull).Some?;
    }
    if exists j :: 0 <= j < |ps| && Outcome(es, ps[j], hasNameColumn, nearest, hull).Some? {
      var j :| 0 <= j < |ps| && Outcome(es, ps[j], hasNameColumn, nearest, hull).Some?;
      EmittingComplete(es, ps, hasNameColumn, nearest, hull, j);
    }
  }

  /** The body of the per-park loop of `main`: the feature of one park, or
      None where the loop `continue`s. */
  method ProcessPark(es: seq<Edge>, park: Park, hasNameColumn: bool,
                     nearest: Point -> Option<NodeId>, hull: set<NodeId> -> Option<Polygon>)
    returns (outcome: Option<Feature>)
    requires NonNegativeWeights(es)
    ensures outcome == Outcome(es, park, hasNameColumn, nearest, hull)
  {
    var parkName := ParkName(hasNameColumn, park);
    if park.geometry.None? || park.geometry.value.isEmpty {
      return None;
    }
    var centroid := park.geometry.value.centroid;
    var found := nearest(centroid);
    if found.None? {
      return None;
    }
    var reachable := ComputeReachableNodes(es, found.value, ISOCHRONE_MINUTES);
    if reachable == [] {
      return None;
    }
    var nodes := set t | t in reachable;
    assert nodes == Isochrone(es, found.value);
    assert reachable[0] in nodes;
    var polygon := hull(nodes);
    if polygon.None? {
      return None;
    }
    return Some(Feature(park.index, parkName, ISOCHRONE_MINUTES, polygon.value));
  }

  /** The per-park loop of `main`: each park either appends one feature or is
      skipped, and the loop goes on with the next park. */
  method BuildFeatures(es: seq<Edge>, parks: seq<Park>, hasNameColumn: bool,
                       nearest: Point -> Option<NodeId>, hull: set<NodeId> -> Option<Polygon>)
    returns (features: seq<Feature>)
    requires NonNegativeWeights(es)
    ensures features == Features(es, parks, hasNameColumn, nearest, hull)
  {
    features := [];
    var i := 0;
    while i < |parks|
      invariant 0 <= i <= |parks|
      invariant features == Features(es, parks[..i], hasNameColumn, nearest, hull)
    {
      assert parks[..i + 1][..i] == parks[..i];
      var outcome := ProcessPark(es, parks[i], hasNameColumn, nearest, hull);
      if outcome.Some? {
        features := features + [outcome.value];
      }
      i := i + 1;
    }
    assert parks[..|parks|] == parks;
  }

  /** `main`: fail on an empty parks table before touching the graph, annotate
      the edges with walking times, apply the optional limit, run the park
      loop and fail when it built nothing. */
  method GenerateIsochrones(graph: StreetGraph, parks: seq<Park>, hasNameColumn: bool, maxParks: Option<nat>,
                            nearest: Point -> Option<NodeId>, hull: set<NodeId> -> Option<Polygon>)
    returns (r: Result<seq<Feature>>)
    modifies graph.edges
    ensures parks == [] ==> r == Err(NoParks) && graph.edges[..] == old(graph.edges[..])
    ensures parks != [] ==> graph.edges[..] == Annotate(old(graph.edges[..]), WALK_SPEED_KMH)
    ensures parks != [] ==> r == BatchResult(graph.edges[..], parks, hasNameColumn, maxParks, nearest, hull)
  {
    if parks == [] {
      return Err(NoParks);
    }
    graph.AddTravelTime(WALK_SPEED_KMH);
    var es := graph.edges[..];
    AnnotatedWeightsNonNegative(old(graph.edges[..]), WALK_SPEED_KMH);
    var features := BuildFeatures(es, Limit(parks, maxParks), hasNameColumn, nearest, hull);
    if features == [] {
      return Err(NoIsochronesBuilt);
    }
    return Ok(features);
  }
}
