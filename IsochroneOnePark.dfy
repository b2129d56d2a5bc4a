/** The archived single-park driver (analysis/archive/02_isochrone_one_park.py):
    the first park only, no skipping; every failure aborts the run. The node
    lookup runs before the edges are annotated, so a failed lookup leaves the
    graph as it was loaded. */
module IsochroneOnePark {
  import opened Common
  import opened StreetNetwork
  import opened Reachability
  import opened IsochroneBatch

  /** The one output feature: `park_name`, `minutes`, `geometry`. */
  datatype SingleIsochrone = SingleIsochrone(parkName: string, minutes: int, polygon: Polygon)

  /** Whether the run gets as far as annotating the edges. */
  predicate ReachesAnnotation(parks: seq<Park>, nearest: Point -> Option<NodeId>) {
    && parks != []
    && parks[0].geometry.Some?
    && !parks[0].geometry.value.isEmpty
    && nearest(parks[0].geometry.value.centroid).Some?
  }

  /** The outcome of the run over the edges as loaded. */
  ghost function OneParkResult(es: seq<Edge>, parks: seq<Park>, hasNameColumn: bool,
                               nearest: Point -> Option<NodeId>, hull: set<NodeId> -> Option<Polygon>)
    : Result<SingleIsochrone>
  {
    if parks == [] then Err(NoParks)
    else
      var park := parks[0];
      match park.geometry
      case None => Err(InvalidParkGeometry)
      case Some(g) =>
        if g.isEmpty then Err(InvalidParkGeometry)
        else match nearest(g.centroid)
          case None => Err(NearestNodeFailed)
          case Some(source) =>
            var reach := Isochrone(Annotate(es, WALK_SPEED_KMH), source);
            if reach == {} then Err(NoReachableNodes)
            else match hull(reach)
              case None => Err(PolygonBuildFailed)
              case Some(poly) => Ok(SingleIsochrone(ParkName(hasNameColumn, park), ISOCHRONE_MINUTES, poly))
  }

  /** The run succeeds exactly when the first park has a usable geometry, its
      lookup succeeds and its hull can be built; the result is then one
      feature named after the first park with the isochrone budget. The
      empty-reachable error never fires, because the source is always
      reached, and an empty table is the RuntimeError of line 132. */
  lemma {:induction false} OneParkOutcome(es: seq<Edge>, parks: seq<Park>, hasNameColumn: bool,
                                          nearest: Point -> Option<NodeId>, hull: set<NodeId> -> Option<Polygon>)
    ensures var r := OneParkResult(es, parks, hasNameColumn, nearest, hull);
      && (parks == [] ==> r == Err(NoParks) && ExceptionOf(r.error) == RuntimeError)
      && (r.Ok? <==> ReachesAnnotation(parks, nearest)
                     && hull(Isochrone(Annotate(es, WALK_SPEED_KMH), nearest(parks[0].geometry.value.centroid).value)).Some?)
      && (r.Ok? ==> r.value.parkName == ParkName(hasNameColumn, parks[0]) && r.value.minutes == ISOCHRONE_MINUTES)
      && r != Err(NoReachableNodes)
  {
    if ReachesAnnotation(parks, nearest) {
      var source := nearest(parks[0].geometry.value.centroid).value;
      SourceAlwaysReachable(Annotate(es, WALK_SPEED_KMH), source, CutoffSeconds(ISOCHRONE_MINUTES));
    }
  }

  /** Only the first row matters: the rows after it never change the result. */
  lemma FirstParkOnly(es: seq<Edge>, parks: seq<Park>, rest: seq<Park>, hasNameColumn: bool,
                      nearest: Point -> Option<NodeId>, hull: set<NodeId> -> Option<Polygon>)
    requires parks != []
    ensures OneParkResult(es, parks + rest, hasNameColumn, nearest, hull)
         == OneParkResult(es, [parks[0]], hasNameColumn, nearest, hull)
  {
    assert (parks + rest)[0] == parks[0];
  }

  /** `main`: pick the first park, look up its node, annotate the edges, run
      the cutoff search and build the hull. */
  method GenerateOneIsochrone(graph: StreetGraph, parks: seq<Park>, hasNameColumn: bool,
                              nearest: Point -> Option<NodeId>, hull: set<NodeId> -> Option<Polygon>)
    returns (r: Result<SingleIsochrone>)
    modifies graph.edges
    ensures r == OneParkResult(old(graph.edges[..]), parks, hasNameColumn, nearest, hull)
    ensures ReachesAnnotation(parks, nearest) ==> graph.edges[..] == Annotate(old(graph.edges[..]), WALK_SPEED_KMH)
    ensures !ReachesAnnotation(parks, nearest) ==> graph.edges[..] == old(graph.edges[..])
  {
    if parks == [] {
      return Err(NoParks);
    }
    var park := parks[0];
    var parkName := ParkName(hasNameColumn, park);
    if park.geometry.None? || park.geometry.value.isEmpty {
      return Err(InvalidParkGeometry);
    }
    var centroid := park.geometry.value.centroid;
    var found := nearest(centroid);
    if found.None? {
      return Err(NearestNodeFailed);
    }
    graph.AddTravelTime(WALK_SPEED_KMH);
    var es := graph.edges[..];
    AnnotatedWeightsNonNegative(old(graph.edges[..]), WALK_SPEED_KMH);
    var reachable := ComputeReachableNodes(es, found.value, ISOCHRONE_MINUTES);
    if reachable == [] {
      return Err(NoReachableNodes);
    }
    var nodes := set t | t in reachable;
    assert nodes == Isochrone(es, found.value);
    assert reachable[0] in nodes;
    var polygon := hull(nodes);
    if polygon.None? {
      return Err(PolygonBuildFailed);
    }
    return Ok(SingleIsochrone(parkName, ISOCHRONE_MINUTES, polygon.value));
  }
}
