/** The walking street network: a directed multigraph whose edges carry a
    physical length and, once annotated, a walking travel time in seconds
    (analysis/02_generate_isochrones.py, add_travel_time_to_edges; the archived
    single-park script has the same function). */
module StreetNetwork {
  import opened Common

  type NodeId = int

  /** Walking speed of the isochrone scripts, km/h. */
  const WALK_SPEED_KMH: real := 5.0

  /** One directed street segment: endpoints, the key that tells parallel
      segments apart, the optional `length` attribute (metres) and the
      `travel_time` attribute (seconds), absent until annotation. */
  datatype Edge = Edge(u: NodeId, v: NodeId, key: nat, length: Option<real>, travelTime: Option<real>)

  /** km/h to m/s. */
  function MetresPerSecond(kmh: real): (mps: real)
    ensures mps * 3.6 == kmh
    ensures kmh > 0.0 ==> mps > 0.0
  {
    kmh * 1000.0 / 3600.0
  }

  /** The length an edge is read with: a missing attribute reads as 0. */
  function LengthOf(e: Edge): real {
    match e.length
    case Some(l) => l
    case None => 0.0
  }

  /** Seconds to walk `length` metres at `mps`; non-positive lengths cost nothing. */
  function TravelTime(length: real, mps: real): (t: real)
    requires mps > 0.0
    ensures t >= 0.0
    ensures t == 0.0 <==> length <= 0.0
    ensures length > 0.0 ==> t * mps == length
  {
    if length > 0.0 then length / mps else 0.0
  }

  /** An edge with its `travel_time` written and nothing else changed. */
  function Annotated(e: Edge, kmh: real): (a: Edge)
    requires kmh > 0.0
    ensures a.u == e.u && a.v == e.v && a.key == e.key && a.length == e.length
    ensures a.travelTime == Some(TravelTime(LengthOf(e), MetresPerSecond(kmh)))
  {
    e.(travelTime := Some(TravelTime(LengthOf(e), MetresPerSecond(kmh))))
  }

  /** Every edge annotated, in the same order. */
  function Annotate(es: seq<Edge>, kmh: real): (r: seq<Edge>)
    requires kmh > 0.0
    ensures |r| == |es|
    ensures forall i :: 0 <= i < |es| ==> r[i] == Annotated(es[i], kmh)
  {
    seq(|es|, i requires 0 <= i < |es| => Annotated(es[i], kmh))
  }

  /** After annotation every edge has a travel time, it is never negative,
      it is zero exactly for missing or non-positive lengths, and the edge
      set (endpoints, keys, lengths) is what it was. */
  lemma {:induction false} AnnotateProperties(es: seq<Edge>, kmh: real, i: nat)
    requires kmh > 0.0 && i < |es|
    ensures var a := Annotate(es, kmh)[i];
      && a.travelTime.Some?
      && a.travelTime.value >= 0.0
      && (a.travelTime.value == 0.0 <==> (es[i].length.None? || es[i].length.value <= 0.0))
      && (es[i].length.Some? && es[i].length.value > 0.0 ==>
            a.travelTime.value == es[i].length.value / MetresPerSecond(kmh))
      && a.(travelTime := es[i].travelTime) == es[i]
  {
    var a := Annotate(es, kmh)[i];
    assert a == Annotated(es[i], kmh);
  }

  /** At 5 km/h the walking speed is 25/18 m/s. */
  lemma DefaultSpeed()
    ensures MetresPerSecond(WALK_SPEED_KMH) == 25.0 / 18.0
  {
  }

  /** The loaded graph; `add_travel_time_to_edges` rewrites the data of every
      edge in place, so the edges are an array the method updates. */
  class StreetGraph {
    var edges: array<Edge>

    constructor (es: seq<Edge>)
      ensures fresh(edges) && edges[..] == es
    {
      edges := new Edge[|es|](i requires 0 <= i < |es| => es[i]);
    }

    /** Writes `travel_time` onto every edge, one edge at a time. */
    method AddTravelTime(walkSpeedKmh: real)
      requires walkSpeedKmh > 0.0
      modifies edges
      ensures edges[..] == Annotate(old(edges[..]), walkSpeedKmh)
    {
      var mps := walkSpeedKmh * 1000.0 / 3600.0;
      var i := 0;
      while i < edges.Length
        invariant 0 <= i <= edges.Length
        invariant mps == MetresPerSecond(walkSpeedKmh)
        invariant forall k :: 0 <= k < i ==> edges[k] == Annotated(old(edges[k]), walkSpeedKmh)
        invariant forall k :: i <= k < edges.Length ==> edges[k] == old(edges[k])
      {
        var data := edges[i];
        var lengthM := match data.length case Some(l) => l case None => 0.0;
        var t := if lengthM > 0.0 then lengthM / mps else 0.0;
        edges[i] := data.(travelTime := Some(t));
        i := i + 1;
      }
      assert edges[..] == Annotate(old(edges[..]), walkSpeedKmh);
    }
  }
}
