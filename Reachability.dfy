/** Cutoff reachability over the annotated street graph: the contract of
    networkx's single_source_dijkstra_path_length with a cutoff, and
    compute_reachable_nodes on top of it (analysis/02_generate_isochrones.py;
    the archived single-park script has the same function). */
module Reachability {
  import opened Common
  import opened StreetNetwork

  /** Time budget of the isochrone scripts, minutes. */
  const ISOCHRONE_MINUTES: int := 15

  /** The weight Dijkstra reads from an edge: `travel_time`, or networkx's
      default weight 1 when the attribute is absent. */
  function Weight(e: Edge): real {
    match e.travelTime
    case Some(t) => t
    case None => 1.0
  }

  predicate NonNegativeWeights(es: seq<Edge>) {
    forall e :: e in es ==> Weight(e) >= 0.0
  }

  /** Annotated edges never carry a negative weight. */
  lemma {:induction false} AnnotatedWeightsNonNegative(es: seq<Edge>, kmh: real)
    requires kmh > 0.0
    ensures NonNegativeWeights(Annotate(es, kmh))
  {
    var a := Annotate(es, kmh);
    forall e | e in a ensures Weight(e) >= 0.0 {
      var i :| 0 <= i < |a| && a[i] == e;
      assert e == Annotated(es[i], kmh);
    }
  }

  /** `p` is a walk along edges of `es` from `s` to `t` (the empty walk stays at `s`). */
  ghost predicate IsPath(es: seq<Edge>, s: NodeId, t: NodeId, p: seq<Edge>)
    decreases |p|
  {
    if p == [] then t == s
    else
      var last := p[|p| - 1];
      last in es && last.v == t && IsPath(es, s, last.u, p[..|p| - 1])
  }

  /** Summed weight of a walk. */
  ghost function Cost(p: seq<Edge>): real
    decreases |p|
  {
    if p == [] then 0.0 else Cost(p[..|p| - 1]) + Weight(p[|p| - 1])
  }

  /** `t` can be reached from `s` spending at most `budget` seconds, that is,
      its shortest directed travel-time distance is within the budget. */
  ghost predicate WithinBudget(es: seq<Edge>, s: NodeId, t: NodeId, budget: real) {
    exists p :: IsPath(es, s, t, p) && Cost(p) <= budget
  }

  /** Some walk from `s` to `t` costs exactly `c`. */
  ghost predicate Achieves(es: seq<Edge>, s: NodeId, t: NodeId, c: real) {
    exists p :: IsPath(es, s, t, p) && Cost(p) == c
  }

  /** No walk from `s` to `t` costs less than `d`. */
  ghost predicate NoShorterWalk(es: seq<Edge>, s: NodeId, t: NodeId, d: real) {
    forall p :: IsPath(es, s, t, p) ==> d <= Cost(p)
  }

  /** The node ids one can end at: the source and every edge target. */
  function Nodes(es: seq<Edge>, s: NodeId): set<NodeId> {
    (set e | e in es :: e.v) + {s}
  }

  /** What compute_reachable_nodes returns, as a set: the source and every
      node within the budget. */
  ghost function ReachableSet(es: seq<Edge>, s: NodeId, budget: real): set<NodeId> {
    set t | t in Nodes(es, s) && (t == s || WithinBudget(es, s, t, budget))
  }

  /** `max_minutes * 60`, the cutoff in seconds. */
  function CutoffSeconds(minutes: int): real {
    (minutes * 60) as real
  }

  lemma {:induction false} PathAppend(es: seq<Edge>, s: NodeId, p: seq<Edge>, e: Edge)
    requires IsPath(es, s, e.u, p) && e in es
    ensures IsPath(es, s, e.v, p + [e])
    ensures Cost(p + [e]) == Cost(p) + Weight(e)
  {
    assert (p + [e])[..|p|] == p;
  }

  lemma {:induction false} CostNonNegative(es: seq<Edge>, s: NodeId, t: NodeId, p: seq<Edge>)
    requires NonNegativeWeights(es) && IsPath(es, s, t, p)
    ensures Cost(p) >= 0.0
    decreases |p|
  {
    if p != [] {
      CostNonNegative(es, s, p[|p| - 1].u, p[..|p| - 1]);
    }
  }

  /** A walk ends at one of the graph's nodes. */
  lemma PathEndsAtNode(es: seq<Edge>, s: NodeId, t: NodeId, p: seq<Edge>)
    requires IsPath(es, s, t, p)
    ensures t in Nodes(es, s)
  {
    if p != [] {
      var last := p[|p| - 1];
      assert last in es && last.v == t;
    }
  }

  /** The reachable set is exactly the source plus the nodes within budget. */
  lemma {:induction false} ReachableSetMembers(es: seq<Edge>, s: NodeId, budget: real, t: NodeId)
    ensures t in ReachableSet(es, s, budget) <==> (t == s || WithinBudget(es, s, t, budget))
  {
    if WithinBudget(es, s, t, budget) {
      var p :| IsPath(es, s, t, p) && Cost(p) <= budget;
      PathEndsAtNode(es, s, t, p);
    }
  }

  /** A larger budget reaches a superset of nodes. */
  lemma {:induction false} ReachableMonotoneInBudget(es: seq<Edge>, s: NodeId, b1: real, b2: real)
    requires b1 <= b2
    ensures ReachableSet(es, s, b1) <= ReachableSet(es, s, b2)
  {
    forall t | t in ReachableSet(es, s, b1) ensures t in ReachableSet(es, s, b2) {
      ReachableSetMembers(es, s, b1, t);
      if t != s {
        var p :| IsPath(es, s, t, p) && Cost(p) <= b1;
        assert Cost(p) <= b2;
        ReachableSetMembers(es, s, b2, t);
      }
    }
  }

  /** The source is always reached, whatever the budget. */
  lemma SourceAlwaysReachable(es: seq<Edge>, s: NodeId, budget: real)
    ensures s in ReachableSet(es, s, budget)
  {
    ReachableSetMembers(es, s, budget, s);
  }

  /** Every edge out of a settled node that stays within budget has had its
      target labelled no worse than through that edge. */
  ghost predicate Closed(es: seq<Edge>, dist: map<NodeId, real>, settled: set<NodeId>, budget: real)
    requires settled <= dist.Keys
  {
    forall e :: e in es && e.u in settled && dist[e.u] + Weight(e) <= budget ==>
      e.v in dist && dist[e.v] <= dist[e.u] + Weight(e)
  }

  /** When every labelled node is settled and closed, every walk within
      budget ends at a labelled node whose label is no more than the walk. */
  lemma {:induction false} ClosedIsComplete(es: seq<Edge>, dist: map<NodeId, real>, s: NodeId, budget: real,
                                            t: NodeId, p: seq<Edge>)
    requires NonNegativeWeights(es)
    requires s in dist && dist[s] == 0.0
    requires Closed(es, dist, dist.Keys, budget)
    requires IsPath(es, s, t, p) && Cost(p) <= budget
    ensures t in dist && dist[t] <= Cost(p)
    decreases |p|
  {
    if p != [] {
      var q, e := p[..|p| - 1], p[|p| - 1];
      assert Weight(e) >= 0.0;
      ClosedIsComplete(es, dist, s, budget, e.u, q);
    }
  }

  /** Some not-yet-settled label is minimal. */
  lemma {:induction false} MinimumExists(dist: map<NodeId, real>, frontier: set<NodeId>)
    requires frontier != {} && frontier <= dist.Keys
    ensures exists u :: u in frontier && forall b :: b in frontier ==> dist[u] <= dist[b]
    decreases frontier
  {
    assert !(forall y :: y !in frontier) by {
      if forall y :: y !in frontier { assert false; }
    }
    var x :| x in frontier;
    if frontier != {x} {
      var rest := frontier - {x};
      MinimumExists(dist, rest);
      var m :| m in rest && forall b :: b in rest ==> dist[m] <= dist[b];
      if dist[x] <= dist[m] {
        assert forall b :: b in frontier ==> dist[x] <= dist[b];
      } else {
        assert forall b :: b in frontier ==> dist[m] <= dist[b];
      }
    }
  }

  /** Labels that some walk achieves, within the cutoff except at the source. */
  ghost predicate Sound(es: seq<Edge>, source: NodeId, cutoff: real,
                        dist: map<NodeId, real>, paths: map<NodeId, seq<Edge>>)
  {
    && source in dist && dist[source] == 0.0
    && (forall t :: t in dist ==> t in paths && IsPath(es, source, t, paths[t]) && Cost(paths[t]) <= dist[t])
    && (forall t :: t in dist && t != source ==> dist[t] <= cutoff)
    && (forall t :: t in dist ==> dist[t] >= 0.0)
  }

  /** Lowering (or adding) the label of a node to the cost bound of a new walk keeps labels sound. */
  lemma {:induction false} SoundAfterUpdate(es: seq<Edge>, source: NodeId, cutoff: real,
                                            dist: map<NodeId, real>, paths: map<NodeId, seq<Edge>>,
                                            v: NodeId, nd: real, p: seq<Edge>)
    requires Sound(es, source, cutoff, dist, paths)
    requires IsPath(es, source, v, p) && Cost(p) <= nd && 0.0 <= nd <= cutoff
    requires v == source ==> nd == 0.0
    ensures Sound(es, source, cutoff, dist[v := nd], paths[v := p])
  {
  }

  /** Lowering (or adding) one label keeps every other label and lowers none. */
  lemma UpdateLowers(dist: map<NodeId, real>, v: NodeId, nd: real)
    requires v !in dist || nd < dist[v]
    ensures dist.Keys <= dist[v := nd].Keys
    ensures forall t :: t in dist ==> dist[v := nd][t] <= dist[t]
  {
  }

  /** Lowering (or adding) the label of an unsettled node keeps the settled nodes closed. */
  lemma {:induction false} ClosedAfterUpdate(es: seq<Edge>, dist: map<NodeId, real>, settled: set<NodeId>,
                                             cutoff: real, v: NodeId, nd: real)
    requires settled <= dist.Keys && Closed(es, dist, settled, cutoff)
    requires v !in settled && (v !in dist || nd < dist[v])
    ensures Closed(es, dist[v := nd], settled, cutoff)
  {
    var d := dist[v := nd];
    forall e | e in es && e.u in settled && d[e.u] + Weight(e) <= cutoff
      ensures e.v in d && d[e.v] <= d[e.u] + Weight(e)
    {
      assert d[e.u] == dist[e.u];
    }
  }

  /** The state Dijkstra's inner loop keeps while it relaxes the edges of
      `u`, the node just taken off the frontier with label `du`. */
  ghost predicate Relaxing(es: seq<Edge>, source: NodeId, cutoff: real, dist0: map<NodeId, real>,
                           settled: set<NodeId>, u: NodeId, du: real,
                           dist: map<NodeId, real>, paths: map<NodeId, seq<Edge>>)
  {
    && Sound(es, source, cutoff, dist, paths)
    && settled <= dist0.Keys <= dist.Keys <= Nodes(es, source)
    && u in dist && dist[u] == du && u !in settled
    && (forall a :: a in settled ==> dist[a] == dist0[a] && dist[a] <= du)
    && (forall b :: b in dist && b !in settled ==> du <= dist[b])
    && Closed(es, dist, settled, cutoff)
  }

  /** One relaxation step of Dijkstra's inner loop, for the edge `e`. */
  method RelaxEdge(es: seq<Edge>, source: NodeId, cutoff: real, dist0: map<NodeId, real>,
                   settled: set<NodeId>, u: NodeId, du: real, e: Edge,
                   dist1: map<NodeId, real>, ghost paths1: map<NodeId, seq<Edge>>)
    returns (dist: map<NodeId, real>, ghost paths: map<NodeId, seq<Edge>>)
    requires NonNegativeWeights(es) && e in es
    requires Relaxing(es, source, cutoff, dist0, settled, u, du, dist1, paths1)
    ensures Relaxing(es, source, cutoff, dist0, settled, u, du, dist, paths)
    ensures dist1.Keys <= dist.Keys && forall t :: t in dist1 ==> dist[t] <= dist1[t]
    ensures e.u == u && du + Weight(e) <= cutoff ==> e.v in dist && dist[e.v] <= du + Weight(e)
  {
    dist, paths := dist1, paths1;
    assert Weight(e) >= 0.0;
    if e.u == u {
      var nd := du + Weight(e);
      if nd <= cutoff && e.v !in settled && (e.v !in dist || nd < dist[e.v]) {
        PathAppend(es, source, paths[u], e);
        SoundAfterUpdate(es, source, cutoff, dist, paths, e.v, nd, paths[u] + [e]);
        ClosedAfterUpdate(es, dist, settled, cutoff, e.v, nd);
        UpdateLowers(dist, e.v, nd);
        dist := dist[e.v := nd];
        paths := paths[e.v := paths1[u] + [e]];
      }
    }
  }

  /** Dijkstra's inner loop: relax every edge leaving `u`; settled nodes keep
      their labels and `u` becomes closed. */
  method RelaxOutEdges(es: seq<Edge>, source: NodeId, cutoff: real, dist0: map<NodeId, real>,
                       settled: set<NodeId>, u: NodeId, ghost paths0: map<NodeId, seq<Edge>>)
    returns (dist: map<NodeId, real>, ghost paths: map<NodeId, seq<Edge>>)
    requires NonNegativeWeights(es)
    requires u in dist0
    requires Relaxing(es, source, cutoff, dist0, settled, u, dist0[u], dist0, paths0)
    ensures Relaxing(es, source, cutoff, dist0, settled, u, dist0[u], dist, paths)
    ensures Closed(es, dist, settled + {u}, cutoff)
  {
    dist, paths := dist0, paths0;
    var du := dist0[u];
    var i := 0;
    while i < |es|
      invariant 0 <= i <= |es|
      invariant Relaxing(es, source, cutoff, dist0, settled, u, du, dist, paths)
      invariant forall e :: e in es[..i] ==> EdgeRelaxed(e, u, du, cutoff, dist)
    {
      ghost var prev := dist;
      dist, paths := RelaxEdge(es, source, cutoff, dist0, settled, u, du, es[i], dist, paths);
      forall e | e in es[..i + 1] ensures EdgeRelaxed(e, u, du, cutoff, dist) {
        if e != es[i] {
          assert e in es[..i];
          RelaxedStaysRelaxed(e, u, du, cutoff, prev, dist);
        }
      }
      i := i + 1;
    }
    assert es[..i] == es;
  }

  /** The edge `e` leaves `u` within the cutoff only to a node whose label
      already accounts for it. */
  ghost predicate EdgeRelaxed(e: Edge, u: NodeId, du: real, cutoff: real, dist: map<NodeId, real>) {
    e.u == u && du + Weight(e) <= cutoff ==> e.v in dist && dist[e.v] <= du + Weight(e)
  }

  lemma RelaxedStaysRelaxed(e: Edge, u: NodeId, du: real, cutoff: real, dist1: map<NodeId, real>, dist: map<NodeId, real>)
    requires EdgeRelaxed(e, u, du, cutoff, dist1)
    requires dist1.Keys <= dist.Keys && forall t :: t in dist1 ==> dist[t] <= dist1[t]
    ensures EdgeRelaxed(e, u, du, cutoff, dist)
  {
  }

  /** The settle order: distinct, exactly the settled nodes, non-decreasing labels. */
  ghost predicate SettleOrder(order: seq<NodeId>, settled: set<NodeId>, dist: map<NodeId, real>) {
    && (forall t :: t in order <==> t in settled)
    && (forall i, j :: 0 <= i < j < |order| ==> order[i] != order[j])
    && settled <= dist.Keys
    && (forall i, j :: 0 <= i < j < |order| ==> dist[order[i]] <= dist[order[j]])
  }

  /** Settling `u`, whose label is no smaller than any settled one, extends the order. */
  lemma {:induction false} SettleOrderExtends(order: seq<NodeId>, settled: set<NodeId>,
                                              dist0: map<NodeId, real>, dist: map<NodeId, real>, u: NodeId)
    requires SettleOrder(order, settled, dist0)
    requires u !in settled && u in dist && dist0.Keys <= dist.Keys
    requires forall a :: a in settled ==> dist[a] == dist0[a] && dist[a] <= dist[u]
    ensures SettleOrder(order + [u], settled + {u}, dist)
  {
    var o := order + [u];
    forall i, j | 0 <= i < j < |o| ensures o[i] != o[j] && dist[o[i]] <= dist[o[j]] {
      assert o[i] == order[i] && o[i] in settled;
      if j < |order| {
        assert o[j] == order[j] && o[j] in settled;
      } else {
        assert o[j] == u;
      }
    }
  }

  /** The witness walk of a final label costs exactly the label. */
  lemma {:induction false} LabelIsAchieved(es: seq<Edge>, source: NodeId, cutoff: real,
                                           dist: map<NodeId, real>, paths: map<NodeId, seq<Edge>>, t: NodeId)
    requires NonNegativeWeights(es)
    requires Sound(es, source, cutoff, dist, paths)
    requires Closed(es, dist, dist.Keys, cutoff)
    requires t in dist
    ensures Achieves(es, source, t, dist[t])
  {
    var w := paths[t];
    assert IsPath(es, source, t, w) && Cost(w) <= dist[t];
    if t != source {
      ClosedIsComplete(es, dist, source, cutoff, t, w);
    } else {
      CostNonNegative(es, source, t, w);
    }
    assert Cost(w) == dist[t];
  }

  /** Once no frontier is left, the settled labels are the shortest travel
      times, and exactly the nodes within the cutoff carry one. */
  lemma {:induction false} FinalLabels(es: seq<Edge>, source: NodeId, cutoff: real,
                                       dist: map<NodeId, real>, paths: map<NodeId, seq<Edge>>)
    requires NonNegativeWeights(es)
    requires Sound(es, source, cutoff, dist, paths)
    requires Closed(es, dist, dist.Keys, cutoff)
    ensures forall t :: t in dist <==> (t == source || WithinBudget(es, source, t, cutoff))
    ensures forall t :: t in dist ==> Achieves(es, source, t, dist[t])
    ensures forall t :: t in dist ==> NoShorterWalk(es, source, t, dist[t])
  {
    forall t | t in dist && t != source ensures WithinBudget(es, source, t, cutoff) {
      assert IsPath(es, source, t, paths[t]) && Cost(paths[t]) <= cutoff;
    }
    forall t | WithinBudget(es, source, t, cutoff) ensures t in dist {
      var p :| IsPath(es, source, t, p) && Cost(p) <= cutoff;
      ClosedIsComplete(es, dist, source, cutoff, t, p);
    }
    forall t | t in dist ensures NoShorterWalk(es, source, t, dist[t]) {
      forall p | IsPath(es, source, t, p) ensures dist[t] <= Cost(p) {
        if Cost(p) <= cutoff {
          ClosedIsComplete(es, dist, source, cutoff, t, p);
        } else if t == source {
          CostNonNegative(es, source, t, p);
        }
      }
    }
    forall t | t in dist ensures Achieves(es, source, t, dist[t]) {
      LabelIsAchieved(es, source, cutoff, dist, paths, t);
    }
  }

  /** What Dijkstra's outer loop keeps: sound labels, settled nodes closed
      and never above the frontier, and the settle order so far. */
  ghost predicate Settling(es: seq<Edge>, source: NodeId, cutoff: real, dist: map<NodeId, real>,
                           paths: map<NodeId, seq<Edge>>, settled: set<NodeId>, order: seq<NodeId>)
  {
    && settled <= dist.Keys <= Nodes(es, source)
    && Sound(es, source, cutoff, dist, paths)
    && (settled == {} ==> dist.Keys == {source})
    && (forall a, b :: a in settled && b in dist && b !in settled ==> dist[a] <= dist[b])
    && Closed(es, dist, settled, cutoff)
    && SettleOrder(order, settled, dist)
    && (order != [] ==> order[0] == source)
  }

  /** A strict subset is smaller. */
  lemma StrictSubsetSmaller(a: set<NodeId>, b: set<NodeId>)
    requires a < b
    ensures |a| < |b|
  {
    assert b == a + (b - a);
    assert a * (b - a) == {};
    assert b - a != {};
  }

  /** The state before the first round: only the source is labelled, at 0. */
  lemma SettlingStart(es: seq<Edge>, source: NodeId, cutoff: real)
    ensures Settling(es, source, cutoff, map[source := 0.0], map[source := []], {}, [])
  {
    assert IsPath(es, source, source, []);
  }

  /** One round of Dijkstra's outer loop: settle a frontier node of least
      label and relax its edges. */
  method SettleNext(es: seq<Edge>, source: NodeId, cutoff: real, dist0: map<NodeId, real>,
                    ghost paths0: map<NodeId, seq<Edge>>, settled0: set<NodeId>, order0: seq<NodeId>)
    returns (dist: map<NodeId, real>, ghost paths: map<NodeId, seq<Edge>>, settled: set<NodeId>, order: seq<NodeId>)
    requires NonNegativeWeights(es)
    requires Settling(es, source, cutoff, dist0, paths0, settled0, order0)
    requires settled0 != dist0.Keys
    ensures Settling(es, source, cutoff, dist, paths, settled, order)
    ensures settled0 < settled
  {
    MinimumExists(dist0, dist0.Keys - settled0);
    var u :| u in dist0.Keys - settled0 && forall b :: b in dist0.Keys - settled0 ==> dist0[u] <= dist0[b];
    dist, paths := RelaxOutEdges(es, source, cutoff, dist0, settled0, u, paths0);
    SettleOrderExtends(order0, settled0, dist0, dist, u);
    settled := settled0 + {u};
    order := order0 + [u];
  }

  /** networkx single_source_dijkstra_path_length with a cutoff: the shortest
      travel time to every node whose shortest travel time is within the
      cutoff (the source always, at 0), and the order in which Dijkstra
      settles them, which is the key order of the returned dictionary. */
  method DijkstraWithCutoff(es: seq<Edge>, source: NodeId, cutoff: real)
    returns (times: map<NodeId, real>, order: seq<NodeId>)
    requires NonNegativeWeights(es)
    ensures forall t :: t in times <==> (t == source || WithinBudget(es, source, t, cutoff))
    ensures source in times && times[source] == 0.0
    ensures forall t :: t in times ==> Achieves(es, source, t, times[t])
    ensures forall t :: t in times ==> NoShorterWalk(es, source, t, times[t])
    ensures forall t :: t in order <==> t in times
    ensures forall i, j :: 0 <= i < j < |order| ==> order[i] != order[j]
    ensures |order| > 0 && order[0] == source
    ensures forall i, j :: 0 <= i < j < |order| ==> times[order[i]] <= times[order[j]]
  {
    var dist: map<NodeId, real> := map[source := 0.0];
    ghost var paths: map<NodeId, seq<Edge>> := map[source := []];
    var settled: set<NodeId> := {};
    order := [];
    ghost var all := Nodes(es, source);
    SettlingStart(es, source, cutoff);
    while settled != dist.Keys
      invariant Settling(es, source, cutoff, dist, paths, settled, order)
      decreases |all - settled|
    {
      ghost var before := settled;
      dist, paths, settled, order := SettleNext(es, source, cutoff, dist, paths, settled, order);
      StrictSubsetSmaller(all - settled, all - before);
    }
    FinalLabels(es, source, cutoff, dist, paths);
    times := dist;
  }

  /** compute_reachable_nodes: the keys of the cutoff Dijkstra result for a
      budget of `maxMinutes` minutes, in settle order. */
  method ComputeReachableNodes(es: seq<Edge>, source: NodeId, maxMinutes: int) returns (reachable: seq<NodeId>)
    requires NonNegativeWeights(es)
    ensures forall t :: t in reachable <==> t in ReachableSet(es, source, CutoffSeconds(maxMinutes))
    ensures forall i, j :: 0 <= i < j < |reachable| ==> reachable[i] != reachable[j]
    ensures |reachable| > 0 && reachable[0] == source
  {
    var maxSeconds := (maxMinutes * 60) as real;
    var times;
    times, reachable := DijkstraWithCutoff(es, source, maxSeconds);
    forall t ensures t in reachable <==> t in ReachableSet(es, source, maxSeconds) {
      ReachableSetMembers(es, source, maxSeconds, t);
    }
  }
}
