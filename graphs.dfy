/**
 * The graph store's value: an adjacency map from each vertex to the map of
 * its out-neighbours and edge weights, the edge insertion performed by
 * `add_edge`, and the walks over the graph that the solver's distances are
 * measured against.
 */
module Graphs {

  /** Vertex identifiers (`u32` in the source; no arithmetic is done on them). */
  type Vertex = nat

  /** Edge weights and path lengths; non-negative, as the solver assumes. */
  type Weight = nat

  /** vertex -> (out-neighbour -> weight of the edge to it) */
  type Graph = map<Vertex, map<Vertex, Weight>>

  predicate HasEdge(g: Graph, u: Vertex, v: Vertex)
  {
    u in g && v in g[u]
  }

  function EdgeWeight(g: Graph, u: Vertex, v: Vertex): Weight
  {
    if HasEdge(g, u, v) then g[u][v] else 0
  }

  /** The out-edges of `u`; a vertex that is not a key has none. */
  function OutEdges(g: Graph, u: Vertex): map<Vertex, Weight>
  {
    if u in g then g[u] else map[]
  }

  /** Every edge target is itself a key: the shape `add_edge` keeps. */
  ghost predicate Closed(g: Graph)
  {
    forall u, v :: HasEdge(g, u, v) ==> v in g
  }

  /** Every vertex named by the graph, as a key or as an edge target. */
  ghost function Vertices(g: Graph): (vs: set<Vertex>)
    ensures forall u :: u in g ==> u in vs
    ensures forall u, v :: HasEdge(g, u, v) ==> v in vs
  {
    g.Keys + set u, v | u in g && v in g[u] :: v
  }

  /**
   * The graph after inserting the edge `from -> to` of weight `w`: both
   * endpoints become keys (an existing one keeps its out-edges), and the
   * weight of `from -> to` is set, replacing any earlier one.
   */
  function WithEdge(g: Graph, from: Vertex, to: Vertex, w: Weight): (h: Graph)
    ensures h.Keys == g.Keys + {from, to}
    ensures HasEdge(h, from, to) && h[from][to] == w
    ensures forall u, v :: HasEdge(h, u, v) <==> HasEdge(g, u, v) || (u == from && v == to)
    ensures forall u, v :: HasEdge(g, u, v) && (u != from || v != to) ==> HasEdge(h, u, v) && h[u][v] == g[u][v]
  {
    var g1 := if from in g then g else g[from := map[]];
    var g2 := if to in g1 then g1 else g1[to := map[]];
    g2[from := g2[from][to := w]]
  }

  /** Inserting an edge keeps every edge target a key. */
  lemma WithEdgeKeepsClosed(g: Graph, from: Vertex, to: Vertex, w: Weight)
    requires Closed(g)
    ensures Closed(WithEdge(g, from, to, w))
  {
    var h := WithEdge(g, from, to, w);
    forall u, v | HasEdge(h, u, v) ensures v in h {
      if u != from || v != to {
        assert HasEdge(g, u, v);
      }
    }
  }

  /** Inserting the same edge twice leaves the last weight only. */
  lemma WithEdgeOverwrites(g: Graph, from: Vertex, to: Vertex, w1: Weight, w2: Weight)
    ensures WithEdge(WithEdge(g, from, to, w1), from, to, w2) == WithEdge(g, from, to, w2)
  {
    var g1 := WithEdge(g, from, to, w1);
    var a := WithEdge(g1, from, to, w2);
    var b := WithEdge(g, from, to, w2);
    forall u, v | HasEdge(a, u, v) ensures a[u][v] == b[u][v] {
      if u != from || v != to {
        assert HasEdge(g1, u, v);
        assert HasEdge(g, u, v);
      }
    }
    SameEdgesSameGraph(a, b);
  }

  /** Two graphs with the same keys, the same edges and the same weights are equal. */
  lemma SameEdgesSameGraph(x: Graph, y: Graph)
    requires x.Keys == y.Keys
    requires forall u, v :: HasEdge(x, u, v) <==> HasEdge(y, u, v)
    requires forall u, v :: HasEdge(x, u, v) && HasEdge(y, u, v) ==> x[u][v] == y[u][v]
    ensures x == y
  {
    forall u | u in x ensures x[u] == y[u] {
      assert x[u].Keys == y[u].Keys by {
        forall v ensures v in x[u] <==> v in y[u] {
          assert HasEdge(x, u, v) <==> HasEdge(y, u, v);
        }
      }
    }
  }

  /** Inserting two different edges gives the same graph in either order. */
  lemma WithEdgeCommutes(g: Graph, a: Vertex, b: Vertex, wab: Weight, c: Vertex, d: Vertex, wcd: Weight)
    requires a != c || b != d
    ensures WithEdge(WithEdge(g, a, b, wab), c, d, wcd) == WithEdge(WithEdge(g, c, d, wcd), a, b, wab)
  {
    var g1 := WithEdge(g, a, b, wab);
    var g2 := WithEdge(g, c, d, wcd);
    var x := WithEdge(g1, c, d, wcd);
    var y := WithEdge(g2, a, b, wab);
    forall u, v ensures HasEdge(x, u, v) <==> HasEdge(y, u, v) {
      assert HasEdge(x, u, v) <==> HasEdge(g1, u, v) || (u == c && v == d);
      assert HasEdge(y, u, v) <==> HasEdge(g2, u, v) || (u == a && v == b);
    }
    forall u, v | HasEdge(x, u, v) ensures x[u][v] == y[u][v] {
      if u == c && v == d {
        assert HasEdge(g2, u, v);
      } else if u == a && v == b {
        assert HasEdge(g1, u, v);
      } else {
        assert HasEdge(g1, u, v);
        assert HasEdge(g, u, v);
      }
    }
    SameEdgesSameGraph(x, y);
  }

  /**
   * A route from `s` to `v`: a vertex sequence of at least one edge, starting
   * at `s`, ending at `v`, whose consecutive vertices are joined by edges.
   */
  ghost predicate IsRoute(g: Graph, s: Vertex, v: Vertex, p: seq<Vertex>)
  {
    && |p| >= 2
    && p[0] == s
    && p[|p| - 1] == v
    && forall i :: 0 <= i < |p| - 1 ==> HasEdge(g, p[i], p[i + 1])
  }

  /** The sum of the weights of the edges along `p`. */
  ghost function WalkWeight(g: Graph, p: seq<Vertex>): Weight
    decreases |p|
  {
    if |p| < 2 then 0 else WalkWeight(g, p[..|p| - 1]) + EdgeWeight(g, p[|p| - 2], p[|p| - 1])
  }

  ghost predicate Reachable(g: Graph, s: Vertex, v: Vertex)
  {
    exists p :: IsRoute(g, s, v, p)
  }

  /** Some route from `s` to `v` weighs exactly `d`. */
  ghost predicate HasWitness(g: Graph, s: Vertex, v: Vertex, d: Weight)
  {
    exists p :: IsRoute(g, s, v, p) && WalkWeight(g, p) == d
  }

  /** No route from `s` to `v` weighs less than `d`. */
  ghost predicate IsLowerBound(g: Graph, s: Vertex, v: Vertex, d: Weight)
  {
    forall p :: IsRoute(g, s, v, p) ==> d <= WalkWeight(g, p)
  }

  /** `d` is the least weight of a route from `s` to `v`. */
  ghost predicate IsShortest(g: Graph, s: Vertex, v: Vertex, d: Weight)
  {
    HasWitness(g, s, v, d) && IsLowerBound(g, s, v, d)
  }

  /** A route extended by one more edge is a route, heavier by that edge's weight. */
  lemma ExtendRoute(g: Graph, s: Vertex, u: Vertex, p: seq<Vertex>, v: Vertex)
    requires IsRoute(g, s, u, p) && HasEdge(g, u, v)
    ensures IsRoute(g, s, v, p + [v])
    ensures WalkWeight(g, p + [v]) == WalkWeight(g, p) + g[u][v]
  {
    assert (p + [v])[..|p|] == p;
  }

  /** A route of two or more edges is a shorter route followed by its last edge. */
  lemma RoutePrefix(g: Graph, s: Vertex, v: Vertex, p: seq<Vertex>)
    requires IsRoute(g, s, v, p) && |p| > 2
    ensures IsRoute(g, s, p[|p| - 2], p[..|p| - 1])
    ensures HasEdge(g, p[|p| - 2], v)
    ensures WalkWeight(g, p) == WalkWeight(g, p[..|p| - 1]) + g[p[|p| - 2]][v]
  {
    assert HasEdge(g, p[|p| - 2], p[|p| - 1]);
  }

  /** A route to `u` of weight `d` and an edge `u -> v` give a route to `v` of weight `d + w`. */
  lemma ExtendWitness(g: Graph, s: Vertex, u: Vertex, d: Weight, v: Vertex)
    requires HasWitness(g, s, u, d) && HasEdge(g, u, v)
    ensures HasWitness(g, s, v, d + g[u][v])
  {
    var p :| IsRoute(g, s, u, p) && WalkWeight(g, p) == d;
    ExtendRoute(g, s, u, p, v);
  }

  /**
   * A potential that is 0 at `s` and that no edge undercuts: each edge's
   * weight is at least the rise in potential along it.
   */
  ghost predicate Feasible(g: Graph, s: Vertex, pot: map<Vertex, Weight>)
  {
    && s in pot && pot[s] == 0
    && forall a, b :: HasEdge(g, a, b) ==> a in pot && b in pot && pot[b] <= pot[a] + g[a][b]
  }

  /** A feasible potential bounds every route from `s` from below by the potential of its end. */
  lemma {:induction false} PotentialBound(g: Graph, s: Vertex, pot: map<Vertex, Weight>, v: Vertex, p: seq<Vertex>)
    requires Feasible(g, s, pot)
    requires IsRoute(g, s, v, p)
    ensures v in pot && pot[v] <= WalkWeight(g, p)
    decreases |p|
  {
    var x := p[|p| - 2];
    assert HasEdge(g, x, v);
    if |p| == 2 {
      assert WalkWeight(g, p) == WalkWeight(g, p[..1]) + g[x][v];
    } else {
      RoutePrefix(g, s, v, p);
      PotentialBound(g, s, pot, x, p[..|p| - 1]);
    }
  }
}
