/**
 * The shortest-path solver: the body of `GraphWrapper::dijkstra` up to the
 * flattening of its result. `ans` maps each vertex met so far to its entry;
 * `prio` is the frontier, the set of (tentative distance, vertex) pairs of
 * the vertices whose out-edges have not been relaxed yet.
 */
module Solver {
  import opened Graphs
  import opened Ordered
  import opened Results

  /** The frontier `prio`: (tentative distance, vertex) pairs. */
  type Frontier = set<(Weight, Vertex)>

  /**
   * The relaxation test: `v` takes the candidate distance `cand` when it has
   * no entry yet or a strictly larger recorded distance; an entry at least as
   * short, and the start marker, are left alone.
   */
  predicate Improves(ans: Answer, v: Vertex, cand: Weight)
  {
    v !in ans || (ans[v].Reached? && cand < ans[v].dist)
  }

  /** `x` is the frontier pair of `x.1`'s current entry in `ans`. */
  predicate RecordsEntry(ans: Answer, x: (Weight, Vertex))
  {
    x.1 in ans && ans[x.1].Reached? && ans[x.1].dist == x.0
  }

  /**
   * `v` is among the targets in `seen` of the out-edges `edges` of a vertex
   * popped at distance `d`, and relaxing that edge improves on `ans0`.
   */
  ghost predicate Updates(ans0: Answer, d: Weight, edges: map<Vertex, Weight>, seen: set<Vertex>, v: Vertex)
  {
    v in seen && v in edges && Improves(ans0, v, d + edges[v])
  }

  /**
   * `ans`, `prio` are `ans0`, `prio0` once the out-edges of `u` (popped at
   * distance `d`) that lead to the vertices in `seen` have been relaxed: each
   * improved target records `u` and its new distance, its old frontier pair
   * (if any) is replaced by the new one, and nothing else changes.
   */
  ghost predicate RelaxedOn(ans0: Answer, prio0: Frontier, u: Vertex, d: Weight, edges: map<Vertex, Weight>,
                            seen: set<Vertex>, ans: Answer, prio: Frontier)
  {
    && seen <= edges.Keys
    && (forall v :: v in ans <==> v in ans0 || v in seen)
    && (forall v :: Updates(ans0, d, edges, seen, v) ==> ans[v] == Reached(u, d + edges[v]))
    && (forall v :: v in ans0 && !Updates(ans0, d, edges, seen, v) ==> ans[v] == ans0[v])
    && (forall x :: x in prio <==>
          if Updates(ans0, d, edges, seen, x.1) then x.0 == d + edges[x.1] || (x in prio0 && !RecordsEntry(ans0, x))
          else x in prio0)
  }

  /**
   * Lines 60-75: when the popped vertex `u` (at distance `d`) has out-edges,
   * relaxes each of them, `u -> next`, in ascending order of `next`.
   */
  method RelaxEdges(g: Graph, ans0: Answer, prio0: Frontier, u: Vertex, d: Weight)
    returns (ans: Answer, prio: Frontier)
    ensures RelaxedOn(ans0, prio0, u, d, OutEdges(g, u), OutEdges(g, u).Keys, ans, prio)
    ensures forall v :: v in ans0 ==> v in ans
    ensures forall v :: v in ans0 && ans0[v].StartMarker? ==> ans[v] == StartMarker
    ensures forall v :: v in ans0 && ans[v] != ans0[v] ==> ans0[v].Reached? && ans[v].dist < ans0[v].dist
    ensures forall v :: v in ans && v !in ans0 ==> HasEdge(g, u, v) && ans[v] == Reached(u, d + g[u][v])
  {
    ans, prio := ans0, prio0;
    if u in g {
      var edges := g[u];
      var rest := edges.Keys;
      while rest != {}
        invariant rest <= edges.Keys
        invariant RelaxedOn(ans0, prio0, u, d, edges, edges.Keys - rest, ans, prio)
        decreases rest
      {
        LeastVertexExists(rest);
        var next :| IsLeastVertex(next, rest);
        ghost var ansBefore, prioBefore := ans, prio;
        ans, prio := RelaxEdge(ans, prio, u, d, next, edges[next]);
        RelaxOne(ans0, prio0, u, d, edges, edges.Keys - rest, ansBefore, prioBefore, next, ans, prio);
        assert edges.Keys - (rest - {next}) == (edges.Keys - rest) + {next};
        rest := rest - {next};
      }
      assert edges.Keys - rest == OutEdges(g, u).Keys;
    } else {
      NothingToRelax(g, ans, prio, u, d);
    }
  }

  /**
   * The loop body, for the edge `u -> next` of weight `w`: a target with no
   * entry, or with a strictly longer one, takes `u` as predecessor and the new
   * distance, and its frontier pair is replaced; otherwise nothing changes.
   */
  method RelaxEdge(ans0: Answer, prio0: Frontier, u: Vertex, d: Weight, next: Vertex, w: Weight)
    returns (ans: Answer, prio: Frontier)
    ensures Improves(ans0, next, d + w) ==>
              && ans == ans0[next := Reached(u, d + w)]
              && prio == (if next in ans0 && ans0[next].Reached? then prio0 - {(ans0[next].dist, next)} else prio0)
                         + {(d + w, next)}
    ensures !Improves(ans0, next, d + w) ==> ans == ans0 && prio == prio0
  {
    ans, prio := ans0, prio0;
    var newWeight := d + w;
    var keep := next in ans && match ans[next] {
      case StartMarker => true
      case Reached(_, distNext) => newWeight >= distNext
    };
    if !keep {
      var previous := if next in ans then Some(ans[next]) else None;
      ans := ans[next := Reached(u, newWeight)];
      if previous.Some? && previous.value.Reached? {
        prio := prio - {(previous.value.dist, next)};
      }
      prio := prio + {(newWeight, next)};
    }
  }

  /** Relaxing the edge to one more target `next` extends RelaxedOn by that target. */
  lemma RelaxOne(ans0: Answer, prio0: Frontier, u: Vertex, d: Weight, edges: map<Vertex, Weight>, seen: set<Vertex>,
                 ans: Answer, prio: Frontier, next: Vertex, ans2: Answer, prio2: Frontier)
    requires RelaxedOn(ans0, prio0, u, d, edges, seen, ans, prio)
    requires next in edges && next !in seen
    requires Improves(ans, next, d + edges[next]) ==>
               && ans2 == ans[next := Reached(u, d + edges[next])]
               && prio2 == (if next in ans && ans[next].Reached? then prio - {(ans[next].dist, next)} else prio)
                           + {(d + edges[next], next)}
    requires !Improves(ans, next, d + edges[next]) ==> ans2 == ans && prio2 == prio
    ensures RelaxedOn(ans0, prio0, u, d, edges, seen + {next}, ans2, prio2)
  {
    var cand := d + edges[next];
    assert next in ans <==> next in ans0;
    assert next in ans ==> ans[next] == ans0[next];
    assert Improves(ans, next, cand) <==> Improves(ans0, next, cand);
    var seen2 := seen + {next};
    forall v ensures Updates(ans0, d, edges, seen2, v) <==> Updates(ans0, d, edges, seen, v) || (v == next && Improves(ans0, next, cand)) {
    }
    forall x ensures x in prio2 <==>
          if Updates(ans0, d, edges, seen2, x.1) then x.0 == d + edges[x.1] || (x in prio0 && !RecordsEntry(ans0, x))
          else x in prio0
    {
      if x.1 == next && Improves(ans0, next, cand) {
        assert x in prio2 <==> x.0 == cand || (x in prio0 && !RecordsEntry(ans0, x));
      }
    }
  }

  /** A vertex without out-edges changes nothing. */
  lemma NothingToRelax(g: Graph, ans: Answer, prio: Frontier, u: Vertex, d: Weight)
    requires u !in g
    ensures RelaxedOn(ans, prio, u, d, OutEdges(g, u), OutEdges(g, u).Keys, ans, prio)
  {
  }

  /**
   * The state after the seeding loop has handled the out-edges `edges` of
   * the start `s` that lead to the vertices in `seen`.
   */
  ghost predicate SeededOn(s: Vertex, edges: map<Vertex, Weight>, seen: set<Vertex>, ans: Answer, prio: Frontier)
  {
    && seen <= edges.Keys
    && (forall v :: v in ans <==> v == s || v in seen)
    && (forall v :: v in seen ==> ans[v] == Reached(s, edges[v]))
    && (s !in seen ==> ans[s] == StartMarker)
    && (forall x :: x in prio <==> x.1 in seen && x.0 == edges[x.1])
  }

  /** The out-edges of `x` are relaxed into `ans`: each target has an entry no longer than through `x`. */
  ghost predicate Expanded(g: Graph, s: Vertex, ans: Answer, x: Vertex)
  {
    forall y :: HasEdge(g, x, y) ==> y in ans && (ans[y].StartMarker? || ans[y].dist <= Base(ans, s, x) + g[x][y])
  }

  /**
   * The shape of `ans` while the main loop runs (`done` being the vertices
   * popped so far): it holds the start and only vertices of the graph; the
   * start marker sits on the start alone, exactly when there is no edge
   * `s -> s`; and every popped vertex has been reached.
   */
  ghost predicate ShapeOk(g: Graph, s: Vertex, ans: Answer, done: set<Vertex>)
  {
    && s in ans
    && ans.Keys <= Vertices(g) + {s}
    && done <= ans.Keys
    && (ans[s].StartMarker? <==> !HasEdge(g, s, s))
    && (forall v :: v in ans && ans[v].StartMarker? ==> v == s)
    && (forall v :: v in done ==> ans[v].Reached?)
  }

  /**
   * The frontier holds one pair per reached vertex not yet popped, carrying
   * its current distance, and no popped distance exceeds a frontier distance.
   */
  ghost predicate FrontierOk(ans: Answer, prio: Frontier, done: set<Vertex>)
  {
    && (forall x :: x in prio ==> RecordsEntry(ans, x) && x.1 !in done)
    && (forall v :: v in ans && ans[v].Reached? && v !in done ==> (ans[v].dist, v) in prio)
    && (forall v, x :: v in done && v in ans && ans[v].Reached? && x in prio ==> ans[v].dist <= x.0)
  }

  /** Since each pair records its vertex's current distance, the frontier holds at most one pair per vertex. */
  lemma OnePairPerVertex(ans: Answer, prio: Frontier, done: set<Vertex>)
    requires FrontierOk(ans, prio, done)
    ensures forall x, y :: x in prio && y in prio && x.1 == y.1 ==> x == y
  {
  }

  /** `v`'s predecessor is the start or a popped vertex, and `v`'s distance goes through it. */
  ghost predicate PredInv(g: Graph, s: Vertex, ans: Answer, done: set<Vertex>, v: Vertex)
    requires v in ans && ans[v].Reached?
  {
    var p := ans[v].pred;
    (p == s || p in done) && HasEdge(g, p, v) && ans[v].dist == Base(ans, s, p) + g[p][v]
  }

  ghost predicate PredsOk(g: Graph, s: Vertex, ans: Answer, done: set<Vertex>)
  {
    forall v :: v in ans && ans[v].Reached? ==> PredInv(g, s, ans, done, v)
  }

  /** Every recorded distance is the weight of some route. */
  ghost predicate WitnessesOk(g: Graph, s: Vertex, ans: Answer)
  {
    forall v :: v in ans && ans[v].Reached? ==> HasWitness(g, s, v, ans[v].dist)
  }

  /** Every popped distance is final: no route is lighter. */
  ghost predicate FinalOk(g: Graph, s: Vertex, ans: Answer, done: set<Vertex>)
  {
    forall v :: v in done && v in ans && ans[v].Reached? ==> IsLowerBound(g, s, v, ans[v].dist)
  }

  /** The start and every popped vertex have had their out-edges relaxed. */
  ghost predicate ExpandedOk(g: Graph, s: Vertex, ans: Answer, done: set<Vertex>)
  {
    Expanded(g, s, ans, s) && forall v :: v in done ==> Expanded(g, s, ans, v)
  }

  /** The invariant of the main loop. */
  ghost predicate Inv(g: Graph, s: Vertex, ans: Answer, prio: Frontier, done: set<Vertex>)
  {
    && ShapeOk(g, s, ans, done)
    && FrontierOk(ans, prio, done)
    && PredsOk(g, s, ans, done)
    && WitnessesOk(g, s, ans)
    && FinalOk(g, s, ans, done)
    && ExpandedOk(g, s, ans, done)
  }

  /** The seeding loop establishes the main loop's invariant, with nothing popped. */
  lemma SeedEstablishes(g: Graph, s: Vertex, ans: Answer, prio: Frontier)
    requires SeededOn(s, OutEdges(g, s), OutEdges(g, s).Keys, ans, prio)
    ensures Inv(g, s, ans, prio, {})
  {
    var edges := OutEdges(g, s);
    forall v | v in edges ensures HasEdge(g, s, v) && edges[v] == g[s][v] {
    }
    forall v | v in edges ensures HasWitness(g, s, v, edges[v]) {
      var p := [s, v];
      assert IsRoute(g, s, v, p);
      assert WalkWeight(g, p) == WalkWeight(g, [s]) + EdgeWeight(g, s, v);
    }
  }

  /** The parts of the invariant that bound every route from below. */
  ghost predicate Covered(g: Graph, s: Vertex, ans: Answer, prio: Frontier, done: set<Vertex>)
  {
    ShapeOk(g, s, ans, done) && FrontierOk(ans, prio, done) && FinalOk(g, s, ans, done) && ExpandedOk(g, s, ans, done)
  }

  /**
   * Any route from the start either ends at a popped vertex (or at the start
   * marker) or is at least as heavy as some frontier distance.
   */
  lemma {:induction false} RouteMeetsFrontier(g: Graph, s: Vertex, ans: Answer, prio: Frontier, done: set<Vertex>,
                                              v: Vertex, p: seq<Vertex>)
    requires Covered(g, s, ans, prio, done)
    requires IsRoute(g, s, v, p)
    ensures (v in ans && (v in done || ans[v].StartMarker?)) || exists x :: x in prio && x.0 <= WalkWeight(g, p)
    decreases |p|
  {
    var n := |p|;
    var x := p[n - 2];
    assert HasEdge(g, x, v);
    if n == 2 {
      assert WalkWeight(g, p) == WalkWeight(g, p[..1]) + EdgeWeight(g, x, v);
      FromExpanded(g, s, ans, prio, done, x, v, WalkWeight(g, p));
    } else {
      var q := p[..n - 1];
      RoutePrefix(g, s, v, p);
      RouteMeetsFrontier(g, s, ans, prio, done, x, q);
      if y :| y in prio && y.0 <= WalkWeight(g, q) {
        assert y.0 <= WalkWeight(g, p);
      } else {
        assert x in done || x == s;
        assert Base(ans, s, x) <= WalkWeight(g, q);
        FromExpanded(g, s, ans, prio, done, x, v, WalkWeight(g, p));
      }
    }
  }

  /** The last step of RouteMeetsFrontier: an edge out of the start or a popped vertex. */
  lemma FromExpanded(g: Graph, s: Vertex, ans: Answer, prio: Frontier, done: set<Vertex>, x: Vertex, v: Vertex, w: Weight)
    requires Covered(g, s, ans, prio, done)
    requires (x == s || x in done) && HasEdge(g, x, v)
    requires Base(ans, s, x) + g[x][v] <= w
    ensures (v in ans && (v in done || ans[v].StartMarker?)) || exists y :: y in prio && y.0 <= w
  {
    assert Expanded(g, s, ans, x);
    if v !in done && ans[v].Reached? {
      assert (ans[v].dist, v) in prio;
    }
  }

  /** No route to the vertex of the pair `pop_first` takes is lighter than the popped distance. */
  lemma PoppedIsFinal(g: Graph, s: Vertex, ans: Answer, prio: Frontier, done: set<Vertex>, d: Weight, u: Vertex)
    requires Covered(g, s, ans, prio, done)
    requires IsLeastPair((d, u), prio)
    ensures IsLowerBound(g, s, u, d)
  {
    forall p | IsRoute(g, s, u, p) ensures d <= WalkWeight(g, p) {
      RouteMeetsFrontier(g, s, ans, prio, done, u, p);
      assert RecordsEntry(ans, (d, u));
      if y :| y in prio && y.0 <= WalkWeight(g, p) {
        assert LexLeq((d, u), y);
      }
    }
  }

  /**
   * With every recorded distance the weight of some route, the pair
   * `pop_first` takes carries the weight of a lightest route to its vertex.
   */
  lemma PoppedIsShortest(g: Graph, s: Vertex, ans: Answer, prio: Frontier, done: set<Vertex>, d: Weight, u: Vertex)
    requires Covered(g, s, ans, prio, done) && WitnessesOk(g, s, ans)
    requires IsLeastPair((d, u), prio)
    ensures IsShortest(g, s, u, d)
  {
    PoppedIsFinal(g, s, ans, prio, done, d, u);
    assert RecordsEntry(ans, (d, u));
  }

  /**
   * What every iteration step may rely on: the parts of the invariant that
   * bound the relaxation, `(d, u)` the least frontier pair, and `ans2`,
   * `prio2` the state after popping it and relaxing `u`'s out-edges.
   */
  ghost predicate StepPre(g: Graph, s: Vertex, ans: Answer, prio: Frontier, done: set<Vertex>, d: Weight, u: Vertex,
                          ans2: Answer, prio2: Frontier)
  {
    && ShapeOk(g, s, ans, done)
    && FrontierOk(ans, prio, done)
    && ExpandedOk(g, s, ans, done)
    && IsLeastPair((d, u), prio)
    && RelaxedOn(ans, prio - {(d, u)}, u, d, OutEdges(g, u), OutEdges(g, u).Keys, ans2, prio2)
  }

  ghost predicate StepUpdates(g: Graph, ans: Answer, d: Weight, u: Vertex, v: Vertex)
  {
    Updates(ans, d, OutEdges(g, u), OutEdges(g, u).Keys, v)
  }

  /**
   * What one iteration can and cannot change: the popped vertex had its
   * final entry; no popped vertex, no start marker and, when the start itself
   * is popped, no vertex at all is updated; every update follows an edge of
   * `u`; every other entry stays as it was.
   */
  lemma StepBasics(g: Graph, s: Vertex, ans: Answer, prio: Frontier, done: set<Vertex>, d: Weight, u: Vertex,
                   ans2: Answer, prio2: Frontier)
    requires StepPre(g, s, ans, prio, done, d, u, ans2, prio2)
    ensures u in ans && ans[u].Reached? && ans[u].dist == d && u !in done && u in Vertices(g) + {s}
    ensures forall v :: v in done + {u} ==> !StepUpdates(g, ans, d, u, v)
    ensures u == s ==> forall v :: !StepUpdates(g, ans, d, u, v)
    ensures forall v :: StepUpdates(g, ans, d, u, v) ==> HasEdge(g, u, v) && v in ans2 && ans2[v] == Reached(u, d + g[u][v])
    ensures forall v :: v in ans && !StepUpdates(g, ans, d, u, v) ==> v in ans2 && ans2[v] == ans[v]
    ensures forall v :: v in ans2 ==> v in ans || StepUpdates(g, ans, d, u, v)
  {
    assert RecordsEntry(ans, (d, u));
    forall v | v in done ensures ans[v].dist <= d {
      assert (d, u) in prio;
    }
    if u == s {
      forall v ensures !StepUpdates(g, ans, d, u, v) {
        if HasEdge(g, s, v) {
          assert Expanded(g, s, ans, s);
        }
      }
    }
  }

  /** An iteration keeps the shape of `ans`, and leaves popped entries alone. */
  lemma StepKeepsShape(g: Graph, s: Vertex, ans: Answer, prio: Frontier, done: set<Vertex>, d: Weight, u: Vertex,
                       ans2: Answer, prio2: Frontier)
    requires StepPre(g, s, ans, prio, done, d, u, ans2, prio2)
    ensures ShapeOk(g, s, ans2, done + {u})
    ensures forall v :: v in done + {u} ==> ans2[v] == ans[v]
    ensures u in Vertices(g) + {s} && u !in done
  {
    StepBasics(g, s, ans, prio, done, d, u, ans2, prio2);
    forall v | v in ans2 ensures v in Vertices(g) + {s} {
      if v !in ans {
        assert HasEdge(g, u, v);
      }
    }
  }

  /** An iteration keeps the frontier in step with the unpopped entries. */
  lemma StepKeepsFrontier(g: Graph, s: Vertex, ans: Answer, prio: Frontier, done: set<Vertex>, d: Weight, u: Vertex,
                          ans2: Answer, prio2: Frontier)
    requires StepPre(g, s, ans, prio, done, d, u, ans2, prio2)
    ensures FrontierOk(ans2, prio2, done + {u})
  {
    StepBasics(g, s, ans, prio, done, d, u, ans2, prio2);
    NewFrontierAbovePopped(g, s, ans, prio, done, d, u, ans2, prio2);
    var done2 := done + {u};
    forall v | v in ans2 && ans2[v].Reached? && v !in done2 ensures (ans2[v].dist, v) in prio2 {
      if !StepUpdates(g, ans, d, u, v) {
        assert (ans[v].dist, v) in prio;
      }
    }
    forall v, x | v in done2 && v in ans2 && ans2[v].Reached? && x in prio2 ensures ans2[v].dist <= x.0 {
      if v in done {
        assert ans[v].dist <= d by {
          assert (d, u) in prio;
        }
      }
    }
  }

  /** After an iteration every frontier pair records a current, unpopped entry no shorter than the popped one. */
  lemma NewFrontierAbovePopped(g: Graph, s: Vertex, ans: Answer, prio: Frontier, done: set<Vertex>, d: Weight, u: Vertex,
                               ans2: Answer, prio2: Frontier)
    requires FrontierOk(ans, prio, done)
    requires IsLeastPair((d, u), prio)
    requires RelaxedOn(ans, prio - {(d, u)}, u, d, OutEdges(g, u), OutEdges(g, u).Keys, ans2, prio2)
    requires forall v :: v in done + {u} ==> !StepUpdates(g, ans, d, u, v)
    ensures forall x :: x in prio2 ==> RecordsEntry(ans2, x) && x.1 !in done + {u} && d <= x.0
  {
    forall x | x in prio2 ensures RecordsEntry(ans2, x) && x.1 !in done + {u} && d <= x.0 {
      if !StepUpdates(g, ans, d, u, x.1) {
        assert x in prio && x != (d, u);
        assert RecordsEntry(ans, x);
        assert LexLeq((d, u), x);
      } else {
        assert x.0 == d + g[u][x.1];
      }
    }
  }

  /** An iteration keeps every predecessor on the start or a popped vertex, consistent with the distances. */
  lemma StepKeepsPreds(g: Graph, s: Vertex, ans: Answer, prio: Frontier, done: set<Vertex>, d: Weight, u: Vertex,
                       ans2: Answer, prio2: Frontier)
    requires StepPre(g, s, ans, prio, done, d, u, ans2, prio2)
    requires PredsOk(g, s, ans, done)
    ensures PredsOk(g, s, ans2, done + {u})
  {
    StepBasics(g, s, ans, prio, done, d, u, ans2, prio2);
    forall v | v in ans2 && ans2[v].Reached? ensures PredInv(g, s, ans2, done + {u}, v) {
      if StepUpdates(g, ans, d, u, v) {
        assert u != s;
        assert Base(ans2, s, u) == d;
      } else {
        var p := ans[v].pred;
        assert PredInv(g, s, ans, done, v);
        assert p == s || ans2[p] == ans[p];
        assert Base(ans2, s, p) == Base(ans, s, p);
      }
    }
  }

  /** An iteration keeps every distance the weight of some route. */
  lemma StepKeepsWitnesses(g: Graph, s: Vertex, ans: Answer, prio: Frontier, done: set<Vertex>, d: Weight, u: Vertex,
                           ans2: Answer, prio2: Frontier)
    requires StepPre(g, s, ans, prio, done, d, u, ans2, prio2)
    requires WitnessesOk(g, s, ans)
    ensures WitnessesOk(g, s, ans2)
  {
    StepBasics(g, s, ans, prio, done, d, u, ans2, prio2);
    forall v | v in ans2 && ans2[v].Reached? ensures HasWitness(g, s, v, ans2[v].dist) {
      if StepUpdates(g, ans, d, u, v) {
        ExtendWitness(g, s, u, d, v);
      }
    }
  }

  /** An iteration makes the popped distance final and keeps the earlier ones. */
  lemma StepKeepsFinal(g: Graph, s: Vertex, ans: Answer, prio: Frontier, done: set<Vertex>, d: Weight, u: Vertex,
                       ans2: Answer, prio2: Frontier)
    requires StepPre(g, s, ans, prio, done, d, u, ans2, prio2)
    requires FinalOk(g, s, ans, done)
    ensures FinalOk(g, s, ans2, done + {u})
  {
    StepBasics(g, s, ans, prio, done, d, u, ans2, prio2);
    PoppedIsFinal(g, s, ans, prio, done, d, u);
  }

  /** An iteration leaves the start and every popped vertex, now with `u`, expanded. */
  lemma StepKeepsExpanded(g: Graph, s: Vertex, ans: Answer, prio: Frontier, done: set<Vertex>, d: Weight, u: Vertex,
                          ans2: Answer, prio2: Frontier)
    requires StepPre(g, s, ans, prio, done, d, u, ans2, prio2)
    ensures ExpandedOk(g, s, ans2, done + {u})
  {
    StepBasics(g, s, ans, prio, done, d, u, ans2, prio2);
    forall x | x == s || x in done ensures Expanded(g, s, ans2, x) {
      StaysExpanded(g, s, ans, ans2, d, u, x);
    }
    if u != s {
      assert Base(ans2, s, u) == d;
      forall y | HasEdge(g, u, y)
        ensures y in ans2 && (ans2[y].StartMarker? || ans2[y].dist <= Base(ans2, s, u) + g[u][y])
      {
        assert y in OutEdges(g, u);
      }
    }
  }

  /** A vertex already expanded, whose own entry is not updated, stays expanded: entries only shrink. */
  lemma StaysExpanded(g: Graph, s: Vertex, ans: Answer, ans2: Answer, d: Weight, u: Vertex, x: Vertex)
    requires Expanded(g, s, ans, x)
    requires x == s || (x in ans && !StepUpdates(g, ans, d, u, x))
    requires forall v :: StepUpdates(g, ans, d, u, v) ==> v in ans2 && ans2[v] == Reached(u, d + g[u][v])
    requires forall v :: v in ans && !StepUpdates(g, ans, d, u, v) ==> v in ans2 && ans2[v] == ans[v]
    ensures Expanded(g, s, ans2, x)
  {
    assert Base(ans2, s, x) == Base(ans, s, x);
    forall y | HasEdge(g, x, y)
      ensures y in ans2 && (ans2[y].StartMarker? || ans2[y].dist <= Base(ans2, s, x) + g[x][y])
    {
      if StepUpdates(g, ans, d, u, y) {
        assert ans[y].dist <= Base(ans, s, x) + g[x][y];
      }
    }
  }

  /** One iteration of the main loop keeps its invariant, with `u` now popped, and shrinks the unpopped vertices. */
  lemma StepKeepsInv(g: Graph, s: Vertex, ans: Answer, prio: Frontier, done: set<Vertex>, d: Weight, u: Vertex,
                     ans2: Answer, prio2: Frontier)
    requires Inv(g, s, ans, prio, done)
    requires IsLeastPair((d, u), prio)
    requires RelaxedOn(ans, prio - {(d, u)}, u, d, OutEdges(g, u), OutEdges(g, u).Keys, ans2, prio2)
    ensures Inv(g, s, ans2, prio2, done + {u})
    ensures |Vertices(g) + {s} - (done + {u})| < |Vertices(g) + {s} - done|
  {
    StepKeepsShape(g, s, ans, prio, done, d, u, ans2, prio2);
    StepKeepsFrontier(g, s, ans, prio, done, d, u, ans2, prio2);
    StepKeepsPreds(g, s, ans, prio, done, d, u, ans2, prio2);
    StepKeepsWitnesses(g, s, ans, prio, done, d, u, ans2, prio2);
    StepKeepsFinal(g, s, ans, prio, done, d, u, ans2, prio2);
    StepKeepsExpanded(g, s, ans, prio, done, d, u, ans2, prio2);
    RemoveOne(Vertices(g) + {s}, done, u);
  }

  lemma RemoveOne(all: set<Vertex>, done: set<Vertex>, u: Vertex)
    requires u in all && u !in done
    ensures |all - (done + {u})| < |all - done|
  {
    assert all - (done + {u}) == (all - done) - {u};
  }

  /**
   * `order` numbers the popped vertices in the order they were popped, all
   * below `count`; every predecessor other than the start has been popped,
   * and before the vertex it leads to when that one has been popped too.
   */
  ghost predicate PopOrderOk(s: Vertex, ans: Answer, done: set<Vertex>, order: map<Vertex, nat>, count: nat)
  {
    && order.Keys == done
    && (forall v :: v in order ==> order[v] < count)
    && (forall v :: v in ans && v != s && ans[v].Reached? && ans[v].pred != s ==>
          ans[v].pred in order && (v in order ==> order[ans[v].pred] < order[v]))
  }

  /** The main loop's invariant together with the pop order kept beside it. */
  ghost predicate LoopOk(g: Graph, s: Vertex, ans: Answer, prio: Frontier, done: set<Vertex>,
                         order: map<Vertex, nat>, count: nat)
  {
    Inv(g, s, ans, prio, done) && PopOrderOk(s, ans, done, order, count)
  }

  /** Seeding records the start as the predecessor of every entry. */
  lemma SeedPopOrder(g: Graph, s: Vertex, ans: Answer, prio: Frontier)
    requires SeededOn(s, OutEdges(g, s), OutEdges(g, s).Keys, ans, prio)
    ensures PopOrderOk(s, ans, {}, map[], 0)
  {
  }

  /**
   * An iteration keeps the pop order consistent with the predecessors: each
   * updated vertex takes the just-popped `u` as predecessor and has not been
   * popped itself, and `u`, popped last, ranks above its own predecessor.
   */
  lemma StepKeepsPopOrder(g: Graph, s: Vertex, ans: Answer, prio: Frontier, done: set<Vertex>, d: Weight, u: Vertex,
                          ans2: Answer, prio2: Frontier, order: map<Vertex, nat>, count: nat)
    requires StepPre(g, s, ans, prio, done, d, u, ans2, prio2)
    requires PopOrderOk(s, ans, done, order, count)
    ensures PopOrderOk(s, ans2, done + {u}, order[u := count], count + 1)
  {
    StepBasics(g, s, ans, prio, done, d, u, ans2, prio2);
    var order2 := order[u := count];
    assert order2.Keys == done + {u};
    forall v | v in order2 ensures order2[v] < count + 1 {
    }
    forall v | v in ans2 && v != s && ans2[v].Reached? && ans2[v].pred != s
      ensures ans2[v].pred in order2 && (v in order2 ==> order2[ans2[v].pred] < order2[v])
    {
      if !StepUpdates(g, ans, d, u, v) {
        assert ans2[v] == ans[v];
        assert ans[v].pred in order;
      }
    }
  }

  /** One iteration keeps the loop invariant and the pop order, with `u` popped as number `count`. */
  lemma StepKeepsLoop(g: Graph, s: Vertex, ans: Answer, prio: Frontier, done: set<Vertex>, d: Weight, u: Vertex,
                      ans2: Answer, prio2: Frontier, order: map<Vertex, nat>, count: nat)
    requires LoopOk(g, s, ans, prio, done, order, count)
    requires IsLeastPair((d, u), prio)
    requires RelaxedOn(ans, prio - {(d, u)}, u, d, OutEdges(g, u), OutEdges(g, u).Keys, ans2, prio2)
    ensures LoopOk(g, s, ans2, prio2, done + {u}, order[u := count], count + 1)
    ensures |Vertices(g) + {s} - (done + {u})| < |Vertices(g) + {s} - done|
  {
    StepKeepsInv(g, s, ans, prio, done, d, u, ans2, prio2);
    StepKeepsPopOrder(g, s, ans, prio, done, d, u, ans2, prio2, order, count);
  }

  /** When the frontier is empty, the invariant is the solver's contract. */
  lemma FinalResult(g: Graph, s: Vertex, ans: Answer, done: set<Vertex>, order: map<Vertex, nat>, count: nat)
    requires LoopOk(g, s, ans, {}, done, order, count)
    ensures IsShortestPathResult(g, s, ans)
  {
    FinalAllPopped(g, s, ans, done);
    FinalKeys(g, s, ans, done);
    FinalShortest(g, s, ans, done);
    FinalPredecessors(g, s, ans, done);
    assert RankedBy(s, ans, order);
  }

  /** Every reached entry, being popped, carries a lightest route's weight. */
  lemma FinalShortest(g: Graph, s: Vertex, ans: Answer, done: set<Vertex>)
    requires WitnessesOk(g, s, ans) && FinalOk(g, s, ans, done)
    requires forall v :: v in ans && ans[v].Reached? ==> v in done
    ensures forall v :: v in ans && ans[v].Reached? ==> IsShortest(g, s, v, ans[v].dist)
  {
  }

  /** Every reached entry names a predecessor consistent with it. */
  lemma FinalPredecessors(g: Graph, s: Vertex, ans: Answer, done: set<Vertex>)
    requires ShapeOk(g, s, ans, done) && PredsOk(g, s, ans, done)
    ensures forall v :: v in ans && ans[v].Reached? ==> PredecessorOk(g, s, ans, v)
  {
    forall v | v in ans && ans[v].Reached? ensures PredecessorOk(g, s, ans, v) {
      assert PredInv(g, s, ans, done, v);
    }
  }

  /** With the frontier empty, every reached vertex has been popped. */
  lemma FinalAllPopped(g: Graph, s: Vertex, ans: Answer, done: set<Vertex>)
    requires Inv(g, s, ans, {}, done)
    ensures forall v :: v in ans && ans[v].Reached? ==> v in done
  {
  }

  /** With the frontier empty, the map holds the start and exactly the vertices reachable from it. */
  lemma FinalKeys(g: Graph, s: Vertex, ans: Answer, done: set<Vertex>)
    requires Inv(g, s, ans, {}, done)
    ensures forall v :: v in ans <==> v == s || Reachable(g, s, v)
  {
    forall v ensures v in ans <==> v == s || Reachable(g, s, v) {
      if v in ans && v != s {
        var p :| IsRoute(g, s, v, p) && WalkWeight(g, p) == ans[v].dist;
      }
      if Reachable(g, s, v) {
        var p :| IsRoute(g, s, v, p);
        RouteMeetsFrontier(g, s, ans, {}, done, v, p);
      }
    }
  }

  /**
   * Lines 50-57 of `dijkstra`: the start marker, then each out-neighbour of
   * the start, in ascending order, recorded with the start as predecessor and
   * put on the frontier at the weight of its edge.
   */
  method Seed(g: Graph, start: Vertex) returns (ans: Answer, prio: Frontier)
    ensures SeededOn(start, OutEdges(g, start), OutEdges(g, start).Keys, ans, prio)
  {
    ans := map[start := StartMarker];
    prio := {};
    if start in g {
      var startEdges := g[start];
      var rest := startEdges.Keys;
      while rest != {}
        invariant rest <= startEdges.Keys
        invariant SeededOn(start, startEdges, startEdges.Keys - rest, ans, prio)
        decreases rest
      {
        LeastVertexExists(rest);
        var next :| IsLeastVertex(next, rest);
        ans := ans[next := Reached(start, startEdges[next])];
        prio := prio + {(startEdges[next], next)};
        rest := rest - {next};
      }
    }
  }

  /**
   * Lines 47-77 of `dijkstra`: the start marker, the seeding of the start's
   * out-neighbours, then repeatedly popping the least frontier pair and
   * relaxing the popped vertex's out-edges until the frontier is empty.
   */
  method ShortestPaths(g: Graph, start: Vertex) returns (ans: Answer)
    ensures IsShortestPathResult(g, start, ans)
  {
    var prio: Frontier;
    ans, prio := Seed(g, start);
    SeedEstablishes(g, start, ans, prio);
    SeedPopOrder(g, start, ans, prio);

    ghost var done: set<Vertex> := {};
    ghost var order: map<Vertex, nat> := map[];
    ghost var count: nat := 0;
    while prio != {}
      invariant LoopOk(g, start, ans, prio, done, order, count)
      decreases |Vertices(g) + {start} - done|
    {
      LeastPairExists(prio);
      var top :| IsLeastPair(top, prio);
      var (pathWeight, vertex) := top;
      ghost var ans1, prio1 := ans, prio;
      prio := prio - {(pathWeight, vertex)};
      ans, prio := RelaxEdges(g, ans, prio, vertex, pathWeight);
      StepKeepsLoop(g, start, ans1, prio1, done, pathWeight, vertex, ans, prio, order, count);
      done := done + {vertex};
      order, count := order[vertex := count], count + 1;
    }
    FinalResult(g, start, ans, done, order, count);
  }
}
