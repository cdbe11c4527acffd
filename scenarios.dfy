/**
 * Worked graphs, with vertices A = 0, B = 1, C = 2, D = 3: what the
 * shortest-path contract pins down for each of them. Since `ShortestPaths`
 * and `GraphWrapper.Dijkstra` meet that contract, these are the answers
 * they give.
 */
module Scenarios {
  import opened Graphs
  import opened Results

  /**
   * A route whose weight matches a feasible potential is a lightest one, so
   * its weight is `v`'s recorded distance; and when every in-edge of `v` but
   * the one from `pred` overshoots the potential, `pred` is the recorded
   * predecessor.
   */
  lemma EntryIs(g: Graph, s: Vertex, ans: Answer, pot: map<Vertex, Weight>, v: Vertex, p: seq<Vertex>, pred: Vertex, d: Weight)
    requires IsShortestPathResult(g, s, ans)
    requires Feasible(g, s, pot)
    requires IsRoute(g, s, v, p) && v != s && v in pot && pot[v] == WalkWeight(g, p) == d
    requires forall q :: HasEdge(g, q, v) && q != pred ==> q in pot && pot[v] < pot[q] + g[q][v]
    ensures v in ans && ans[v] == Reached(pred, d)
  {
    assert v in ans;
    var r :| IsRoute(g, s, v, r) && WalkWeight(g, r) == ans[v].dist;
    PotentialBound(g, s, pot, v, r);
    var q := ans[v].pred;
    assert PredecessorOk(g, s, ans, v);
    if q != s {
      var rq :| IsRoute(g, s, q, rq) && WalkWeight(g, rq) == ans[q].dist;
      PotentialBound(g, s, pot, q, rq);
    }
    assert pot[q] <= Base(ans, s, q);
    assert q == pred;
  }

  /** Without an edge `s -> s`, the start keeps the start marker. */
  lemma StartKeepsMarker(g: Graph, s: Vertex, ans: Answer)
    requires IsShortestPathResult(g, s, ans)
    requires !HasEdge(g, s, s)
    ensures s in ans && ans[s] == StartMarker
  {
  }

  /** Every key of the result has a value in any feasible potential `pot` (whose domain holds every edge's endpoints). */
  lemma KeysWithin(g: Graph, s: Vertex, ans: Answer, pot: map<Vertex, Weight>)
    requires IsShortestPathResult(g, s, ans)
    requires Feasible(g, s, pot)
    ensures forall v :: v in ans ==> v in pot
  {
    forall v | v in ans ensures v in pot {
      if v != s {
        var p :| IsRoute(g, s, v, p);
        assert HasEdge(g, p[|p| - 2], v);
      }
    }
  }

  /** An entry map with keys among `a`, `b`, `c` and the given entries at them is that three-entry map. */
  lemma ThreeEntries(ans: Answer, a: Vertex, ea: Entry, b: Vertex, eb: Entry, c: Vertex, ec: Entry)
    requires a != b && a != c && b != c
    requires forall v :: v in ans ==> v == a || v == b || v == c
    requires a in ans && ans[a] == ea && b in ans && ans[b] == eb && c in ans && ans[c] == ec
    ensures ans == map[a := ea, b := eb, c := ec]
  {
  }

  /** An entry map with keys among `a`, `b` and the given entries at them is that two-entry map. */
  lemma TwoEntries(ans: Answer, a: Vertex, ea: Entry, b: Vertex, eb: Entry)
    requires a != b
    requires forall v :: v in ans ==> v == a || v == b
    requires a in ans && ans[a] == ea && b in ans && ans[b] == eb
    ensures ans == map[a := ea, b := eb]
  {
  }

  /** Edges A->B (1), B->C (2), A->C (5), as three `add_edge` calls build them. */
  function Detour(): Graph
  {
    map[0 := map[1 := 1, 2 := 5], 1 := map[2 := 2], 2 := map[]]
  }

  lemma DetourBuilt()
    ensures WithEdge(WithEdge(WithEdge(map[], 0, 1, 1), 1, 2, 2), 0, 2, 5) == Detour()
  {
  }

  lemma DetourFacts()
    ensures Feasible(Detour(), 0, map[0 := 0, 1 := 1, 2 := 3])
    ensures IsRoute(Detour(), 0, 1, [0, 1]) && WalkWeight(Detour(), [0, 1]) == 1
    ensures IsRoute(Detour(), 0, 2, [0, 1, 2]) && WalkWeight(Detour(), [0, 1, 2]) == 3
    ensures forall q :: HasEdge(Detour(), q, 1) ==> q == 0
    ensures forall q :: HasEdge(Detour(), q, 2) && q != 1 ==> q == 0
    ensures !HasEdge(Detour(), 0, 0)
  {
    assert [0, 1, 2][..2] == [0, 1];
  }

  /** From A, C is reached through B at distance 3, not directly at distance 5. */
  lemma DetourResult(ans: Answer)
    requires IsShortestPathResult(Detour(), 0, ans)
    ensures ans == map[0 := StartMarker, 1 := Reached(0, 1), 2 := Reached(1, 3)]
  {
    var g, pot := Detour(), map[0 := 0, 1 := 1, 2 := 3];
    DetourFacts();
    EntryIs(g, 0, ans, pot, 1, [0, 1], 0, 1);
    EntryIs(g, 0, ans, pot, 2, [0, 1, 2], 1, 3);
    KeysWithin(g, 0, ans, pot);
    StartKeepsMarker(g, 0, ans);
    ThreeEntries(ans, 0, StartMarker, 1, Reached(0, 1), 2, Reached(1, 3));
  }

  /** Edge A->B (1) plus D->A (4): D leads into A's component but cannot be reached from A. */
  function Stranded(): Graph
  {
    map[0 := map[1 := 1], 1 := map[], 3 := map[0 := 4]]
  }

  lemma StrandedFacts()
    ensures Feasible(Stranded(), 0, map[0 := 0, 1 := 1, 3 := 0])
    ensures IsRoute(Stranded(), 0, 1, [0, 1]) && WalkWeight(Stranded(), [0, 1]) == 1
    ensures forall q :: HasEdge(Stranded(), q, 1) ==> q == 0
    ensures forall q :: !HasEdge(Stranded(), q, 3)
    ensures !HasEdge(Stranded(), 0, 0)
  {
  }

  /** From A, the vertex D is absent. */
  lemma StrandedResult(ans: Answer)
    requires IsShortestPathResult(Stranded(), 0, ans)
    ensures 3 !in ans
    ensures ans == map[0 := StartMarker, 1 := Reached(0, 1)]
  {
    var g, pot := Stranded(), map[0 := 0, 1 := 1, 3 := 0];
    StrandedFacts();
    EntryIs(g, 0, ans, pot, 1, [0, 1], 0, 1);
    NoIncomingEdgeAbsent(g, 0, ans, 3);
    KeysWithin(g, 0, ans, pot);
    StartKeepsMarker(g, 0, ans);
    TwoEntries(ans, 0, StartMarker, 1, Reached(0, 1));
  }

  /** A single self-loop A->A (10). */
  function Loop(): Graph
  {
    map[0 := map[0 := 10]]
  }

  lemma LoopFacts()
    ensures Feasible(Loop(), 0, map[0 := 0])
    ensures IsRoute(Loop(), 0, 0, [0, 0]) && WalkWeight(Loop(), [0, 0]) == 10
    ensures forall q :: HasEdge(Loop(), q, 0) ==> q == 0
  {
  }

  /**
   * From A, the seeding loop overwrites A's start marker with the self-loop,
   * and A's entry is the lightest cycle through it.
   */
  lemma LoopResult(ans: Answer)
    requires IsShortestPathResult(Loop(), 0, ans)
    ensures ans == map[0 := Reached(0, 10)]
  {
    var g := Loop();
    LoopFacts();
    var q :| IsRoute(g, 0, 0, q) && WalkWeight(g, q) == ans[0].dist;
    assert HasEdge(g, q[|q| - 2], 0);
    assert WalkWeight(g, q) == WalkWeight(g, q[..|q| - 1]) + 10;
    assert PredecessorOk(g, 0, ans, 0);
    KeysWithin(g, 0, ans, map[0 := 0]);
    assert ans.Keys == {0};
  }

  /** A start with no out-edges, whether or not it is a vertex of the graph. */
  lemma IsolatedStartResult(ans1: Answer, ans2: Answer)
    requires IsShortestPathResult(map[0 := map[]], 0, ans1)
    requires IsShortestPathResult(map[1 := map[0 := 3]], 7, ans2)
    ensures ans1 == map[0 := StartMarker]
    ensures ans2 == map[7 := StartMarker]
  {
    NoOutEdgesOnlyStart(map[0 := map[]], 0, ans1);
    NoOutEdgesOnlyStart(map[1 := map[0 := 3]], 7, ans2);
  }

  /** Edges A->B (10), A->C (1), C->B (1). */
  function TwoPaths(): Graph
  {
    map[0 := map[1 := 10, 2 := 1], 1 := map[], 2 := map[1 := 1]]
  }

  lemma TwoPathsFacts()
    ensures Feasible(TwoPaths(), 0, map[0 := 0, 1 := 2, 2 := 1])
    ensures IsRoute(TwoPaths(), 0, 2, [0, 2]) && WalkWeight(TwoPaths(), [0, 2]) == 1
    ensures IsRoute(TwoPaths(), 0, 1, [0, 2, 1]) && WalkWeight(TwoPaths(), [0, 2, 1]) == 2
    ensures forall q :: HasEdge(TwoPaths(), q, 2) ==> q == 0
    ensures forall q :: HasEdge(TwoPaths(), q, 1) && q != 2 ==> q == 0
    ensures !HasEdge(TwoPaths(), 0, 0)
  {
    assert [0, 2, 1][..2] == [0, 2];
  }

  /** From A, B is reached through C at distance 2 rather than directly at distance 10. */
  lemma TwoPathsResult(ans: Answer)
    requires IsShortestPathResult(TwoPaths(), 0, ans)
    ensures ans == map[0 := StartMarker, 1 := Reached(2, 2), 2 := Reached(0, 1)]
  {
    var g, pot := TwoPaths(), map[0 := 0, 1 := 2, 2 := 1];
    TwoPathsFacts();
    EntryIs(g, 0, ans, pot, 2, [0, 2], 0, 1);
    EntryIs(g, 0, ans, pot, 1, [0, 2, 1], 2, 2);
    KeysWithin(g, 0, ans, pot);
    StartKeepsMarker(g, 0, ans);
    ThreeEntries(ans, 0, StartMarker, 1, Reached(2, 2), 2, Reached(0, 1));
  }

  /** Edges A->B (1), B->C (0), C->B (0): a zero-weight cycle between B and C. */
  function ZeroCycle(): Graph
  {
    map[0 := map[1 := 1], 1 := map[2 := 0], 2 := map[1 := 0]]
  }

  lemma ZeroCycleFacts()
    ensures Feasible(ZeroCycle(), 0, map[0 := 0, 1 := 1, 2 := 1])
    ensures IsRoute(ZeroCycle(), 0, 1, [0, 1]) && WalkWeight(ZeroCycle(), [0, 1]) == 1
    ensures IsRoute(ZeroCycle(), 0, 2, [0, 1, 2]) && WalkWeight(ZeroCycle(), [0, 1, 2]) == 1
    ensures forall q :: HasEdge(ZeroCycle(), q, 1) ==> q == 0 || q == 2
    ensures forall q :: HasEdge(ZeroCycle(), q, 2) ==> q == 1
    ensures !HasEdge(ZeroCycle(), 0, 0)
  {
    assert [0, 1, 2][..2] == [0, 1];
  }

  /**
   * From A, B and C are both at distance 1, and C -> B would be as short as
   * A -> B; still B's predecessor is A, because the predecessors form a tree
   * rooted at A and C's predecessor is B.
   */
  lemma ZeroCycleResult(ans: Answer)
    requires IsShortestPathResult(ZeroCycle(), 0, ans)
    ensures ans == map[0 := StartMarker, 1 := Reached(0, 1), 2 := Reached(1, 1)]
  {
    ZeroCycleEntries(ans);
    ZeroCycleFacts();
    KeysWithin(ZeroCycle(), 0, ans, map[0 := 0, 1 := 1, 2 := 1]);
    StartKeepsMarker(ZeroCycle(), 0, ans);
    ThreeEntries(ans, 0, StartMarker, 1, Reached(0, 1), 2, Reached(1, 1));
  }

  /** C is reached through B at distance 1; B, at distance 1 too, cannot have C as predecessor. */
  lemma ZeroCycleEntries(ans: Answer)
    requires IsShortestPathResult(ZeroCycle(), 0, ans)
    ensures 1 in ans && ans[1] == Reached(0, 1)
    ensures 2 in ans && ans[2] == Reached(1, 1)
  {
    var g, pot := ZeroCycle(), map[0 := 0, 1 := 1, 2 := 1];
    ZeroCycleFacts();
    EntryIs(g, 0, ans, pot, 2, [0, 1, 2], 1, 1);
    var r :| IsRoute(g, 0, 1, r) && WalkWeight(g, r) == ans[1].dist;
    PotentialBound(g, 0, pot, 1, r);
    NoPredecessorCycle(g, 0, ans, 1, 2);
    assert PredecessorOk(g, 0, ans, 1);
  }
}
