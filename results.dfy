/**
 * What the solver returns: the map `ans` from each vertex to its entry, the
 * vertex-ascending record sequence it is flattened into, and the properties
 * a correct single-source shortest-path map has.
 */
module Results {
  import opened Graphs
  import opened Ordered

  datatype Option<T> = None | Some(value: T)

  /**
   * A vertex's entry in `ans`: `None` in the source for the start marker,
   * `Some((pred, dist))` for a vertex reached through `pred` at distance `dist`.
   */
  datatype Entry = StartMarker | Reached(pred: Vertex, dist: Weight)

  type Answer = map<Vertex, Entry>

  /** The serialised form of one entry (`PredecessorInfo` and `DijkstraResult`). */
  datatype PredecessorInfo = PredecessorInfo(predecessor: Vertex, distance: Weight)
  datatype DijkstraResult = DijkstraResult(vertex: Vertex, predecessor: Option<PredecessorInfo>)

  function ToInfo(e: Entry): Option<PredecessorInfo>
  {
    match e
    case StartMarker => None
    case Reached(p, d) => Some(PredecessorInfo(p, d))
  }

  function FromInfo(o: Option<PredecessorInfo>): Entry
  {
    match o
    case None => StartMarker
    case Some(info) => Reached(info.predecessor, info.distance)
  }

  /**
   * The record sequence of `ans`: one record per key, in ascending vertex
   * order (the order of a `BTreeMap` walk), carrying that key's entry.
   */
  function Flatten(ans: Answer): (rs: seq<DijkstraResult>)
    ensures |rs| == |ans.Keys|
  {
    Records(ans, SortedKeys(ans.Keys))
  }

  /** The records come in strictly ascending vertex order, so no vertex is listed twice. */
  lemma FlattenAscending(ans: Answer)
    ensures var rs := Flatten(ans);
      forall i, j :: 0 <= i < j < |rs| ==> rs[i].vertex < rs[j].vertex
  {
    var keys := SortedKeys(ans.Keys);
    var rs := Flatten(ans);
    assert rs == Records(ans, keys);
    forall i, j | 0 <= i < j < |rs| ensures rs[i].vertex < rs[j].vertex {
      assert rs[i].vertex == keys[i] && rs[j].vertex == keys[j];
    }
  }

  /** Each record names a key of `ans` and carries that key's entry. */
  lemma FlattenEntries(ans: Answer)
    ensures var rs := Flatten(ans);
      forall i :: 0 <= i < |rs| ==> rs[i].vertex in ans && rs[i].predecessor == ToInfo(ans[rs[i].vertex])
  {
    var keys := SortedKeys(ans.Keys);
    var rs := Flatten(ans);
    assert rs == Records(ans, keys);
    forall i | 0 <= i < |rs| ensures rs[i].vertex in ans && rs[i].predecessor == ToInfo(ans[rs[i].vertex]) {
      assert rs[i].vertex == keys[i] && keys[i] in ans.Keys;
    }
  }

  /** Every key of `ans` has a record. */
  lemma FlattenComplete(ans: Answer)
    ensures var rs := Flatten(ans);
      forall v :: v in ans ==> exists i :: 0 <= i < |rs| && rs[i].vertex == v
  {
    forall v | v in ans ensures exists i :: 0 <= i < |Flatten(ans)| && Flatten(ans)[i].vertex == v {
      FlattenHas(ans, v);
    }
  }

  lemma FlattenHas(ans: Answer, v: Vertex)
    requires v in ans
    ensures exists i :: 0 <= i < |Flatten(ans)| && Flatten(ans)[i].vertex == v
  {
    var keys := SortedKeys(ans.Keys);
    assert v in keys by {
      assert v in ans.Keys;
    }
    var i :| 0 <= i < |keys| && keys[i] == v;
    assert Flatten(ans)[i].vertex == v by {
      assert Flatten(ans) == Records(ans, keys);
    }
  }

  /** The record of each of `keys`, in the same order (the `map` over the map's entries). */
  function Records(ans: Answer, keys: seq<Vertex>): (rs: seq<DijkstraResult>)
    requires forall i :: 0 <= i < |keys| ==> keys[i] in ans
    ensures |rs| == |keys|
    ensures forall i :: 0 <= i < |rs| ==> rs[i] == DijkstraResult(keys[i], ToInfo(ans[keys[i]]))
    decreases |keys|
  {
    if keys == [] then [] else [DijkstraResult(keys[0], ToInfo(ans[keys[0]]))] + Records(ans, keys[1..])
  }

  /** Reads a record sequence back into an entry map. */
  function ToMap(rs: seq<DijkstraResult>): Answer
    decreases |rs|
  {
    if rs == [] then map[] else ToMap(rs[1..])[rs[0].vertex := FromInfo(rs[0].predecessor)]
  }

  /** Reading back the records of `keys` gives `ans` restricted to those keys. */
  lemma {:induction false} ReadBackRecords(ans: Answer, keys: seq<Vertex>)
    requires forall i :: 0 <= i < |keys| ==> keys[i] in ans
    ensures forall k :: k in ToMap(Records(ans, keys)) <==> k in keys
    ensures forall k :: k in keys ==> ToMap(Records(ans, keys))[k] == ans[k]
    decreases |keys|
  {
    if keys != [] {
      var tail := keys[1..];
      ReadBackRecords(ans, tail);
      assert Records(ans, keys)[1..] == Records(ans, tail);
      assert FromInfo(ToInfo(ans[keys[0]])) == ans[keys[0]];
      assert forall k :: k in keys <==> k == keys[0] || k in tail;
    }
  }

  /** Flattening loses nothing: the records read back into the very same map. */
  lemma FlattenRoundTrip(ans: Answer)
    ensures ToMap(Flatten(ans)) == ans
  {
    ReadBackHasKeys(ans);
    ReadBackNoOtherKeys(ans);
    SameMap(ToMap(Flatten(ans)), ans);
  }

  lemma SameMap(a: Answer, b: Answer)
    requires forall k :: k in b ==> k in a && a[k] == b[k]
    requires forall k :: k in a ==> k in b
    ensures a == b
  {
  }

  lemma ReadBackHasKeys(ans: Answer)
    ensures var back := ToMap(Flatten(ans)); forall k :: k in ans ==> k in back && back[k] == ans[k]
  {
    var keys := SortedKeys(ans.Keys);
    assert Flatten(ans) == Records(ans, keys);
    ReadBackRecords(ans, keys);
    forall k | k in ans ensures k in keys {
      assert k in ans.Keys;
    }
  }

  lemma ReadBackNoOtherKeys(ans: Answer)
    ensures var back := ToMap(Flatten(ans)); forall k :: k in back ==> k in ans
  {
    var keys := SortedKeys(ans.Keys);
    assert Flatten(ans) == Records(ans, keys);
    ReadBackRecords(ans, keys);
    forall k | k in keys ensures k in ans {
      var i :| 0 <= i < |keys| && keys[i] == k;
      assert keys[i] in ans.Keys;
    }
  }

  /** The distance a successor of `p` is measured from: 0 for the start, else `p`'s recorded distance. */
  function Base(ans: Answer, s: Vertex, p: Vertex): Weight
  {
    if p == s || p !in ans then 0
    else match ans[p]
      case StartMarker => 0
      case Reached(_, d) => d
  }

  /**
   * `v`'s entry names a recorded predecessor joined to `v` by an edge, and
   * its distance is the predecessor's (0 for the start) plus that edge's weight.
   */
  ghost predicate PredecessorOk(g: Graph, s: Vertex, ans: Answer, v: Vertex)
    requires v in ans && ans[v].Reached?
  {
    var p := ans[v].pred;
    p in ans && HasEdge(g, p, v) && ans[v].dist == Base(ans, s, p) + g[p][v]
  }

  /**
   * `rank` orders the reached vertices so that every predecessor other than
   * the start ranks below the vertex it leads to: following predecessors back
   * from any vertex ends at the start and never runs into a cycle.
   */
  ghost predicate RankedBy(s: Vertex, ans: Answer, rank: map<Vertex, nat>)
  {
    forall v :: v in ans && v != s && ans[v].Reached? && ans[v].pred != s ==>
      v in rank && ans[v].pred in rank && rank[ans[v].pred] < rank[v]
  }

  /**
   * What the solver's map holds for start vertex `s`: the start, plus exactly
   * the vertices reachable from it; the start marker on `s` unless an edge
   * `s -> s` displaced it; and for every other entry the weight of a
   * lightest route of one or more edges, with a predecessor consistent with
   * it; the predecessors form a tree rooted at the start.
   */
  ghost predicate IsShortestPathResult(g: Graph, s: Vertex, ans: Answer)
  {
    && s in ans
    && (ans[s].StartMarker? <==> !HasEdge(g, s, s))
    && (forall v :: v in ans <==> v == s || Reachable(g, s, v))
    && (forall v :: v in ans && v != s ==> ans[v].Reached?)
    && (forall v :: v in ans && ans[v].Reached? ==> IsShortest(g, s, v, ans[v].dist))
    && (forall v :: v in ans && ans[v].Reached? ==> PredecessorOk(g, s, ans, v))
    && (exists rank :: RankedBy(s, ans, rank))
  }

  /** Each vertex of `q` after the first is recorded with the vertex before it as predecessor. */
  ghost predicate IsPredecessorChain(ans: Answer, q: seq<Vertex>)
  {
    forall i :: 0 < i < |q| ==> q[i] in ans && ans[q[i]].Reached? && ans[q[i]].pred == q[i - 1]
  }

  /**
   * Following the recorded predecessors back from any entry other than the
   * start reaches the start, along a route whose weight is the entry's distance.
   */
  lemma PredecessorRoute(g: Graph, s: Vertex, ans: Answer, v: Vertex)
    requires IsShortestPathResult(g, s, ans)
    requires v in ans && v != s
    ensures exists q :: IsRoute(g, s, v, q) && WalkWeight(g, q) == ans[v].dist && IsPredecessorChain(ans, q)
  {
    var rank :| RankedBy(s, ans, rank);
    ChainBack(g, s, ans, rank, v);
  }

  lemma {:induction false} ChainBack(g: Graph, s: Vertex, ans: Answer, rank: map<Vertex, nat>, v: Vertex)
    requires RankedBy(s, ans, rank)
    requires forall x :: x in ans && x != s ==> ans[x].Reached?
    requires forall x :: x in ans && ans[x].Reached? ==> PredecessorOk(g, s, ans, x)
    requires v in ans && v != s
    ensures exists q :: IsRoute(g, s, v, q) && WalkWeight(g, q) == ans[v].dist && IsPredecessorChain(ans, q)
    decreases if v in rank then rank[v] else 0
  {
    assert PredecessorOk(g, s, ans, v);
    var p := ans[v].pred;
    if p == s {
      var q := [s, v];
      assert WalkWeight(g, q) == WalkWeight(g, q[..1]) + g[s][v];
      assert IsRoute(g, s, v, q) && IsPredecessorChain(ans, q);
    } else {
      ChainBack(g, s, ans, rank, p);
      var q0 :| IsRoute(g, s, p, q0) && WalkWeight(g, q0) == ans[p].dist && IsPredecessorChain(ans, q0);
      ExtendRoute(g, s, p, q0, v);
      var q := q0 + [v];
      forall i | 0 < i < |q| ensures q[i] in ans && ans[q[i]].Reached? && ans[q[i]].pred == q[i - 1] {
        if i < |q0| {
          assert q[i] == q0[i] && q[i - 1] == q0[i - 1];
        }
      }
      assert IsPredecessorChain(ans, q);
    }
  }

  /** Two vertices other than the start are never each other's predecessor. */
  lemma NoPredecessorCycle(g: Graph, s: Vertex, ans: Answer, a: Vertex, b: Vertex)
    requires IsShortestPathResult(g, s, ans)
    requires a != s && b != s && a in ans && b in ans && ans[b].pred == a
    ensures ans[a].pred != b
  {
    var rank :| RankedBy(s, ans, rank);
    assert rank[a] < rank[b];
  }

  /** Only the start and targets of edges can have an entry. */
  lemma OnlyTargetsReached(g: Graph, s: Vertex, ans: Answer)
    requires IsShortestPathResult(g, s, ans)
    ensures forall v :: v in ans ==> v == s || exists u :: HasEdge(g, u, v)
  {
    forall v | v in ans && v != s ensures exists u :: HasEdge(g, u, v) {
      assert PredecessorOk(g, s, ans, v);
    }
  }

  /** A start vertex with no out-edges yields exactly the start marker. */
  lemma NoOutEdgesOnlyStart(g: Graph, s: Vertex, ans: Answer)
    requires IsShortestPathResult(g, s, ans)
    requires OutEdges(g, s) == map[]
    ensures ans == map[s := StartMarker]
  {
    forall v ensures v in ans <==> v == s {
      forall p ensures !IsRoute(g, s, v, p) {
        if |p| >= 2 && p[0] == s {
          assert !HasEdge(g, p[0], p[1]);
        }
      }
    }
    assert ans.Keys == {s};
    assert !HasEdge(g, s, s);
  }

  /** A vertex other than the start that no edge leads into is absent. */
  lemma NoIncomingEdgeAbsent(g: Graph, s: Vertex, ans: Answer, v: Vertex)
    requires IsShortestPathResult(g, s, ans)
    requires v != s && forall u :: !HasEdge(g, u, v)
    ensures v !in ans
  {
    forall p ensures !IsRoute(g, s, v, p) {
      if |p| >= 2 && p[|p| - 1] == v {
        assert !HasEdge(g, p[|p| - 2], p[|p| - 1]);
      }
    }
  }

  /**
   * Two shortest-path maps of the same graph and start agree on their keys,
   * on where the start marker is and on every distance; they can differ only
   * in which of several equally short predecessors they name.
   */
  lemma ResultsAgree(g: Graph, s: Vertex, a1: Answer, a2: Answer)
    requires IsShortestPathResult(g, s, a1) && IsShortestPathResult(g, s, a2)
    ensures a1.Keys == a2.Keys
    ensures forall v :: v in a1 ==> (a1[v].StartMarker? <==> a2[v].StartMarker?)
    ensures forall v :: v in a1 && a1[v].Reached? ==> a2[v].Reached? && a1[v].dist == a2[v].dist
  {
    forall v | v in a1 && a1[v].Reached?
      ensures a2[v].Reached? && a1[v].dist == a2[v].dist
    {
      assert v in a2;
      assert a2[v].Reached?;
      var p1 :| IsRoute(g, s, v, p1) && WalkWeight(g, p1) == a1[v].dist;
      var p2 :| IsRoute(g, s, v, p2) && WalkWeight(g, p2) == a2[v].dist;
      assert a2[v].dist <= WalkWeight(g, p1);
      assert a1[v].dist <= WalkWeight(g, p2);
    }
  }
}
