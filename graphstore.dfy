/**
 * The object the host holds (`GraphWrapper`): a graph updated in place by
 * `AddEdge`, and the shortest-path query over it.
 */
module GraphStore {
  import opened Graphs
  import opened Results
  import Solver

  class GraphWrapper {
    var graph: Graph

    /**
     * Every edge target is a vertex of the graph. This is `add_edge`'s own
     * promise that both endpoints become keys: `new` establishes it and
     * `AddEdge` keeps it. The query does not depend on it, since a target
     * without a key is treated as having no out-edges.
     */
    ghost predicate Valid()
      reads this
    {
      Closed(graph)
    }

    /** `GraphWrapper::new`: an empty graph. */
    constructor()
      ensures graph == map[] && Valid()
    {
      graph := map[];
    }

    /**
     * `add_edge`: makes sure both endpoints are vertices, then sets the weight
     * of `from -> to`, replacing an earlier one; every other edge stays.
     */
    method AddEdge(from: Vertex, to: Vertex, weight: Weight)
      modifies this
      ensures graph == WithEdge(old(graph), from, to, weight)
      ensures old(Valid()) ==> Valid()
    {
      if from !in graph {
        graph := graph[from := map[]];
      }
      if to !in graph {
        graph := graph[to := map[]];
      }
      var fromEdges: map<Vertex, Weight> := graph[from];
      graph := graph[from := fromEdges[to := weight]];
      if old(Valid()) {
        WithEdgeKeepsClosed(old(graph), from, to, weight);
      }
    }

    /**
     * `dijkstra`: the shortest-path map from `start`, flattened into records
     * in ascending vertex order; the records read back into a map that meets
     * the shortest-path contract, and are that map's flattening.
     */
    method Dijkstra(start: Vertex) returns (result: seq<DijkstraResult>)
      ensures IsShortestPathResult(graph, start, ToMap(result))
      ensures result == Flatten(ToMap(result))
      ensures forall i, j :: 0 <= i < j < |result| ==> result[i].vertex < result[j].vertex
    {
      var ans := Solver.ShortestPaths(graph, start);
      result := Flatten(ans);
      FlattenRoundTrip(ans);
      FlattenAscending(ans);
    }
  }
}
