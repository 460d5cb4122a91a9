/** The directed weighted graph of graph.h: an edge vector and one incidence list per vertex. */
module Graph {
  import opened Wrappers

  type VertexId = nat
  type EdgeId = nat

  datatype Edge = Edge(from: VertexId, to: VertexId, weight: real)

  datatype Error = OutOfRange

  /** The ids of the edges leaving v, in the order in which they were added. */
  function IdsFrom(edges: seq<Edge>, v: VertexId): seq<EdgeId> {
    if edges == [] then []
    else
      var last := |edges| - 1;
      IdsFrom(edges[..last], v) + (if edges[last].from == v then [last] else [])
  }

  /** The incidence list of v holds exactly the edges that leave v, each once, in increasing order. */
  lemma {:induction false} IncidencePartition(edges: seq<Edge>, v: VertexId)
    ensures forall id: EdgeId :: id in IdsFrom(edges, v) <==> id < |edges| && edges[id].from == v
    ensures forall m :: 0 <= m < |IdsFrom(edges, v)| ==>
              IdsFrom(edges, v)[m] < |edges| && edges[IdsFrom(edges, v)[m]].from == v
    ensures forall a, b :: 0 <= a < b < |IdsFrom(edges, v)| ==> IdsFrom(edges, v)[a] < IdsFrom(edges, v)[b]
  {
    if edges != [] {
      var init := edges[..|edges| - 1];
      IncidencePartition(init, v);
    }
  }

  class DirectedWeightedGraph {
    var edges: seq<Edge>
    var incidenceLists: seq<seq<EdgeId>>

    ghost predicate Valid()
      reads this
    {
      forall v :: 0 <= v < |incidenceLists| ==> incidenceLists[v] == IdsFrom(edges, v)
    }

    constructor (vertexCount: nat)
      ensures Valid()
      ensures edges == [] && |incidenceLists| == vertexCount
    {
      edges := [];
      incidenceLists := seq(vertexCount, _ => []);
    }

    constructor FromParts(edges: seq<Edge>, incidenceLists: seq<seq<EdgeId>>)
      ensures this.edges == edges && this.incidenceLists == incidenceLists
    {
      this.edges := edges;
      this.incidenceLists := incidenceLists;
    }

    /** The edge is stored before the vertex is looked up, so it stays behind even when the look-up throws. */
    method AddEdge(edge: Edge) returns (r: Result<EdgeId, Error>)
      requires Valid()
      modifies this
      ensures Valid()
      ensures edges == old(edges) + [edge]
      ensures |incidenceLists| == |old(incidenceLists)|
      ensures r == if edge.from < |incidenceLists| then Success(|old(edges)|) else Failure(OutOfRange)
    {
      edges := edges + [edge];
      assert edges[..|edges| - 1] == old(edges);
      var id := |edges| - 1;
      if edge.from >= |incidenceLists| {
        return Failure(OutOfRange);
      }
      incidenceLists := incidenceLists[edge.from := incidenceLists[edge.from] + [id]];
      return Success(id);
    }

    function GetVertexCount(): nat
      reads this
    {
      |incidenceLists|
    }

    function GetEdgeCount(): nat
      reads this
    {
      |edges|
    }
  }
}
