/** The all-pairs router of router.h: a matrix relaxed in place, and routes read back from it. */
module Router {
  import opened Wrappers
  import opened Sequences
  import opened Graph
  import opened Walks
  import opened RouteTable
  import opened RouteProofs
  import opened RouteChains

  datatype RouteInfo = RouteInfo(weight: real, edges: seq<EdgeId>)

  datatype RouterError = NegativeWeight | NoSuchVertex

  /** What a route query must return, given the edges and the table. */
  ghost predicate IsRoute(edges: seq<Edge>, n: nat, t: Table, from: VertexId, to: VertexId,
                          r: Result<Option<RouteInfo>, RouterError>)
    requires Square(t, n)
  {
    if from >= n || to >= n then r == Failure(NoSuchVertex)
    else if t[from][to].None? then r == Success(None)
    else
      && r.Success? && r.value.Some?
      && r.value.value.weight == t[from][to].value.weight
      && Traces(edges, n, t, from, to, r.value.value.edges)
  }

  /** Whatever traces (from, at), followed by `rest`, traces (from, to). */
  ghost predicate Completes(edges: seq<Edge>, n: nat, t: Table, from: VertexId, at: VertexId, to: VertexId,
                            rest: seq<EdgeId>)
    requires Square(t, n)
  {
    forall p :: Traces(edges, n, t, from, at, p) ==> Traces(edges, n, t, from, to, p + rest)
  }

  lemma CompletesNothing(edges: seq<Edge>, n: nat, t: Table, from: VertexId, to: VertexId)
    requires Square(t, n)
    ensures Completes(edges, n, t, from, to, to, [])
  {
    assert forall p: seq<EdgeId> :: p + [] == p;
  }

  lemma CompletesMore(edges: seq<Edge>, n: nat, t: Table, from: VertexId, at: VertexId, to: VertexId,
                      back: seq<EdgeId>)
    requires Square(t, n) && from < n && at < n && t[from][at].Some? && t[from][at].value.prev.Some?
    requires t[from][at].value.prev.value < |edges| && Completes(edges, n, t, from, at, to, Reversed(back))
    ensures var e := t[from][at].value.prev.value;
      Completes(edges, n, t, from, edges[e].from, to, Reversed(back + [e]))
  {
    var e := t[from][at].value.prev.value;
    forall p | Traces(edges, n, t, from, edges[e].from, p)
      ensures Traces(edges, n, t, from, to, p + Reversed(back + [e]))
    {
      assert (p + [e])[..|p|] == p;
      assert Reversed(back + [e]) == [e] + Reversed(back);
      ConcatAssociates(p, [e], Reversed(back));
    }
  }

  class Router {
    const graph: DirectedWeightedGraph
    const routes: array2<Option<Entry>>

    /** The matrix as a value. */
    ghost function Rows(): (t: Table)
      reads routes
      ensures |t| == routes.Length0 && forall i :: 0 <= i < |t| ==> |t[i]| == routes.Length1
      ensures Holds(t)
    {
      seq(routes.Length0, i reads routes requires 0 <= i < routes.Length0 =>
        seq(routes.Length1, j reads routes requires 0 <= j < routes.Length1 => routes[i, j]))
    }

    ghost predicate Holds(t: Table)
      reads routes
    {
      && |t| == routes.Length0 && (forall i :: 0 <= i < |t| ==> |t[i]| == routes.Length1)
      && forall i, j :: 0 <= i < routes.Length0 && 0 <= j < routes.Length1 ==> routes[i, j] == t[i][j]
    }

    lemma HoldsRows(t: Table)
      requires Holds(t)
      ensures Rows() == t
    {
      var rows := Rows();
      forall i | 0 <= i < |t| ensures rows[i] == t[i] {
        assert forall j :: 0 <= j < |t[i]| ==> rows[i][j] == routes[i, j];
      }
    }

    ghost predicate Sized()
      reads graph
    {
      routes.Length0 == routes.Length1 == |graph.incidenceLists|
    }

    /** The graph is one that AddEdge built without failure, and edges end at vertices. */
    ghost predicate GraphReady()
      reads graph
    {
      graph.Valid() && Within(graph.edges, |graph.incidenceLists|)
    }

    /** The state in which route queries may be put: every predecessor chain of the table ends. */
    ghost predicate Ready()
      reads graph, routes
    {
      Sized() && Traceable(graph.edges, |graph.incidenceLists|, Rows())
    }

    constructor Blank(graph: DirectedWeightedGraph)
      ensures this.graph == graph && Sized() && fresh(routes)
      ensures forall i, j :: 0 <= i < routes.Length0 && 0 <= j < routes.Length1 ==> routes[i, j] == None
    {
      this.graph := graph;
      var n := graph.GetVertexCount();
      routes := new Option<Entry>[n, n]((i, j) => None);
    }

    /** Restores a router from a saved table. */
    constructor FromData(graph: DirectedWeightedGraph, data: Table)
      requires Square(data, |graph.incidenceLists|)
      ensures this.graph == graph && Sized() && fresh(routes)
      ensures Rows() == data
    {
      this.graph := graph;
      var n := graph.GetVertexCount();
      routes := new Option<Entry>[n, n]((i, j) requires 0 <= i < n && 0 <= j < n && Square(data, n) => data[i][j]);
      new;
      HoldsRows(data);
    }

    /** Builds the router of a graph: fails exactly when some edge is negative, and otherwise
        holds the table of all vertices relaxed. */
    static method Create(graph: DirectedWeightedGraph) returns (r: Result<Router, RouterError>)
      requires graph.Valid() && Within(graph.edges, |graph.incidenceLists|)
      ensures r.Failure? <==> !NonNegative(graph.edges, |graph.incidenceLists|)
      ensures r.Failure? ==> r.error == NegativeWeight
      ensures r.Success? ==> r.value.graph == graph && fresh(r.value) && fresh(r.value.routes) && r.value.Ready()
      ensures r.Success? ==> r.value.Rows() == Tables(graph.edges, |graph.incidenceLists|, |graph.incidenceLists|)
    {
      var router := new Router.Blank(graph);
      var ok := router.InitializeRoutesInternalData();
      if !ok {
        return Failure(NegativeWeight);
      }
      ghost var edges := graph.edges;
      var vertexCount := graph.GetVertexCount();
      for vertexThrough := 0 to vertexCount
        invariant router.Rows() == Tables(edges, vertexCount, vertexThrough)
      {
        TablesLeast(edges, vertexCount, vertexThrough);
        router.RelaxRoutesInternalDataThroughVertex(vertexThrough);
      }
      FinalTable(edges, vertexCount);
      return Success(router);
    }

    method InitializeRoutesInternalData() returns (ok: bool)
      requires Sized() && GraphReady()
      requires forall i, j :: 0 <= i < routes.Length0 && 0 <= j < routes.Length1 ==> routes[i, j] == None
      modifies routes
      ensures ok <==> NonNegative(graph.edges, |graph.incidenceLists|)
      ensures ok ==> Rows() == Init(graph.edges, |graph.incidenceLists|)
    {
      ghost var edges := graph.edges;
      var n := graph.GetVertexCount();
      for vertex := 0 to n
        invariant forall id :: 0 <= id < |edges| && edges[id].from < vertex ==> edges[id].weight >= 0.0
        invariant forall i, j :: 0 <= i < vertex && 0 <= j < n ==> routes[i, j] == InitAt(edges, n, i)[j]
        invariant forall i, j :: vertex <= i < n && 0 <= j < n ==> routes[i, j] == None
      {
        ok := InitializeRow(vertex);
        if !ok {
          return;
        }
      }
      HoldsRows(Init(edges, n));
      return true;
    }

    /** The body of the loop over the vertices. */
    method InitializeRow(vertex: VertexId) returns (ok: bool)
      requires Sized() && GraphReady() && vertex < routes.Length0
      requires forall j :: 0 <= j < routes.Length1 ==> routes[vertex, j] == None
      modifies routes
      ensures ok <==> forall id :: 0 <= id < |graph.edges| && graph.edges[id].from == vertex ==>
                        graph.edges[id].weight >= 0.0
      ensures ok ==> forall j :: 0 <= j < routes.Length1 ==>
                routes[vertex, j] == InitAt(graph.edges, routes.Length0, vertex)[j]
      ensures forall i, j :: 0 <= i < routes.Length0 && i != vertex && 0 <= j < routes.Length1 ==>
                routes[i, j] == old(routes[i, j])
    {
      ghost var edges := graph.edges;
      ghost var n := routes.Length0;
      IncidencePartition(edges, vertex);
      ghost var ids := IdsFrom(edges, vertex);
      ghost var row := InitRow(edges, n, vertex, []);
      routes[vertex, vertex] := Some(ZERO);
      var list := graph.incidenceLists[vertex];
      for m := 0 to |list|
        invariant row == InitRow(edges, n, vertex, ids[..m])
        invariant forall l :: 0 <= l < m ==> edges[ids[l]].weight >= 0.0
        invariant forall j :: 0 <= j < n ==> routes[vertex, j] == row[j]
        invariant forall i, j :: 0 <= i < n && i != vertex && 0 <= j < n ==> routes[i, j] == old(routes[i, j])
      {
        var edge := graph.edges[list[m]];
        if edge.weight < 0.0 {
          return false;
        }
        assert ids[..m + 1][..m] == ids[..m];
        row := Offer(row, edges, ids[m]);
        var known := routes[vertex, edge.to];
        if known.None? || known.value.weight > edge.weight {
          routes[vertex, edge.to] := Some(Entry(edge.weight, Some(list[m])));
        }
      }
      assert ids[..|ids|] == ids;
      forall id | 0 <= id < |edges| && edges[id].from == vertex ensures edges[id].weight >= 0.0 {
        assert id in ids;
      }
      return true;
    }

    method RelaxRoute(vertexFrom: VertexId, vertexTo: VertexId, routeFrom: Entry, routeTo: Entry)
      requires vertexFrom < routes.Length0 && vertexTo < routes.Length1
      modifies routes
      ensures routes[vertexFrom, vertexTo] == Better(old(routes[vertexFrom, vertexTo]), routeFrom, routeTo)
      ensures forall i, j :: 0 <= i < routes.Length0 && 0 <= j < routes.Length1 && (i, j) != (vertexFrom, vertexTo)
                             ==> routes[i, j] == old(routes[i, j])
    {
      var relaxing := routes[vertexFrom, vertexTo];
      var candidate := routeFrom.weight + routeTo.weight;
      if relaxing.None? || candidate < relaxing.value.weight {
        routes[vertexFrom, vertexTo] :=
          Some(Entry(candidate, if routeTo.prev.Some? then routeTo.prev else routeFrom.prev));
      }
    }

    /** One pass in place equals relaxing all entries at once: the row and the column it reads stand still. */
    method RelaxRoutesInternalDataThroughVertex(vertexThrough: VertexId)
      requires Sized() && vertexThrough < routes.Length0
      requires ZeroDiagonal(Rows(), routes.Length0)
      modifies routes
      ensures Rows() == Pass(old(Rows()), routes.Length0, vertexThrough)
    {
      var n := graph.GetVertexCount();
      ghost var t := Rows();
      for vertexFrom := 0 to n
        invariant forall i, j :: 0 <= i < vertexFrom && 0 <= j < n ==>
                    routes[i, j] == Relaxed(t, n, vertexThrough, i, j)
        invariant forall i, j :: vertexFrom <= i < n && 0 <= j < n ==> routes[i, j] == t[i][j]
      {
        if routes[vertexFrom, vertexThrough].Some? {
          for vertexTo := 0 to n
            invariant forall i, j :: 0 <= i < vertexFrom && 0 <= j < n ==>
                        routes[i, j] == Relaxed(t, n, vertexThrough, i, j)
            invariant forall j :: 0 <= j < vertexTo ==>
                        routes[vertexFrom, j] == Relaxed(t, n, vertexThrough, vertexFrom, j)
            invariant forall j :: vertexTo <= j < n ==> routes[vertexFrom, j] == t[vertexFrom][j]
            invariant forall i, j :: vertexFrom < i < n && 0 <= j < n ==> routes[i, j] == t[i][j]
          {
            if routes[vertexThrough, vertexTo].Some? {
              RelaxRoute(vertexFrom, vertexTo,
                         routes[vertexFrom, vertexThrough].value, routes[vertexThrough, vertexTo].value);
            }
          }
        }
      }
      HoldsRows(Pass(t, n, vertexThrough));
    }

    /** Follows the last edges back along row `from`; ends because the chain's ranks fall. */
    method BuildRoute(from: VertexId, to: VertexId) returns (r: Result<Option<RouteInfo>, RouterError>)
      requires Ready()
      ensures IsRoute(graph.edges, |graph.incidenceLists|, Rows(), from, to, r)
    {
      var n := graph.GetVertexCount();
      if from >= n || to >= n {
        return Failure(NoSuchVertex);
      }
      if routes[from, to].None? {
        return Success(None);
      }
      ghost var t := Rows();
      ghost var rank: Rank :| Descends(graph.edges, n, t, rank);
      var weight := routes[from, to].value.weight;
      var edges := [];
      var edgeId := routes[from, to].value.prev;
      ghost var at := to;
      CompletesNothing(graph.edges, n, t, from, to);
      while edgeId.Some?
        invariant at < n && t[from][at].Some? && t[from][at].value.prev == edgeId
        invariant Completes(graph.edges, n, t, from, at, to, Reversed(edges))
        decreases rank(from, at)
      {
        assert HasPrev(t, n, from, at, edgeId.value);
        CompletesMore(graph.edges, n, t, from, at, to, edges);
        edges := edges + [edgeId.value];
        at := graph.edges[edgeId.value].from;
        edgeId := routes[from, graph.edges[edgeId.value].from].value.prev;
      }
      assert Traces(graph.edges, n, t, from, at, []);
      assert [] + Reversed(edges) == Reversed(edges);
      return Success(Some(RouteInfo(weight, Reversed(edges))));
    }
  }
}
