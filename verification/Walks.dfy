/** Walks of a graph, given by edge ids, independent of any routing table. */
module Walks {
  import opened Graph

  /** p is a walk from i to j: consecutive edges meet, and an empty walk stays where it is. */
  predicate IsWalk(edges: seq<Edge>, i: VertexId, j: VertexId, p: seq<EdgeId>)
    decreases |p|
  {
    if p == [] then i == j
    else
      var last := p[|p| - 1];
      last < |edges| && edges[last].to == j && IsWalk(edges, i, edges[last].from, p[..|p| - 1])
  }

  predicate Known(edges: seq<Edge>, p: seq<EdgeId>) {
    forall m :: 0 <= m < |p| ==> p[m] < |edges|
  }

  function Weight(edges: seq<Edge>, p: seq<EdgeId>): real
    requires Known(edges, p)
  {
    if p == [] then 0.0
    else Weight(edges, p[..|p| - 1]) + edges[p[|p| - 1]].weight
  }

  /** Every vertex strictly inside the walk is below k. */
  predicate Inner(edges: seq<Edge>, p: seq<EdgeId>, k: nat)
    requires Known(edges, p)
  {
    forall m :: 1 <= m < |p| ==> edges[p[m]].from < k
  }

  /** The edges that leave vertices have no negative weight. Edges left behind by a failed AddEdge do not matter. */
  predicate NonNegative(edges: seq<Edge>, n: nat) {
    forall id :: 0 <= id < |edges| && edges[id].from < n ==> edges[id].weight >= 0.0
  }

  /** The edges that leave vertices lead to vertices. */
  predicate Within(edges: seq<Edge>, n: nat) {
    forall id :: 0 <= id < |edges| && edges[id].from < n ==> edges[id].to < n
  }

  lemma {:induction false} WalkEnds(edges: seq<Edge>, i: VertexId, j: VertexId, p: seq<EdgeId>)
    requires IsWalk(edges, i, j, p)
    ensures Known(edges, p)
    ensures p != [] ==> edges[p[0]].from == i && edges[p[|p| - 1]].to == j
    decreases |p|
  {
    if p != [] {
      WalkEnds(edges, i, edges[p[|p| - 1]].from, p[..|p| - 1]);
      assert p == p[..|p| - 1] + [p[|p| - 1]];
    }
  }

  /** Two walks that meet make one, and its weight is the sum of theirs. */
  lemma {:induction false} Concat(edges: seq<Edge>, i: VertexId, k: VertexId, j: VertexId,
                                  p: seq<EdgeId>, q: seq<EdgeId>)
    requires IsWalk(edges, i, k, p) && IsWalk(edges, k, j, q)
    ensures IsWalk(edges, i, j, p + q)
    ensures Known(edges, p) && Known(edges, q) && Known(edges, p + q)
    ensures Weight(edges, p + q) == Weight(edges, p) + Weight(edges, q)
    decreases |q|
  {
    WalkEnds(edges, i, k, p);
    WalkEnds(edges, k, j, q);
    if q == [] {
      assert p + q == p;
    } else {
      var init := q[..|q| - 1];
      Concat(edges, i, k, edges[q[|q| - 1]].from, p, init);
      assert (p + q)[..|p + q| - 1] == p + init;
    }
  }

  /** A walk can be cut before any of its edges. */
  lemma {:induction false} Split(edges: seq<Edge>, i: VertexId, j: VertexId, p: seq<EdgeId>, m: nat)
    requires IsWalk(edges, i, j, p) && m < |p|
    ensures p[m] < |edges|
    ensures IsWalk(edges, i, edges[p[m]].from, p[..m])
    ensures IsWalk(edges, edges[p[m]].from, j, p[m..])
    decreases |p|
  {
    var last := |p| - 1;
    if m == last {
      assert p[m..] == [p[last]];
      assert p[m..][..0] == [];
    } else {
      Split(edges, i, edges[p[last]].from, p[..last], m);
      assert p[..last][..m] == p[..m];
      assert p[m..][..|p[m..]| - 1] == p[..last][m..];
    }
  }

  /** A walk that starts at a vertex stays among the vertices, so it uses no edge left behind. */
  lemma {:induction false} WalkStays(edges: seq<Edge>, n: nat, i: VertexId, j: VertexId, p: seq<EdgeId>)
    requires Within(edges, n) && i < n && IsWalk(edges, i, j, p)
    ensures Known(edges, p) && j < n && forall m :: 0 <= m < |p| ==> edges[p[m]].from < n
    decreases |p|
  {
    if p != [] {
      var last := |p| - 1;
      WalkStays(edges, n, i, edges[p[last]].from, p[..last]);
      assert p == p[..last] + [p[last]];
    }
  }

  lemma {:induction false} WeightNonNegative(edges: seq<Edge>, n: nat, i: VertexId, j: VertexId, p: seq<EdgeId>)
    requires Within(edges, n) && NonNegative(edges, n) && i < n && IsWalk(edges, i, j, p) && Known(edges, p)
    ensures Weight(edges, p) >= 0.0
    decreases |p|
  {
    if p != [] {
      WalkStays(edges, n, i, j, p);
      WeightNonNegative(edges, n, i, edges[p[|p| - 1]].from, p[..|p| - 1]);
    }
  }
}
