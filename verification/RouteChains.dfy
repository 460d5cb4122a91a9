/** The predecessor edges of a row: following them back ends, and yields a lightest walk. */
module RouteChains {
  import opened Wrappers
  import opened Graph
  import opened Walks
  import opened RouteTable
  import opened RouteProofs

  type Rank = (nat, nat) -> nat

  /** The last edge of an entry, if the entry has one. */
  predicate HasPrev(t: Table, n: nat, i: VertexId, j: VertexId, e: EdgeId)
    requires Square(t, n) && i < n && j < n
  {
    t[i][j].Some? && t[i][j].value.prev == Some(e)
  }

  // ---- What every pass keeps

  /** Entries without a last edge are the diagonal; a last edge ends at the entry's target and starts
      where the row also has an entry. */
  ghost predicate Linked(edges: seq<Edge>, n: nat, t: Table)
    requires Square(t, n)
  {
    && (forall i: VertexId, j: VertexId ::
          i < n && j < n && t[i][j].Some? && t[i][j].value.prev.None? ==> i == j)
    && (forall i: VertexId, j: VertexId, e: EdgeId :: i < n && j < n && HasPrev(t, n, i, j, e) ==>
          e < |edges| && edges[e].to == j && edges[e].from < n && t[i][edges[e].from].Some?)
  }

  /** Stepping back over the last edge of (i, j) makes the weight drop by more than the edge's weight,
      or by exactly that much while the rank drops. */
  ghost predicate StepsDown(edges: seq<Edge>, n: nat, t: Table, rank: Rank, i: VertexId, j: VertexId, e: EdgeId)
    requires Square(t, n) && Linked(edges, n, t) && i < n && j < n && HasPrev(t, n, i, j, e)
  {
    var u := edges[e].from;
    var gap := t[i][j].value.weight - edges[e].weight - t[i][u].value.weight;
    gap > 0.0 || (gap == 0.0 && rank(i, u) < rank(i, j))
  }

  ghost predicate Ranked(edges: seq<Edge>, n: nat, t: Table, rank: Rank, bound: nat)
    requires Square(t, n)
  {
    && Linked(edges, n, t)
    && (forall i: VertexId, j: VertexId, e: EdgeId :: i < n && j < n && HasPrev(t, n, i, j, e) ==>
          StepsDown(edges, n, t, rank, i, j, e))
    && (forall i: VertexId, j: VertexId :: i < n && j < n ==> rank(i, j) < bound)
  }

  lemma InitRanked(edges: seq<Edge>, n: nat) returns (rank: Rank)
    requires Within(edges, n) && NonNegative(edges, n)
    ensures Ranked(edges, n, Init(edges, n), rank, 2)
  {
    rank := (i: nat, j: nat) => if i == j then 0 else 1;
    var t := Init(edges, n);
    forall i: VertexId, j: VertexId | i < n && j < n
      ensures t[i][i] == Some(ZERO)
      ensures t[i][j].Some? && t[i][j].value.prev.None? ==> i == j
      ensures forall e: EdgeId :: HasPrev(t, n, i, j, e) ==>
                e < |edges| && edges[e] == Edge(i, j, t[i][j].value.weight) && i != j
    {
      InitSays(edges, n, i, i);
      InitSays(edges, n, i, j);
      IncidencePartition(edges, i);
    }
  }

  /** The rank a pass through k gives: an entry rerouted through k follows row k, above all older ranks. */
  function Reranked(t: Table, n: nat, k: VertexId, rank: Rank, bound: nat): Rank
    requires Square(t, n) && k < n
  {
    (i: nat, j: nat) =>
      if i < n && j < n && Pass(t, n, k)[i][j] != t[i][j] then bound + rank(k, j) else rank(i, j)
  }

  /** A rerouted entry takes its last edge from row k. */
  lemma ReroutedPrev(edges: seq<Edge>, n: nat, t: Table, k: VertexId, i: VertexId, j: VertexId)
    requires Square(t, n) && k < n && i < n && j < n && ZeroDiagonal(t, n) && Linked(edges, n, t)
    requires Pass(t, n, k)[i][j] != t[i][j]
    ensures j != k && t[k][j].Some? && t[i][k].Some? && t[k][j].value.prev.Some?
    ensures Pass(t, n, k)[i][j] == Some(Entry(t[i][k].value.weight + t[k][j].value.weight, t[k][j].value.prev))
  {
  }

  lemma PassStepsDown(edges: seq<Edge>, n: nat, t: Table, k: VertexId, rank: Rank, bound: nat,
                      i: VertexId, j: VertexId, e: EdgeId)
    requires Square(t, n) && k < n && i < n && j < n && ZeroDiagonal(t, n) && Ranked(edges, n, t, rank, bound)
    requires Square(Pass(t, n, k), n) && Linked(edges, n, Pass(t, n, k)) && HasPrev(Pass(t, n, k), n, i, j, e)
    ensures StepsDown(edges, n, Pass(t, n, k), Reranked(t, n, k, rank, bound), i, j, e)
  {
    if Pass(t, n, k)[i][j] != t[i][j] {
      ReroutedPrev(edges, n, t, k, i, j);
      assert HasPrev(t, n, k, j, e);
      assert StepsDown(edges, n, t, rank, k, j, e);
    } else {
      assert HasPrev(t, n, i, j, e);
      assert StepsDown(edges, n, t, rank, i, j, e);
    }
  }

  lemma PassRanked(edges: seq<Edge>, n: nat, t: Table, k: VertexId, rank: Rank, bound: nat)
    requires Square(t, n) && k < n && ZeroDiagonal(t, n) && Ranked(edges, n, t, rank, bound)
    ensures Ranked(edges, n, Pass(t, n, k), Reranked(t, n, k, rank, bound), 2 * bound)
  {
    var t' := Pass(t, n, k);
    forall i: VertexId, j: VertexId, e: EdgeId | i < n && j < n && HasPrev(t', n, i, j, e)
      ensures e < |edges| && edges[e].to == j && edges[e].from < n && t'[i][edges[e].from].Some?
    {
      if t'[i][j] != t[i][j] {
        ReroutedPrev(edges, n, t, k, i, j);
        assert HasPrev(t, n, k, j, e);
      } else {
        assert HasPrev(t, n, i, j, e);
      }
    }
    forall i: VertexId, j: VertexId | i < n && j < n && t'[i][j].Some? && t'[i][j].value.prev.None?
      ensures i == j
    {
      if t'[i][j] != t[i][j] {
        ReroutedPrev(edges, n, t, k, i, j);
      }
    }
    forall i: VertexId, j: VertexId, e: EdgeId | i < n && j < n && HasPrev(t', n, i, j, e)
      ensures StepsDown(edges, n, t', Reranked(t, n, k, rank, bound), i, j, e)
    {
      PassStepsDown(edges, n, t, k, rank, bound, i, j, e);
    }
  }

  lemma NextTableRanked(edges: seq<Edge>, n: nat, k: nat, t: Table, rank: Rank, bound: nat)
    requires Within(edges, n) && k < n && t == Tables(edges, n, k)
    requires ZeroDiagonal(t, n) && Ranked(edges, n, t, rank, bound)
    ensures Ranked(edges, n, Tables(edges, n, k + 1), Reranked(t, n, k, rank, bound), 2 * bound)
  {
    PassRanked(edges, n, t, k, rank, bound);
    assert Tables(edges, n, k + 1) == Pass(t, n, k);
  }

  /** Every table on the way to the finished one has a ranking, whatever zero-weight cycles the graph has. */
  lemma {:induction false} TablesRanked(edges: seq<Edge>, n: nat, k: nat) returns (rank: Rank, bound: nat)
    requires Within(edges, n) && NonNegative(edges, n) && k <= n
    ensures Ranked(edges, n, Tables(edges, n, k), rank, bound)
  {
    if k == 0 {
      rank := InitRanked(edges, n);
      bound := 2;
    } else {
      var last := k - 1;
      var before := Tables(edges, n, last);
      rank, bound := TablesRanked(edges, n, last);
      TablesLeast(edges, n, last);
      NextTableRanked(edges, n, last, before, rank, bound);
      rank, bound := Reranked(before, n, last, rank, bound), 2 * bound;
    }
  }

  // ---- The chains of every table end

  /** Each last edge leads to an entry of smaller rank in the same row. Neither weights nor `to` ends matter. */
  ghost predicate Descends(edges: seq<Edge>, n: nat, t: Table, rank: Rank)
    requires Square(t, n)
  {
    forall i: VertexId, j: VertexId, e: EdgeId :: i < n && j < n && HasPrev(t, n, i, j, e) ==>
      e < |edges| && edges[e].from < n && t[i][edges[e].from].Some? && rank(i, edges[e].from) < rank(i, j)
  }

  /** A table whose predecessor chains all end. */
  ghost predicate Traceable(edges: seq<Edge>, n: nat, t: Table) {
    Square(t, n) && exists rank: Rank :: Descends(edges, n, t, rank)
  }

  /** In row i the entry of x is lighter than that of y, or as light and of smaller rank. */
  predicate Before(t: Table, n: nat, rank: Rank, i: VertexId, x: VertexId, y: VertexId)
    requires Square(t, n) && i < n && x < n && y < n
  {
    && t[i][x].Some? && t[i][y].Some?
    && (|| t[i][x].value.weight < t[i][y].value.weight
        || (t[i][x].value.weight == t[i][y].value.weight && rank(i, x) < rank(i, y)))
  }

  /** How many of the first m entries of row i come before that of y. */
  function CountBefore(t: Table, n: nat, rank: Rank, i: VertexId, y: VertexId, m: nat): nat
    requires Square(t, n) && i < n && y < n && m <= n
  {
    if m == 0 then 0
    else CountBefore(t, n, rank, i, y, m - 1) + if Before(t, n, rank, i, m - 1, y) then 1 else 0
  }

  lemma {:induction false} CountDrops(t: Table, n: nat, rank: Rank, i: VertexId, x: VertexId, y: VertexId, m: nat)
    requires Square(t, n) && i < n && x < n && y < n && m <= n && Before(t, n, rank, i, x, y)
    ensures CountBefore(t, n, rank, i, x, m) + (if x < m then 1 else 0) <= CountBefore(t, n, rank, i, y, m)
  {
    if m > 0 {
      CountDrops(t, n, rank, i, x, y, m - 1);
    }
  }

  /** Counting the entries before each entry ranks a whole row, since edges are not negative. */
  lemma RankedDescends(edges: seq<Edge>, n: nat, t: Table, rank: Rank, bound: nat) returns (order: Rank)
    requires NonNegative(edges, n) && Square(t, n) && Ranked(edges, n, t, rank, bound)
    ensures Descends(edges, n, t, order)
  {
    order := (i: nat, j: nat) => if i < n && j < n then CountBefore(t, n, rank, i, j, n) else 0;
    forall i: VertexId, j: VertexId, e: EdgeId | i < n && j < n && HasPrev(t, n, i, j, e)
      ensures e < |edges| && edges[e].from < n && t[i][edges[e].from].Some? && order(i, edges[e].from) < order(i, j)
    {
      assert StepsDown(edges, n, t, rank, i, j, e);
      CountDrops(t, n, rank, i, edges[e].from, j, n);
    }
  }

  /** Whenever the relaxation stops, following last edges back ends, from every entry. */
  lemma TablesTraceable(edges: seq<Edge>, n: nat, k: nat)
    requires Within(edges, n) && NonNegative(edges, n) && k <= n
    ensures Traceable(edges, n, Tables(edges, n, k))
  {
    var rank, bound := TablesRanked(edges, n, k);
    var order := RankedDescends(edges, n, Tables(edges, n, k), rank, bound);
  }

  // ---- The finished table

  /** In the finished table a last edge accounts exactly for the step in weight. */
  ghost predicate Balanced(edges: seq<Edge>, n: nat, t: Table)
    requires Square(t, n)
  {
    && Linked(edges, n, t) && ZeroDiagonal(t, n)
    && forall i: VertexId, j: VertexId, e: EdgeId :: i < n && j < n && HasPrev(t, n, i, j, e) ==>
         t[i][j].value.weight == t[i][edges[e].from].value.weight + edges[e].weight
  }

  lemma FinalGap(edges: seq<Edge>, n: nat, i: VertexId, e: EdgeId)
    requires Within(edges, n) && NonNegative(edges, n) && i < n && e < |edges| && edges[e].from < n
    requires Tables(edges, n, n)[i][edges[e].from].Some?
    ensures var t := Tables(edges, n, n);
      t[i][edges[e].to].Some? &&
      t[i][edges[e].to].value.weight <= t[i][edges[e].from].value.weight + edges[e].weight
  {
    var u, v := edges[e].from, edges[e].to;
    FinalLeast(edges, n, i, u);
    FinalLeast(edges, n, i, v);
    var p :| IsWalk(edges, i, u, p) && Known(edges, p) && Weight(edges, p) == Tables(edges, n, n)[i][u].value.weight;
    SingleEdge(edges, e);
    Concat(edges, i, u, v, p, [e]);
  }

  lemma FinalTable(edges: seq<Edge>, n: nat)
    requires Within(edges, n) && NonNegative(edges, n)
    ensures Traceable(edges, n, Tables(edges, n, n)) && Balanced(edges, n, Tables(edges, n, n))
  {
    var t := Tables(edges, n, n);
    var rank, bound := TablesRanked(edges, n, n);
    TablesTraceable(edges, n, n);
    TablesLeast(edges, n, n);
    forall i: VertexId, j: VertexId, e: EdgeId | i < n && j < n && HasPrev(t, n, i, j, e)
      ensures t[i][j].value.weight == t[i][edges[e].from].value.weight + edges[e].weight
    {
      assert StepsDown(edges, n, t, rank, i, j, e);
      FinalGap(edges, n, i, e);
    }
  }

  // ---- Traces

  /** p is what following the last edges back from (i, j) yields, first edge first. */
  predicate Traces(edges: seq<Edge>, n: nat, t: Table, i: VertexId, j: VertexId, p: seq<EdgeId>)
    requires Square(t, n)
    decreases |p|
  {
    if i >= n || j >= n || t[i][j].None? then false
    else if t[i][j].value.prev.None? then p == []
    else
      && p != [] && t[i][j].value.prev == Some(p[|p| - 1]) && p[|p| - 1] < |edges|
      && Traces(edges, n, t, i, edges[p[|p| - 1]].from, p[..|p| - 1])
  }

  lemma {:induction false} TraceExists(edges: seq<Edge>, n: nat, t: Table, rank: Rank, i: VertexId, j: VertexId)
    returns (p: seq<EdgeId>)
    requires Square(t, n) && Descends(edges, n, t, rank) && i < n && j < n && t[i][j].Some?
    ensures Traces(edges, n, t, i, j, p)
    decreases rank(i, j)
  {
    if t[i][j].value.prev.None? {
      p := [];
    } else {
      var e := t[i][j].value.prev.value;
      assert HasPrev(t, n, i, j, e);
      p := TraceExists(edges, n, t, rank, i, edges[e].from);
      assert (p + [e])[..|p|] == p;
      p := p + [e];
    }
  }

  /** A trace is decided by the table and the `from` ends of the edges alone. */
  lemma {:induction false} TraceUnique(edges: seq<Edge>, others: seq<Edge>, n: nat, t: Table,
                                       i: VertexId, j: VertexId, p: seq<EdgeId>, q: seq<EdgeId>)
    requires Square(t, n) && |edges| == |others|
    requires forall id :: 0 <= id < |edges| ==> edges[id].from == others[id].from
    requires Traces(edges, n, t, i, j, p) && Traces(others, n, t, i, j, q)
    ensures p == q
    decreases |p|
  {
    if p != [] {
      TraceUnique(edges, others, n, t, i, edges[p[|p| - 1]].from, p[..|p| - 1], q[..|q| - 1]);
      assert p == p[..|p| - 1] + [p[|p| - 1]];
      assert q == q[..|q| - 1] + [q[|q| - 1]];
    }
  }

  /** A trace of the finished table is a walk from i to j of exactly the recorded weight,
      and is empty only when i is j. */
  lemma {:induction false} TraceIsWalk(edges: seq<Edge>, n: nat, t: Table, i: VertexId, j: VertexId, p: seq<EdgeId>)
    requires Square(t, n) && Balanced(edges, n, t) && Traces(edges, n, t, i, j, p)
    ensures IsWalk(edges, i, j, p) && Known(edges, p) && Weight(edges, p) == t[i][j].value.weight
    ensures p == [] <==> i == j
    decreases |p|
  {
    if p != [] {
      var e := p[|p| - 1];
      assert HasPrev(t, n, i, j, e);
      TraceIsWalk(edges, n, t, i, edges[e].from, p[..|p| - 1]);
      WalkEnds(edges, i, j, p);
    }
  }

  /** A trace visits no vertex twice: its edges leave pairwise distinct vertices, and none leaves the target. */
  lemma {:induction false} TraceIsSimple(edges: seq<Edge>, n: nat, t: Table, rank: Rank,
                                         i: VertexId, j: VertexId, p: seq<EdgeId>)
    requires Square(t, n) && Descends(edges, n, t, rank) && Traces(edges, n, t, i, j, p)
    ensures Known(edges, p)
    ensures forall m :: 0 <= m < |p| ==> edges[p[m]].from < n && rank(i, edges[p[m]].from) < rank(i, j)
    ensures forall m :: 0 <= m < |p| ==> edges[p[m]].from != j
    ensures forall a, b :: 0 <= a < b < |p| ==> edges[p[a]].from != edges[p[b]].from
    decreases |p|
  {
    if p != [] {
      var e := p[|p| - 1];
      assert HasPrev(t, n, i, j, e);
      TraceIsSimple(edges, n, t, rank, i, edges[e].from, p[..|p| - 1]);
      assert forall m :: 0 <= m < |p| - 1 ==> p[m] == p[..|p| - 1][m];
    }
  }
}
