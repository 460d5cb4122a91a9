/** Why the routing table is right: shortest weights, and predecessor chains that end. */
module RouteProofs {
  import opened Wrappers
  import opened Graph
  import opened Walks
  import opened RouteTable

  /** A walk from i to j that stays below k in between. */
  predicate WalkBelow(edges: seq<Edge>, i: VertexId, j: VertexId, p: seq<EdgeId>, k: nat) {
    IsWalk(edges, i, j, p) && Known(edges, p) && Inner(edges, p, k)
  }

  /** Some walk below k has the entry's weight, and none is lighter; an absent entry means there is no walk. */
  ghost predicate IsLeast(edges: seq<Edge>, i: VertexId, j: VertexId, k: nat, e: Option<Entry>) {
    && (forall p :: WalkBelow(edges, i, j, p, k) ==> e.Some? && e.value.weight <= Weight(edges, p))
    && (e.Some? ==> exists p :: WalkBelow(edges, i, j, p, k) && Weight(edges, p) == e.value.weight)
  }

  ghost predicate AllLeast(edges: seq<Edge>, n: nat, t: Table, k: nat)
    requires Square(t, n)
  {
    forall i: VertexId, j: VertexId :: i < n && j < n ==> IsLeast(edges, i, j, k, t[i][j])
  }

  // ---- Initialisation

  /** Of the edges to j that are as light as edge id, it was added first. */
  predicate FirstAsLight(edges: seq<Edge>, ids: seq<EdgeId>, j: VertexId, id: EdgeId)
    requires Known(edges, ids) && id < |edges|
  {
    forall m :: 0 <= m < |ids| && edges[ids[m]].to == j && edges[ids[m]].weight == edges[id].weight ==> id <= ids[m]
  }

  predicate Ascending(ids: seq<EdgeId>) {
    forall a, b :: 0 <= a < b < |ids| ==> ids[a] < ids[b]
  }

  /** What row v says about target j once the edges `ids` were offered. */
  predicate RowSays(edges: seq<Edge>, v: VertexId, ids: seq<EdgeId>, j: VertexId, e: Option<Entry>)
    requires Known(edges, ids)
  {
    if j == v then e == Some(ZERO)
    else
      && (forall m :: 0 <= m < |ids| && edges[ids[m]].to == j ==> e.Some? && e.value.weight <= edges[ids[m]].weight)
      && (e.Some? ==> e.value.prev.Some? && e.value.prev.value in ids
                      && edges[e.value.prev.value] == Edge(edges[e.value.prev.value].from, j, e.value.weight)
                      && FirstAsLight(edges, ids, j, e.value.prev.value))
  }

  lemma {:induction false} InitRowSays(edges: seq<Edge>, n: nat, v: VertexId, ids: seq<EdgeId>)
    requires v < n && Within(edges, n) && Leaving(edges, v, ids) && Ascending(ids) && NonNegative(edges, n)
    ensures forall j :: 0 <= j < n ==> RowSays(edges, v, ids, j, InitRow(edges, n, v, ids)[j])
  {
    if ids != [] {
      var rest := ids[..|ids| - 1];
      InitRowSays(edges, n, v, rest);
      forall j | 0 <= j < n ensures RowSays(edges, v, ids, j, InitRow(edges, n, v, ids)[j]) {
        OfferSays(edges, v, rest, ids[|ids| - 1], j, InitRow(edges, n, v, rest));
        assert ids == rest + [ids[|ids| - 1]];
      }
    }
  }

  /** One more edge offered, with a larger id than those before. */
  lemma OfferSays(edges: seq<Edge>, v: VertexId, rest: seq<EdgeId>, id: EdgeId, j: VertexId, row: Row)
    requires Known(edges, rest) && id < |edges| && edges[id].to < |row| && j < |row| && edges[id].weight >= 0.0
    requires forall m :: 0 <= m < |rest| ==> rest[m] < id
    requires RowSays(edges, v, rest, j, row[j])
    ensures RowSays(edges, v, rest + [id], j, Offer(row, edges, id)[j])
  {
  }

  lemma InitSays(edges: seq<Edge>, n: nat, i: VertexId, j: VertexId)
    requires Within(edges, n) && NonNegative(edges, n) && i < n && j < n
    ensures Known(edges, IdsFrom(edges, i)) && RowSays(edges, i, IdsFrom(edges, i), j, Init(edges, n)[i][j])
  {
    IncidencePartition(edges, i);
    InitRowSays(edges, n, i, IdsFrom(edges, i));
  }

  lemma SingleEdge(edges: seq<Edge>, id: EdgeId)
    requires id < |edges|
    ensures WalkBelow(edges, edges[id].from, edges[id].to, [id], 0) && Weight(edges, [id]) == edges[id].weight
  {
    assert [id][..0] == [];
  }

  lemma InitLeast(edges: seq<Edge>, n: nat)
    requires Within(edges, n) && NonNegative(edges, n)
    ensures AllLeast(edges, n, Init(edges, n), 0)
  {
    forall i: VertexId, j: VertexId | i < n && j < n ensures IsLeast(edges, i, j, 0, Init(edges, n)[i][j]) {
      InitSays(edges, n, i, j);
      IncidencePartition(edges, i);
      var e := Init(edges, n)[i][j];
      if e.Some? {
        if i == j {
          assert WalkBelow(edges, i, j, [], 0) && Weight(edges, []) == 0.0;
        } else {
          SingleEdge(edges, e.value.prev.value);
        }
      }
      forall p | WalkBelow(edges, i, j, p, 0) ensures e.Some? && e.value.weight <= Weight(edges, p) {
        WeightNonNegative(edges, n, i, j, p);
        WalkEnds(edges, i, j, p);
        if i != j && |p| == 1 {
          assert p[0] in IdsFrom(edges, i);
          SingleEdge(edges, p[0]);
          assert p == [p[0]];
        } else if |p| > 1 {
          assert false;
        }
      }
    }
  }

  // ---- One relaxation pass

  lemma EntriesNonNegative(edges: seq<Edge>, n: nat, t: Table, k: nat)
    requires Square(t, n) && Within(edges, n) && NonNegative(edges, n) && AllLeast(edges, n, t, k)
    ensures forall i: VertexId, j: VertexId :: i < n && j < n && t[i][j].Some? ==> t[i][j].value.weight >= 0.0
  {
    forall i: VertexId, j: VertexId | i < n && j < n && t[i][j].Some? ensures t[i][j].value.weight >= 0.0 {
      assert IsLeast(edges, i, j, k, t[i][j]);
      var p :| WalkBelow(edges, i, j, p, k) && Weight(edges, p) == t[i][j].value.weight;
      WeightNonNegative(edges, n, i, j, p);
    }
  }

  /** Walks below k to and from k join into a walk below k + 1. */
  lemma JoinAt(edges: seq<Edge>, k: VertexId, i: VertexId, j: VertexId, p: seq<EdgeId>, q: seq<EdgeId>)
    requires WalkBelow(edges, i, k, p, k) && WalkBelow(edges, k, j, q, k)
    ensures WalkBelow(edges, i, j, p + q, k + 1)
    ensures Weight(edges, p + q) == Weight(edges, p) + Weight(edges, q)
  {
    Concat(edges, i, k, j, p, q);
    WalkEnds(edges, k, j, q);
  }

  lemma CutBelow(edges: seq<Edge>, i: VertexId, j: VertexId, p: seq<EdgeId>, k: nat, m: nat)
    requires WalkBelow(edges, i, j, p, k) && m < |p|
    ensures WalkBelow(edges, i, edges[p[m]].from, p[..m], k)
    ensures WalkBelow(edges, edges[p[m]].from, j, p[m..], k)
    ensures Weight(edges, p) == Weight(edges, p[..m]) + Weight(edges, p[m..])
  {
    Split(edges, i, j, p, m);
    Concat(edges, i, edges[p[m]].from, j, p[..m], p[m..]);
    assert p[..m] + p[m..] == p;
  }

  /** No walk below k + 1 is lighter than the relaxed entry: cut it wherever it passes through k. */
  lemma {:induction false} PassIsLow(edges: seq<Edge>, n: nat, t: Table, k: VertexId,
                                     i: VertexId, j: VertexId, p: seq<EdgeId>)
    requires Square(t, n) && k < n && i < n && j < n
    requires ZeroDiagonal(t, n) && AllLeast(edges, n, t, k)
    requires WalkBelow(edges, i, j, p, k + 1)
    ensures Relaxed(t, n, k, i, j).Some? && Relaxed(t, n, k, i, j).value.weight <= Weight(edges, p)
    decreases |p|
  {
    if m :| 1 <= m < |p| && edges[p[m]].from == k {
      CutBelow(edges, i, j, p, k + 1, m);
      PassIsLow(edges, n, t, k, i, k, p[..m]);
      PassIsLow(edges, n, t, k, k, j, p[m..]);
    } else {
      assert WalkBelow(edges, i, j, p, k);
      assert IsLeast(edges, i, j, k, t[i][j]);
    }
  }

  /** Some walk below k + 1 attains the relaxed entry. */
  lemma PassIsAttained(edges: seq<Edge>, n: nat, t: Table, k: VertexId, i: VertexId, j: VertexId)
    returns (p: seq<EdgeId>)
    requires Square(t, n) && k < n && i < n && j < n && AllLeast(edges, n, t, k) && Pass(t, n, k)[i][j].Some?
    ensures WalkBelow(edges, i, j, p, k + 1) && Weight(edges, p) == Pass(t, n, k)[i][j].value.weight
  {
    assert IsLeast(edges, i, j, k, t[i][j]);
    if Pass(t, n, k)[i][j] == t[i][j] {
      p :| WalkBelow(edges, i, j, p, k) && Weight(edges, p) == t[i][j].value.weight;
    } else {
      assert IsLeast(edges, i, k, k, t[i][k]) && IsLeast(edges, k, j, k, t[k][j]);
      var q :| WalkBelow(edges, i, k, q, k) && Weight(edges, q) == t[i][k].value.weight;
      var r :| WalkBelow(edges, k, j, r, k) && Weight(edges, r) == t[k][j].value.weight;
      JoinAt(edges, k, i, j, q, r);
      p := q + r;
    }
  }

  lemma PassLeast(edges: seq<Edge>, n: nat, t: Table, k: VertexId)
    requires Square(t, n) && k < n && Within(edges, n) && NonNegative(edges, n)
    requires ZeroDiagonal(t, n) && AllLeast(edges, n, t, k)
    ensures AllLeast(edges, n, Pass(t, n, k), k + 1)
    ensures ZeroDiagonal(Pass(t, n, k), n)
  {
    EntriesNonNegative(edges, n, t, k);
    var t', k' := Pass(t, n, k), k + 1;
    forall i: VertexId, j: VertexId | i < n && j < n ensures IsLeast(edges, i, j, k', t'[i][j]) {
      forall p | WalkBelow(edges, i, j, p, k') ensures t'[i][j].Some? && t'[i][j].value.weight <= Weight(edges, p) {
        PassIsLow(edges, n, t, k, i, j, p);
      }
      if t'[i][j].Some? {
        var p := PassIsAttained(edges, n, t, k, i, j);
      }
    }
  }

  lemma InitDiagonal(edges: seq<Edge>, n: nat)
    requires Within(edges, n) && NonNegative(edges, n)
    ensures ZeroDiagonal(Init(edges, n), n)
  {
    forall i | 0 <= i < n ensures Init(edges, n)[i][i] == Some(ZERO) {
      InitSays(edges, n, i, i);
    }
  }

  lemma FirstTableLeast(edges: seq<Edge>, n: nat)
    requires Within(edges, n) && NonNegative(edges, n)
    ensures AllLeast(edges, n, Tables(edges, n, 0), 0) && ZeroDiagonal(Tables(edges, n, 0), n)
  {
    InitLeast(edges, n);
    InitDiagonal(edges, n);
  }

  lemma NextTableLeast(edges: seq<Edge>, n: nat, k: nat, t: Table)
    requires Within(edges, n) && NonNegative(edges, n) && k < n && t == Tables(edges, n, k)
    requires AllLeast(edges, n, t, k) && ZeroDiagonal(t, n)
    ensures AllLeast(edges, n, Tables(edges, n, k + 1), k + 1) && ZeroDiagonal(Tables(edges, n, k + 1), n)
  {
    PassLeast(edges, n, t, k);
    assert Tables(edges, n, k + 1) == Pass(t, n, k);
  }

  /** After relaxing through the vertices below k every entry is least among the walks below k. */
  lemma {:induction false} TablesLeast(edges: seq<Edge>, n: nat, k: nat)
    requires Within(edges, n) && NonNegative(edges, n) && k <= n
    ensures AllLeast(edges, n, Tables(edges, n, k), k)
    ensures ZeroDiagonal(Tables(edges, n, k), n)
  {
    if k == 0 {
      FirstTableLeast(edges, n);
    } else {
      var before := k - 1;
      TablesLeast(edges, n, before);
      NextTableLeast(edges, n, before, Tables(edges, n, before));
    }
  }

  /** The finished table holds the true distances: least over all walks, absent iff there is none. */
  lemma FinalLeast(edges: seq<Edge>, n: nat, i: VertexId, j: VertexId)
    requires Within(edges, n) && NonNegative(edges, n) && i < n && j < n
    ensures var e := Tables(edges, n, n)[i][j];
      && (forall p :: IsWalk(edges, i, j, p) ==>
            Known(edges, p) && e.Some? && e.value.weight <= Weight(edges, p))
      && (e.Some? ==> exists p :: IsWalk(edges, i, j, p) && Known(edges, p) && Weight(edges, p) == e.value.weight)
  {
    TablesLeast(edges, n, n);
    var e := Tables(edges, n, n)[i][j];
    assert IsLeast(edges, i, j, n, e);
    forall p | IsWalk(edges, i, j, p) ensures WalkBelow(edges, i, j, p, n) {
      WalkStays(edges, n, i, j, p);
    }
  }
}
