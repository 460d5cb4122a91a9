/** The table of router.h as a value: what initialisation and each relaxation pass make of it. */
module RouteTable {
  import opened Wrappers
  import opened Graph
  import opened Walks

  datatype Entry = Entry(weight: real, prev: Option<EdgeId>)

  type Row = seq<Option<Entry>>
  type Table = seq<Row>

  const BLANK: Option<Entry> := None
  const ZERO := Entry(0.0, None)

  predicate Square(t: Table, n: nat) {
    |t| == n && forall i :: 0 <= i < n ==> |t[i]| == n
  }

  predicate Leaving(edges: seq<Edge>, v: VertexId, ids: seq<EdgeId>) {
    forall m :: 0 <= m < |ids| ==> ids[m] < |edges| && edges[ids[m]].from == v
  }

  /** Row v after the edges `ids` have been offered to it in turn. */
  function InitRow(edges: seq<Edge>, n: nat, v: VertexId, ids: seq<EdgeId>): (row: Row)
    requires v < n && Within(edges, n) && Leaving(edges, v, ids)
    ensures |row| == n
  {
    if ids == [] then
      seq(n, _ => BLANK)[v := Some(ZERO)]
    else
      var row := InitRow(edges, n, v, ids[..|ids| - 1]);
      Offer(row, edges, ids[|ids| - 1])
  }

  function Offer(row: Row, edges: seq<Edge>, id: EdgeId): Row
    requires id < |edges| && edges[id].to < |row|
  {
    var edge := edges[id];
    var known := row[edge.to];
    if known.None? || known.value.weight > edge.weight then
      row[edge.to := Some(Entry(edge.weight, Some(id)))]
    else
      row
  }

  function InitAt(edges: seq<Edge>, n: nat, v: VertexId): (row: Row)
    requires v < n && Within(edges, n)
    ensures |row| == n
  {
    IncidencePartition(edges, v);
    InitRow(edges, n, v, IdsFrom(edges, v))
  }

  function Init(edges: seq<Edge>, n: nat): (t: Table)
    requires Within(edges, n)
    ensures Square(t, n)
  {
    seq(n, v requires 0 <= v < n => InitAt(edges, n, v))
  }

  /** What relaxing through k makes of the entry from i to j, when row k and column k stand still. */
  function Relaxed(t: Table, n: nat, k: VertexId, i: VertexId, j: VertexId): Option<Entry>
    requires Square(t, n) && k < n && i < n && j < n
  {
    if t[i][k].None? || t[k][j].None? then t[i][j]
    else Better(t[i][j], t[i][k].value, t[k][j].value)
  }

  function Better(known: Option<Entry>, first: Entry, second: Entry): Option<Entry> {
    var candidate := first.weight + second.weight;
    if known.None? || candidate < known.value.weight then
      Some(Entry(candidate, if second.prev.Some? then second.prev else first.prev))
    else
      known
  }

  function Pass(t: Table, n: nat, k: VertexId): (t': Table)
    requires Square(t, n) && k < n
    ensures Square(t', n)
  {
    seq(n, i requires 0 <= i < n => seq(n, j requires 0 <= j < n => Relaxed(t, n, k, i, j)))
  }

  /** The table after relaxing through the vertices below k. */
  function Tables(edges: seq<Edge>, n: nat, k: nat): (t: Table)
    requires Within(edges, n) && k <= n
    ensures Square(t, n)
  {
    if k == 0 then Init(edges, n) else Pass(Tables(edges, n, k - 1), n, k - 1)
  }

  predicate ZeroDiagonal(t: Table, n: nat)
    requires Square(t, n)
  {
    forall i :: 0 <= i < n ==> t[i][i] == Some(ZERO)
  }

  /** A pass through k leaves row k, column k and the diagonal alone. */
  lemma PassKeepsCross(t: Table, n: nat, k: VertexId)
    requires Square(t, n) && k < n && ZeroDiagonal(t, n)
    ensures forall j :: 0 <= j < n ==> Pass(t, n, k)[k][j] == t[k][j] && Pass(t, n, k)[j][k] == t[j][k]
    ensures (forall i: VertexId :: i < n && t[i][k].Some? && t[k][i].Some? ==>
               t[i][k].value.weight + t[k][i].value.weight >= 0.0) ==> ZeroDiagonal(Pass(t, n, k), n)
  {
  }
}
