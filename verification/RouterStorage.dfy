/** The saved form of the transport router (the messages of transport_router.proto) and its restoration. */
module RouterStorage {
  import opened Wrappers
  import opened Strings
  import opened Graph
  import opened RouteTable
  import opened RouteChains
  import Router
  import opened CatalogueState
  import opened CatalogueStorage
  import opened Itineraries
  import opened TransitGraph
  import opened RouteAnswers

  const UINT16_LIMIT := 0x1_0000

  datatype ProtoEdge = ProtoEdge(from: nat, to: nat, weight: real)
  datatype ProtoGraph = ProtoGraph(edges: seq<ProtoEdge>, incidenceLists: seq<seq<nat>>)
  datatype ProtoEntry = ProtoEntry(isInitialisation: bool, weight: real, prevEdge: Option<nat>)
  datatype ProtoVertexId = ProtoVertexId(inId: nat, outId: nat)
  datatype ProtoComponentTrip = ProtoComponentTrip(name: string, weight: real, spanCount: Option<nat>)
  datatype ProtoRoutingSettings = ProtoRoutingSettings(busWaitTime: nat, busVelocity: nat)
  datatype ProtoRouter = ProtoRouter(
    settings: ProtoRoutingSettings,
    totalVertex: nat,
    graph: ProtoGraph,
    routes: seq<seq<ProtoEntry>>,
    stopVertexs: map<nat, ProtoVertexId>,
    infoAboutEdge: map<nat, ProtoComponentTrip>,
    stops: seq<string>)

  // ---- What fits

  predicate FitsOption(x: Option<nat>) {
    x.Some? ==> x.value < UINT32_LIMIT
  }

  predicate IdPairFits(ids: VertexIds) {
    ids.inId < UINT32_LIMIT && ids.outId < UINT32_LIMIT
  }

  /** Everything stored in a uint32 field is below 2^32, and the settings are 16-bit values. */
  predicate Fits(st: RouterState) {
    && st.settings.busWaitTime < UINT16_LIMIT && st.settings.busVelocity < UINT16_LIMIT
    && st.totalVertex < UINT32_LIMIT
    && (forall id :: 0 <= id < |st.edges| ==> st.edges[id].from < UINT32_LIMIT)
    && (forall v :: 0 <= v < |st.incidenceLists| ==> IdsFit(st.incidenceLists[v]))
    && (forall i :: 0 <= i < |st.routes| ==> RowFits(st.routes[i]))
    && (forall x :: x in st.stopVertexs ==> IdPairFits(st.stopVertexs[x]))
    && (forall id :: id in st.infoAboutEdge ==>
          id < UINT32_LIMIT && FitsOption(st.infoAboutEdge[id].spanCount))
  }

  predicate IdsFit(ids: seq<EdgeId>) {
    forall m :: 0 <= m < |ids| ==> ids[m] < UINT32_LIMIT
  }

  predicate RowFits(row: Row) {
    forall j :: 0 <= j < |row| && row[j].Some? ==> FitsOption(row[j].value.prev)
  }

  // ---- Saving

  function SavedEdge(edge: Edge): ProtoEdge {
    ProtoEdge(Uint32(edge.from), Uint32(edge.from), edge.weight)
  }

  function SavedIds(ids: seq<EdgeId>): seq<nat> {
    seq(|ids|, m requires 0 <= m < |ids| => Uint32(ids[m]))
  }

  function SavedGraph(edges: seq<Edge>, incidenceLists: seq<seq<EdgeId>>): ProtoGraph {
    ProtoGraph(seq(|edges|, id requires 0 <= id < |edges| => SavedEdge(edges[id])),
               seq(|incidenceLists|, v requires 0 <= v < |incidenceLists| => SavedIds(incidenceLists[v])))
  }

  /** An absent entry keeps the fields' default values. */
  function SavedEntry(e: Option<RouteTable.Entry>): ProtoEntry {
    if e.None? then ProtoEntry(false, 0.0, None)
    else ProtoEntry(true, e.value.weight, if e.value.prev.Some? then Some(Uint32(e.value.prev.value)) else None)
  }

  function SavedRow(row: Row): seq<ProtoEntry> {
    seq(|row|, j requires 0 <= j < |row| => SavedEntry(row[j]))
  }

  function SavedTable(t: Table): seq<seq<ProtoEntry>> {
    seq(|t|, i requires 0 <= i < |t| => SavedRow(t[i]))
  }

  function SavedTrip(item: ComponentTrip): ProtoComponentTrip {
    var spanCount := if item.spanCount.Some? then Some(Uint32(item.spanCount.value)) else None;
    ProtoComponentTrip(item.name, item.weight, spanCount)
  }

  function SavedInfo(info: map<EdgeId, ComponentTrip>): map<nat, ProtoComponentTrip> {
    map id | id in info :: SavedTrip(info[id])
  }

  /** The names under which vertices are stored all belong to stops of the catalogue. */
  predicate NamesStored(st: RouterState, s: State) {
    StopIndex(s.allStops, s.stops) && st.stopVertexs.Keys <= s.stops.Keys
  }

  function AllNames(s: State): seq<string> {
    seq(|s.allStops|, i requires 0 <= i < |s.allStops| => s.allStops[i].name)
  }

  function SavedIdPair(ids: VertexIds): ProtoVertexId {
    ProtoVertexId(Uint32(ids.inId), Uint32(ids.outId))
  }

  /** Vertices are stored under the number of their stop. */
  function SavedVertexs(stopVertexs: map<string, VertexIds>, names: seq<string>): map<nat, ProtoVertexId> {
    map i | 0 <= i < |names| && names[i] in stopVertexs :: SavedIdPair(stopVertexs[names[i]])
  }

  function Saved(st: RouterState, s: State): ProtoRouter
    requires NamesStored(st, s)
  {
    ProtoRouter(
      ProtoRoutingSettings(st.settings.busWaitTime, st.settings.busVelocity),
      Uint32(st.totalVertex),
      SavedGraph(st.edges, st.incidenceLists),
      SavedTable(st.routes),
      SavedVertexs(st.stopVertexs, AllNames(s)),
      SavedInfo(st.infoAboutEdge),
      AllNames(s))
  }

  /** What the message of a router says, field by field. */
  lemma SavedMeans(st: RouterState, s: State)
    requires NamesStored(st, s)
    ensures var p := Saved(st, s);
      && p.settings == ProtoRoutingSettings(st.settings.busWaitTime, st.settings.busVelocity)
      && p.totalVertex == st.totalVertex % 0x1_0000_0000
      && |p.stops| == |s.allStops| && (forall i :: 0 <= i < |p.stops| ==> p.stops[i] == s.allStops[i].name)
      && GraphMeans(p.graph, st.edges, st.incidenceLists)
    ensures SavedRowsMean(Saved(st, s).routes, st.routes)
    ensures SavedMapsMean(Saved(st, s), st, s)
  {
    SavedGraphMeans(st.edges, st.incidenceLists);
    SavedTableMeans(st.routes);
    SavedMapsAre(st, s);
  }

  predicate GraphMeans(g: ProtoGraph, edges: seq<Edge>, incidenceLists: seq<seq<EdgeId>>) {
    && |g.edges| == |edges|
    && (forall id :: 0 <= id < |edges| ==>
          g.edges[id] == ProtoEdge(edges[id].from % 0x1_0000_0000, edges[id].from % 0x1_0000_0000, edges[id].weight))
    && |g.incidenceLists| == |incidenceLists|
    && (forall v :: 0 <= v < |incidenceLists| ==> |g.incidenceLists[v]| == |incidenceLists[v]|)
    && (forall v, m :: 0 <= v < |incidenceLists| && 0 <= m < |incidenceLists[v]| ==>
          g.incidenceLists[v][m] == incidenceLists[v][m] % 0x1_0000_0000)
  }

  lemma SavedGraphMeans(edges: seq<Edge>, incidenceLists: seq<seq<EdgeId>>)
    ensures GraphMeans(SavedGraph(edges, incidenceLists), edges, incidenceLists)
  {
  }

  lemma SavedTableMeans(t: Table)
    ensures SavedRowsMean(SavedTable(t), t)
  {
  }

  lemma SavedMapsAre(st: RouterState, s: State)
    requires NamesStored(st, s)
    ensures SavedMapsMean(Saved(st, s), st, s)
  {
  }

  /** Entries are written with their presence, weight and last edge; absent ones with default values. */
  predicate SavedRowsMean(rows: seq<seq<ProtoEntry>>, t: Table) {
    && |rows| == |t| && (forall i :: 0 <= i < |t| ==> |rows[i]| == |t[i]|)
    && forall i, j :: 0 <= i < |t| && 0 <= j < |t[i]| ==>
         && (t[i][j].None? ==> rows[i][j] == ProtoEntry(false, 0.0, None))
         && (t[i][j].Some? ==>
               && rows[i][j].isInitialisation && rows[i][j].weight == t[i][j].value.weight
               && (rows[i][j].prevEdge.Some? <==> t[i][j].value.prev.Some?)
               && (t[i][j].value.prev.Some? ==>
                     rows[i][j].prevEdge.value == t[i][j].value.prev.value % 0x1_0000_0000))
  }

  /** Vertices stand under the numbers of their stops, items under the ids of their edges. */
  ghost predicate SavedMapsMean(p: ProtoRouter, st: RouterState, s: State) {
    && (forall i :: i in p.stopVertexs <==> 0 <= i < |s.allStops| && s.allStops[i].name in st.stopVertexs)
    && (forall i :: i in p.stopVertexs ==>
          && p.stopVertexs[i].inId == st.stopVertexs[s.allStops[i].name].inId % 0x1_0000_0000
          && p.stopVertexs[i].outId == st.stopVertexs[s.allStops[i].name].outId % 0x1_0000_0000)
    && p.infoAboutEdge.Keys == st.infoAboutEdge.Keys
    && forall id :: id in st.infoAboutEdge ==>
         && p.infoAboutEdge[id].name == st.infoAboutEdge[id].name
         && p.infoAboutEdge[id].weight == st.infoAboutEdge[id].weight
         && (p.infoAboutEdge[id].spanCount.Some? <==> st.infoAboutEdge[id].spanCount.Some?)
         && (st.infoAboutEdge[id].spanCount.Some? ==>
               p.infoAboutEdge[id].spanCount.value == st.infoAboutEdge[id].spanCount.value % 0x1_0000_0000)
  }

  // ---- Restoring

  function RestoredEdge(edge: ProtoEdge): Edge {
    Edge(edge.from, edge.to, edge.weight)
  }

  function RestoredEdges(edges: seq<ProtoEdge>): seq<Edge> {
    seq(|edges|, id requires 0 <= id < |edges| => RestoredEdge(edges[id]))
  }

  function RestoredEntry(e: ProtoEntry): Option<RouteTable.Entry> {
    if e.isInitialisation then Some(RouteTable.Entry(e.weight, e.prevEdge)) else None
  }

  function RestoredRow(row: seq<ProtoEntry>): Row {
    seq(|row|, j requires 0 <= j < |row| => RestoredEntry(row[j]))
  }

  function RestoredTable(t: seq<seq<ProtoEntry>>): Table {
    seq(|t|, i requires 0 <= i < |t| => RestoredRow(t[i]))
  }

  function RestoredTrip(item: ProtoComponentTrip): ComponentTrip {
    ComponentTrip(item.name, item.weight, item.spanCount)
  }

  function RestoredInfo(info: map<nat, ProtoComponentTrip>): map<EdgeId, ComponentTrip> {
    map id | id in info :: RestoredTrip(info[id])
  }

  /** Stop numbers point into the list of stop names, which repeats none. */
  predicate Readable(p: ProtoRouter) {
    && (forall i :: i in p.stopVertexs ==> i < |p.stops|)
    && Distinct(p.stops)
    && Square(RestoredTable(p.routes), |p.graph.incidenceLists|)
  }

  /** The stops and buses the message names are in the catalogue. */
  predicate NamesFound(p: ProtoRouter, s: State) {
    && (forall i :: i in p.stopVertexs && i < |p.stops| ==> p.stops[i] in s.stops)
    && (forall id :: id in p.infoAboutEdge ==> TripNameFound(p.infoAboutEdge[id], s))
  }

  predicate TripNameFound(item: ProtoComponentTrip, s: State) {
    if item.spanCount.Some? then item.name in s.buses else item.name in s.stops
  }

  function Position(names: seq<string>, x: string): (i: nat)
    requires x in names
    ensures i < |names| && names[i] == x
  {
    if names[0] == x then 0 else Position(names[1..], x) + 1
  }

  function RestoredVertexs(stopVertexs: map<nat, ProtoVertexId>, names: seq<string>): map<string, VertexIds> {
    map x | x in names && Position(names, x) in stopVertexs ::
      RestoredIdPair(stopVertexs[Position(names, x)])
  }

  function RestoredIdPair(ids: ProtoVertexId): VertexIds {
    VertexIds(ids.inId, ids.outId)
  }

  function Restored(p: ProtoRouter): RouterState
    requires Readable(p)
  {
    RouterState(
      RoutingSettings(p.settings.busWaitTime % UINT16_LIMIT, p.settings.busVelocity % UINT16_LIMIT),
      p.totalVertex,
      RestoredEdges(p.graph.edges),
      p.graph.incidenceLists,
      RestoredTable(p.routes),
      RestoredVertexs(p.stopVertexs, p.stops),
      RestoredInfo(p.infoAboutEdge))
  }

  /** What a message restores to, field by field, whoever wrote it. */
  lemma RestoredMeans(p: ProtoRouter)
    requires Readable(p)
    ensures var st := Restored(p);
      && st.settings == RoutingSettings(p.settings.busWaitTime % 0x1_0000, p.settings.busVelocity % 0x1_0000)
      && st.totalVertex == p.totalVertex && st.incidenceLists == p.graph.incidenceLists
      && |st.edges| == |p.graph.edges|
      && (forall id :: 0 <= id < |st.edges| ==>
            st.edges[id] == Edge(p.graph.edges[id].from, p.graph.edges[id].to, p.graph.edges[id].weight))
      && |st.routes| == |p.routes| && (forall i :: 0 <= i < |p.routes| ==> |st.routes[i]| == |p.routes[i]|)
      && (forall i, j :: 0 <= i < |p.routes| && 0 <= j < |p.routes[i]| ==>
            st.routes[i][j] == if p.routes[i][j].isInitialisation then
                                 Some(RouteTable.Entry(p.routes[i][j].weight, p.routes[i][j].prevEdge))
                               else None)
    ensures RestoredMapsMean(Restored(p), p)
  {
    var restored := Restored(p).stopVertexs;
    forall i | i in p.stopVertexs
      ensures p.stops[i] in restored && restored[p.stops[i]] == VertexIds(p.stopVertexs[i].inId, p.stopVertexs[i].outId)
    {
      assert Position(p.stops, p.stops[i]) == i;
    }
    forall x | x in restored ensures exists i :: i in p.stopVertexs && p.stops[i] == x {
      assert Position(p.stops, x) in p.stopVertexs;
    }
  }

  predicate RestoredMapsMean(st: RouterState, p: ProtoRouter)
    requires forall i :: i in p.stopVertexs ==> i < |p.stops|
  {
    && (forall i :: i in p.stopVertexs ==>
          && p.stops[i] in st.stopVertexs
          && st.stopVertexs[p.stops[i]] == VertexIds(p.stopVertexs[i].inId, p.stopVertexs[i].outId))
    && (forall x :: x in st.stopVertexs ==> exists i :: i in p.stopVertexs && p.stops[i] == x)
    && st.infoAboutEdge.Keys == p.infoAboutEdge.Keys
    && forall id :: id in p.infoAboutEdge ==>
         st.infoAboutEdge[id] ==
         ComponentTrip(p.infoAboutEdge[id].name, p.infoAboutEdge[id].weight, p.infoAboutEdge[id].spanCount)
  }

  // ---- Restoring undoes saving, up to the `to` ends of edges

  /** The edges with their `to` ends overwritten, as the writer does. */
  function Blurred(edges: seq<Edge>): seq<Edge> {
    seq(|edges|, id requires 0 <= id < |edges| => edges[id].(to := edges[id].from))
  }

  lemma TableRestored(t: Table)
    requires forall i :: 0 <= i < |t| ==> RowFits(t[i])
    ensures RestoredTable(SavedTable(t)) == t
  {
    forall i | 0 <= i < |t| ensures RestoredTable(SavedTable(t))[i] == t[i] {
      assert RestoredRow(SavedRow(t[i])) == t[i];
    }
  }

  lemma GraphRestored(edges: seq<Edge>, incidenceLists: seq<seq<EdgeId>>)
    requires forall id :: 0 <= id < |edges| ==> edges[id].from < UINT32_LIMIT
    requires forall v :: 0 <= v < |incidenceLists| ==> IdsFit(incidenceLists[v])
    ensures RestoredEdges(SavedGraph(edges, incidenceLists).edges) == Blurred(edges)
    ensures SavedGraph(edges, incidenceLists).incidenceLists == incidenceLists
  {
    forall v | 0 <= v < |incidenceLists| ensures SavedIds(incidenceLists[v]) == incidenceLists[v] {
      assert IdsFit(incidenceLists[v]);
    }
  }

  lemma VertexsRestored(stopVertexs: map<string, VertexIds>, names: seq<string>)
    requires forall x :: x in stopVertexs ==> x in names && IdPairFits(stopVertexs[x])
    ensures RestoredVertexs(SavedVertexs(stopVertexs, names), names) == stopVertexs
  {
    var saved := SavedVertexs(stopVertexs, names);
    var restored := RestoredVertexs(saved, names);
    forall x | x in stopVertexs ensures x in restored && restored[x] == stopVertexs[x] {
      var i := Position(names, x);
      assert i in saved && saved[i] == SavedIdPair(stopVertexs[x]);
    }
    forall x | x in restored ensures x in stopVertexs {
      var i := Position(names, x);
      assert i in saved;
    }
  }

  predicate SavedFor(saved: map<nat, ProtoVertexId>, done: map<string, VertexIds>, names: seq<string>, i: nat) {
    if i < |names| && names[i] in done then i in saved && saved[i] == SavedIdPair(done[names[i]])
    else i !in saved
  }

  /** The vertices in `done` have been saved, and no others. */
  ghost predicate SavedAs(saved: map<nat, ProtoVertexId>, done: map<string, VertexIds>, names: seq<string>) {
    forall i: nat :: SavedFor(saved, done, names, i)
  }

  /** Vertices can be saved one at a time, in any order. */
  lemma SavedAsStep(saved: map<nat, ProtoVertexId>, done: map<string, VertexIds>, names: seq<string>,
                    k: nat, ids: VertexIds)
    requires Distinct(names) && k < |names| && SavedAs(saved, done, names)
    ensures SavedAs(saved[k := SavedIdPair(ids)], done[names[k] := ids], names)
  {
    var saved', done' := saved[k := SavedIdPair(ids)], done[names[k] := ids];
    forall i: nat ensures SavedFor(saved', done', names, i) {
      assert SavedFor(saved, done, names, i);
      if i < |names| && i != k {
        assert names[i] != names[k];
      }
    }
  }

  lemma SavedAsAll(saved: map<nat, ProtoVertexId>, done: map<string, VertexIds>, names: seq<string>)
    requires SavedAs(saved, done, names)
    ensures saved == SavedVertexs(done, names)
  {
    var all := SavedVertexs(done, names);
    forall i: nat ensures i in saved <==> i in all ensures i in saved ==> saved[i] == all[i] {
      assert SavedFor(saved, done, names, i);
    }
  }

  lemma SavedReadable(st: RouterState, s: State)
    requires Fits(st) && NamesStored(st, s) && Square(st.routes, |st.incidenceLists|)
    ensures Readable(Saved(st, s))
  {
    TableRestored(st.routes);
    StopNamesDiffer(s.allStops, s.stops);
  }

  lemma InfoRestored(info: map<EdgeId, ComponentTrip>)
    requires forall id :: id in info ==> FitsOption(info[id].spanCount)
    ensures RestoredInfo(SavedInfo(info)) == info
  {
  }

  /** What restoring a saved router yields: everything but the `to` ends of the edges. */
  lemma RestoreUndoesSave(st: RouterState, s: State)
    requires Fits(st) && NamesStored(st, s) && Square(st.routes, |st.incidenceLists|)
    ensures Readable(Saved(st, s))
    ensures Restored(Saved(st, s)) == st.(edges := Blurred(st.edges))
  {
    SavedReadable(st, s);
    TableRestored(st.routes);
    GraphRestored(st.edges, st.incidenceLists);
    AllNamesFound(st, s);
    VertexsRestored(st.stopVertexs, AllNames(s));
    InfoRestored(st.infoAboutEdge);
    RestoredByParts(Saved(st, s), st);
  }

  lemma RestoredByParts(p: ProtoRouter, st: RouterState)
    requires Readable(p) && p.totalVertex == st.totalVertex
    requires p.settings == ProtoRoutingSettings(st.settings.busWaitTime, st.settings.busVelocity)
    requires st.settings.busWaitTime < UINT16_LIMIT && st.settings.busVelocity < UINT16_LIMIT
    requires RestoredEdges(p.graph.edges) == Blurred(st.edges) && p.graph.incidenceLists == st.incidenceLists
    requires RestoredTable(p.routes) == st.routes && RestoredInfo(p.infoAboutEdge) == st.infoAboutEdge
    requires RestoredVertexs(p.stopVertexs, p.stops) == st.stopVertexs
    ensures Restored(p) == st.(edges := Blurred(st.edges))
  {
  }

  lemma AllNamesFound(st: RouterState, s: State)
    requires NamesStored(st, s)
    ensures Distinct(AllNames(s)) && forall x :: x in st.stopVertexs ==> x in AllNames(s)
  {
    StopNamesDiffer(s.allStops, s.stops);
    forall x | x in st.stopVertexs ensures x in AllNames(s) {
      assert AllNames(s)[s.stops[x]] == x;
    }
  }

  /** The state itself comes back exactly when every edge is a self-loop. */
  lemma RestoredEqualIff(st: RouterState, s: State)
    requires Fits(st) && NamesStored(st, s) && Square(st.routes, |st.incidenceLists|)
    ensures Readable(Saved(st, s))
    ensures Restored(Saved(st, s)) == st <==> forall id :: 0 <= id < |st.edges| ==> st.edges[id].to == st.edges[id].from
  {
    RestoreUndoesSave(st, s);
    if Blurred(st.edges) == st.edges {
      forall id | 0 <= id < |st.edges| ensures st.edges[id].to == st.edges[id].from {
        assert Blurred(st.edges)[id] == st.edges[id];
      }
    }
  }

  // ---- The restored router answers alike

  lemma {:induction false} TracesBlurred(edges: seq<Edge>, n: nat, t: Table, i: VertexId, j: VertexId, p: seq<EdgeId>)
    requires Square(t, n)
    ensures Traces(edges, n, t, i, j, p) <==> Traces(Blurred(edges), n, t, i, j, p)
    decreases |p|
  {
    if p != [] && p[|p| - 1] < |edges| {
      TracesBlurred(edges, n, t, i, edges[p[|p| - 1]].from, p[..|p| - 1]);
    }
  }

  lemma DescendsBlurred(edges: seq<Edge>, n: nat, t: Table)
    requires Traceable(edges, n, t)
    ensures Traceable(Blurred(edges), n, t)
  {
    var rank: Rank :| Descends(edges, n, t, rank);
    assert Descends(Blurred(edges), n, t, rank);
  }

  lemma AnswersBlurred(st: RouterState, from: string, to: string, r: Answer)
    requires Square(st.routes, |st.incidenceLists|)
    ensures IsAnswer(st, from, to, r) <==> IsAnswer(st.(edges := Blurred(st.edges)), from, to, r)
  {
    var n := |st.incidenceLists|;
    forall i: VertexId, j: VertexId, route: Result<Option<Router.RouteInfo>, Router.RouterError>
      ensures Router.IsRoute(st.edges, n, st.routes, i, j, route) <==>
              Router.IsRoute(Blurred(st.edges), n, st.routes, i, j, route)
    {
      if route.Success? && route.value.Some? {
        TracesBlurred(st.edges, n, st.routes, i, j, route.value.value.edges);
      }
    }
  }

  /** Every query has the same answers after saving and restoring as before, and stays answerable. */
  lemma RestoredAnswersAlike(st: RouterState, s: State, from: string, to: string, r: Answer)
    requires Fits(st) && NamesStored(st, s) && Traceable(st.edges, |st.incidenceLists|, st.routes)
    ensures Readable(Saved(st, s))
    ensures var back := Restored(Saved(st, s));
      && Traceable(back.edges, |back.incidenceLists|, back.routes)
      && (IsAnswer(st, from, to, r) <==> IsAnswer(back, from, to, r))
  {
    RestoreUndoesSave(st, s);
    DescendsBlurred(st.edges, |st.incidenceLists|, st.routes);
    AnswersBlurred(st, from, to, r);
  }

  /** The counts of a catalogue whose router fits: its edges, its vertices and the stops of each bus can be
      counted in 32 bits. */
  predicate CountsFit(s: State, settings: RoutingSettings) {
    && settings.busWaitTime < UINT16_LIMIT && settings.busVelocity < UINT16_LIMIT
    && 2 * |s.allStops| < UINT32_LIMIT && |s.allStops| + RidesBefore(s.allBuses, |s.allBuses|) <= UINT32_LIMIT
    && forall b :: 0 <= b < |s.allBuses| ==> |s.allBuses[b].stops| <= UINT32_LIMIT
  }

  lemma CompiledTraceable(st: RouterState, s: State, settings: RoutingSettings)
    requires WellFormed(s) && settings.busVelocity > 0 && AllLegsKnown(s) && Compiled(s, settings, st)
    ensures Traceable(st.edges, |st.incidenceLists|, st.routes) && Linked(st.edges, |st.incidenceLists|, st.routes)
  {
    GraphIsSound(s, settings);
    FinalTable(st.edges, 2 * |s.allStops|);
  }

  lemma TableFits(edges: seq<Edge>, n: nat, t: Table)
    requires Square(t, n) && Linked(edges, n, t) && |edges| <= UINT32_LIMIT
    ensures forall i :: 0 <= i < n ==> RowFits(t[i])
  {
    forall i, j | 0 <= i < n && 0 <= j < n && t[i][j].Some? ensures FitsOption(t[i][j].value.prev) {
      if t[i][j].value.prev.Some? {
        assert HasPrev(t, n, i, j, t[i][j].value.prev.value);
      }
    }
  }

  lemma ListsFit(edges: seq<Edge>, incidenceLists: seq<seq<EdgeId>>)
    requires |edges| <= UINT32_LIMIT
    requires forall v :: 0 <= v < |incidenceLists| ==> incidenceLists[v] == IdsFrom(edges, v)
    ensures forall v :: 0 <= v < |incidenceLists| ==> IdsFit(incidenceLists[v])
  {
    forall v | 0 <= v < |incidenceLists| ensures IdsFit(incidenceLists[v]) {
      IncidencePartition(edges, v);
    }
  }

  lemma InfoFits(s: State, settings: RoutingSettings, id: EdgeId)
    requires WellFormed(s) && settings.busVelocity > 0 && AllLegsKnown(s) && CountsFit(s, settings)
    requires id < |GraphTrips(s, settings)|
    ensures FitsOption(GraphTrips(s, settings)[id].item.spanCount)
  {
    var r := TripEnds(s, settings, id);
  }

  lemma CompiledFits(st: RouterState, s: State, settings: RoutingSettings)
    requires WellFormed(s) && settings.busVelocity > 0 && AllLegsKnown(s) && Compiled(s, settings, st)
    requires CountsFit(s, settings)
    ensures Fits(st) && NamesStored(st, s) && Traceable(st.edges, |st.incidenceLists|, st.routes)
  {
    BusesTripsCount(s, settings.busVelocity, |s.allBuses|);
    GraphIsSound(s, settings);
    CompiledTraceable(st, s, settings);
    TableFits(st.edges, |st.incidenceLists|, st.routes);
    ListsFit(st.edges, st.incidenceLists);
    forall id | id in st.infoAboutEdge ensures id < UINT32_LIMIT && FitsOption(st.infoAboutEdge[id].spanCount) {
      InfoFits(s, settings, id);
    }
  }

  lemma TripNameKnown(s: State, settings: RoutingSettings, id: EdgeId)
    requires WellFormed(s) && settings.busVelocity > 0 && AllLegsKnown(s)
    requires id < |GraphTrips(s, settings)|
    ensures TripNameFound(SavedTrip(GraphTrips(s, settings)[id].item), s)
  {
    var r := TripEnds(s, settings, id);
  }

  /** A compiled router names only stops and buses of its catalogue, so whoever restores it finds them. */
  lemma SavedNamesFound(st: RouterState, s: State, settings: RoutingSettings)
    requires WellFormed(s) && settings.busVelocity > 0 && AllLegsKnown(s) && Compiled(s, settings, st)
    ensures NamesStored(st, s) && NamesFound(Saved(st, s), s)
  {
    forall id | id in Saved(st, s).infoAboutEdge ensures TripNameFound(Saved(st, s).infoAboutEdge[id], s) {
      TripNameKnown(s, settings, id);
    }
  }

  /** The graph of a catalogue with a stop never comes back: the stop's wait edge leads to another vertex. */
  lemma CompiledNeverComesBack(st: RouterState, s: State, settings: RoutingSettings)
    requires WellFormed(s) && settings.busVelocity > 0 && AllLegsKnown(s) && Compiled(s, settings, st)
    requires Fits(st) && s.allStops != []
    ensures Readable(Saved(st, s)) && Restored(Saved(st, s)) != st
  {
    assert st.edges[0] == WaitTrip(s, settings, 0).edge;
    RestoredEqualIff(st, s);
  }

  /** Hence a router saved after being built still gives best trips when restored. */
  lemma RestoredAnswerIsBestTrip(st: RouterState, s: State, settings: RoutingSettings,
                                 from: string, to: string, r: Answer)
    requires WellFormed(s) && settings.busVelocity > 0 && AllLegsKnown(s) && Compiled(s, settings, st) && Fits(st)
    ensures Readable(Saved(st, s)) && NamesFound(Saved(st, s), s)
    ensures var back := Restored(Saved(st, s));
      && Traceable(back.edges, |back.incidenceLists|, back.routes)
      && (IsAnswer(back, from, to, r) ==>
            && (from !in s.stops ==> r == Failure(NoStartingStop))
            && (from in s.stops && to !in s.stops ==> r == Failure(NoSuchName))
            && (from in s.stops && to in s.stops ==> IsBestAnswer(s, settings, s.stops[from], s.stops[to], r)))
  {
    CompiledTraceable(st, s, settings);
    SavedNamesFound(st, s, settings);
    RestoredAnswersAlike(st, s, from, to, r);
    if IsAnswer(st, from, to, r) {
      AnswerIsBestTrip(s, settings, st, from, to, r);
    }
  }
}
