/** The transport router of transport_router.cpp: compiles the catalogue into a graph and answers route queries. */
module TransportRouter {
  import opened Wrappers
  import opened Strings
  import opened Sequences
  import opened Graph
  import opened RouteTable
  import opened RouteChains
  import Router
  import opened CatalogueState
  import opened CatalogueLengths
  import opened TransportCatalogue
  import opened Itineraries
  import opened TransitGraph
  import opened RouteAnswers
  import opened CatalogueStorage
  import opened RouterStorage

  class TransportRouter {
    var settings: RoutingSettings
    const db: TransportCatalogue
    var totalVertex: nat
    const graphOfStops: DirectedWeightedGraph
    var router: Router.Router?
    var stopVertexs: map<string, VertexIds>
    var infoAboutEdge: map<EdgeId, ComponentTrip>

    /** The fields as a value, once the router is there. */
    ghost function Now(): RouterState
      requires router != null
      reads this, graphOfStops, if router != null then {router.routes} else {}
    {
      RouterState(settings, totalVertex, graphOfStops.edges, graphOfStops.incidenceLists, router.Rows(),
                  stopVertexs, infoAboutEdge)
    }

    /** The state in which queries may be put. */
    ghost predicate Valid()
      reads this, graphOfStops, if router != null then {router.routes} else {}
    {
      router != null && router.graph == graphOfStops && router.Ready()
    }

    constructor Unrouted(settings: RoutingSettings, db: TransportCatalogue, graph: DirectedWeightedGraph)
      ensures this.settings == settings && this.db == db && graphOfStops == graph
      ensures totalVertex == 0 && router == null && stopVertexs == map[] && infoAboutEdge == map[]
    {
      this.settings, this.db, graphOfStops := settings, db, graph;
      totalVertex, router, stopVertexs, infoAboutEdge := 0, null, map[], map[];
    }

    /** Builds the router of a catalogue: fails exactly when two adjacent stops of some bus have no length. */
    static method Create(settings: RoutingSettings, db: TransportCatalogue)
      returns (r: Result<TransportRouter, CatalogueError>)
      requires db.Valid() && settings.busVelocity > 0
      ensures r.Success? <==> AllLegsKnown(db.Now())
      ensures r.Failure? ==> r.error == LengthNotFound
      ensures r.Success? ==> fresh(r.value) && r.value.Valid() && r.value.db == db
      ensures r.Success? ==> Compiled(db.Now(), settings, r.value.Now())
    {
      var graph := new DirectedWeightedGraph(2 * |db.allStops|);
      var result := new TransportRouter.Unrouted(settings, db, graph);
      var ok := result.CreateGraph();
      if !ok {
        return Failure(LengthNotFound);
      }
      GraphIsSound(db.Now(), settings);
      var router := Router.Router.Create(graph);
      result.router := router.value;
      return Success(result);
    }

    /** What the graph and the item map hold after the edges in `trips` were added. */
    ghost predicate Records(trips: seq<Trip>)
      reads this, graphOfStops
    {
      && graphOfStops.Valid()
      && graphOfStops.edges == EdgesOf(trips)
      && infoAboutEdge == InfoOf(trips)
    }

    /** Adds an edge and stores its item under the new id. */
    method AddTrip(edge: Edge, item: ComponentTrip, ghost trips: seq<Trip>)
      requires Records(trips) && edge.from < |graphOfStops.incidenceLists|
      modifies graphOfStops, `infoAboutEdge
      ensures Records(trips + [Trip(edge, item)])
      ensures |graphOfStops.incidenceLists| == old(|graphOfStops.incidenceLists|)
    {
      var id := graphOfStops.AddEdge(edge);
      if id.value !in infoAboutEdge {
        infoAboutEdge := infoAboutEdge[id.value := item];
      }
    }

    method CreateGraph() returns (ok: bool)
      requires db.Valid() && settings.busVelocity > 0
      requires Records([]) && |graphOfStops.incidenceLists| == 2 * |db.allStops|
      requires totalVertex == 0 && stopVertexs == map[]
      modifies graphOfStops, `infoAboutEdge, `totalVertex, `stopVertexs
      ensures ok <==> AllLegsKnown(db.Now())
      ensures ok ==> Records(GraphTrips(db.Now(), settings))
      ensures |graphOfStops.incidenceLists| == 2 * |db.allStops|
      ensures totalVertex == 2 * |db.allStops| && stopVertexs == VertexMap(db.stops)
    {
      CreateVertexes();
      ok := CreateEdges(WaitTrips(db.Now(), settings, |db.allStops|));
    }

    /** The loop over all stops. */
    method CreateVertexes()
      requires StopIndex(db.allStops, db.stops) && Records([]) && |graphOfStops.incidenceLists| == 2 * |db.allStops|
      requires totalVertex == 0 && stopVertexs == map[]
      modifies graphOfStops, `infoAboutEdge, `totalVertex, `stopVertexs
      ensures Records(WaitTrips(db.Now(), settings, |db.allStops|))
      ensures |graphOfStops.incidenceLists| == 2 * |db.allStops|
      ensures totalVertex == 2 * |db.allStops| && stopVertexs == VertexMap(db.stops)
    {
      ghost var s := db.Now();
      for i := 0 to |db.allStops|
        invariant Records(WaitTrips(s, settings, i))
        invariant |graphOfStops.incidenceLists| == 2 * |db.allStops|
        invariant totalVertex == 2 * i && VertexesUpTo(i)
      {
        CreateVertex(i);
        assert WaitTrips(s, settings, i + 1) == WaitTrips(s, settings, i) + [WaitTrip(s, settings, i)];
      }
      assert forall x :: x in db.stops ==> db.stops[x] < |db.allStops|;
    }

    /** The loop over all buses, after the edges in `waits` were added. */
    method CreateEdges(ghost waits: seq<Trip>) returns (ok: bool)
      requires StopIndex(db.allStops, db.stops) && BusStops(db.allBuses, |db.allStops|) && settings.busVelocity > 0
      requires Records(waits) && |graphOfStops.incidenceLists| == 2 * |db.allStops|
      requires stopVertexs == VertexMap(db.stops)
      modifies graphOfStops, `infoAboutEdge
      ensures ok <==> AllLegsKnown(db.Now())
      ensures ok ==> Records(waits + BusesTrips(db.Now(), settings.busVelocity, |db.allBuses|))
      ensures |graphOfStops.incidenceLists| == 2 * |db.allStops|
    {
      ghost var s := db.Now();
      ghost var trips := waits;
      for b := 0 to |db.allBuses|
        invariant Records(trips)
        invariant |graphOfStops.incidenceLists| == 2 * |db.allStops|
        invariant forall m :: 0 <= m < b ==> LegsKnown(s.lengths, s.allBuses[m].stops)
        invariant AllLegsKnown(s) ==> trips == waits + BusesTrips(s, settings.busVelocity, b)
      {
        assert Below(s.allBuses[b].stops, |s.allStops|);
        if AllLegsKnown(s) {
          BusesTripsStep(s, settings.busVelocity, b, waits);
        }
        ok, trips := CreateEdge(db.allBuses[b], trips);
        if !ok {
          return;
        }
      }
      return true;
    }

    ghost predicate VertexesUpTo(k: nat)
      reads this, db
    {
      && (forall x :: x in stopVertexs <==> x in db.stops && db.stops[x] < k)
      && (forall x :: x in stopVertexs ==> stopVertexs[x] == VertexIds(InOf(db.stops[x]), OutOf(db.stops[x])))
    }

    method CreateVertex(i: nat)
      requires StopIndex(db.allStops, db.stops) && i < |db.allStops|
      requires |graphOfStops.incidenceLists| == 2 * |db.allStops|
      requires Records(WaitTrips(db.Now(), settings, i)) && totalVertex == 2 * i && VertexesUpTo(i)
      modifies graphOfStops, `infoAboutEdge, `totalVertex, `stopVertexs
      ensures Records(WaitTrips(db.Now(), settings, i) + [WaitTrip(db.Now(), settings, i)])
      ensures |graphOfStops.incidenceLists| == old(|graphOfStops.incidenceLists|)
      ensures totalVertex == 2 * (i + 1) && VertexesUpTo(i + 1)
    {
      var stop := db.allStops[i];
      var ids := VertexIds(totalVertex, totalVertex + 1);
      assert db.stops[stop.name] == i;
      totalVertex := totalVertex + 2;
      stopVertexs := stopVertexs[stop.name := ids];
      assert VertexesUpTo(i + 1) by {
        assert forall x :: x in db.stops && db.stops[x] == i ==> db.allStops[db.stops[x]].name == x;
      }
      AddTrip(Edge(stopVertexs[stop.name].inId, stopVertexs[stop.name].outId, settings.busWaitTime as real),
              ComponentTrip(stop.name, settings.busWaitTime as real, None), WaitTrips(db.Now(), settings, i));
    }

    method CreateEdge(bus: Bus, ghost trips: seq<Trip>) returns (ok: bool, ghost after: seq<Trip>)
      requires StopIndex(db.allStops, db.stops) && settings.busVelocity > 0 && Below(bus.stops, |db.allStops|)
      requires Records(trips) && |graphOfStops.incidenceLists| == 2 * |db.allStops|
      requires stopVertexs == VertexMap(db.stops)
      modifies graphOfStops, `infoAboutEdge
      ensures Records(after) && |graphOfStops.incidenceLists| == 2 * |db.allStops|
      ensures ok <==> LegsKnown(db.lengthBetweenStops, bus.stops)
      ensures ok ==> after == trips + BusTrips(db.lengthBetweenStops, settings.busVelocity, bus)
    {
      ok, after := CreateEdgesOnward(bus.name, bus.stops, trips);
      if ok && !bus.isLoop {
        ReversedLegsKnown(db.lengthBetweenStops, bus.stops);
        ok, after := CreateEdgesOnward(bus.name, Reversed(bus.stops), after);
      }
    }

    /** The double loop over a line of stops: once as listed, and once over the reverse iterators. */
    method CreateEdgesOnward(name: string, line: seq<nat>, ghost trips: seq<Trip>)
      returns (ok: bool, ghost after: seq<Trip>)
      requires StopIndex(db.allStops, db.stops) && settings.busVelocity > 0 && Below(line, |db.allStops|)
      requires Records(trips) && |graphOfStops.incidenceLists| == 2 * |db.allStops|
      requires stopVertexs == VertexMap(db.stops)
      modifies graphOfStops, `infoAboutEdge
      ensures Records(after) && |graphOfStops.incidenceLists| == 2 * |db.allStops|
      ensures ok <==> LegsKnown(db.lengthBetweenStops, line)
      ensures ok ==> after == trips + LineTrips(db.lengthBetweenStops, settings.busVelocity, name, line, |line|)
    {
      ghost var lengths, velocity := db.lengthBetweenStops, settings.busVelocity;
      after := trips;
      for i := 0 to |line|
        invariant Records(after) && |graphOfStops.incidenceLists| == 2 * |db.allStops|
        invariant i > 0 ==> LegsKnown(lengths, line)
        invariant LegsKnown(lengths, line) ==> after == trips + LineTrips(lengths, velocity, name, line, i)
      {
        ghost var before := after;
        ok, after := CreateEdgesFrom(name, line, i, before);
        if !ok {
          return;
        }
      }
      return true, after;
    }

    /** The inner loop: rides from position i to every later one, adding up the time leg by leg. */
    method CreateEdgesFrom(name: string, line: seq<nat>, i: nat, ghost trips: seq<Trip>)
      returns (ok: bool, ghost after: seq<Trip>)
      requires StopIndex(db.allStops, db.stops) && settings.busVelocity > 0 && Below(line, |db.allStops|) && i < |line|
      requires i > 0 ==> LegsKnown(db.lengthBetweenStops, line)
      requires Records(trips) && |graphOfStops.incidenceLists| == 2 * |db.allStops|
      requires stopVertexs == VertexMap(db.stops)
      modifies graphOfStops, `infoAboutEdge
      ensures Records(after) && |graphOfStops.incidenceLists| == 2 * |db.allStops|
      ensures ok <==> LegsKnown(db.lengthBetweenStops, line)
      ensures ok ==> after == trips + TripsFrom(db.lengthBetweenStops, settings.busVelocity, name, line, i, |line|)
    {
      ghost var lengths, velocity := db.lengthBetweenStops, settings.busVelocity;
      after := trips;
      var timeToRoad := 0.0;
      var stopsCount := 0;
      var firstId := stopVertexs[db.allStops[line[i]].name].outId;
      for j := i + 1 to |line|
        invariant Records(after) && |graphOfStops.incidenceLists| == 2 * |db.allStops|
        invariant stopsCount == j - i - 1
        invariant forall m :: i < m < j ==> Leg(lengths, line[m - 1], line[m]).Some?
        invariant LegsKnown(lengths, line) ==>
                    && timeToRoad == RideTime(lengths, velocity, line, i, j - 1)
                    && after == trips + TripsFrom(lengths, velocity, name, line, i, j)
      {
        var secondId := stopVertexs[db.allStops[line[j]].name].inId;
        var time := CalculateTimeBetweenStations(db.allStops[line[j - 1]].name, db.allStops[line[j]].name);
        TimeByName(line[j - 1], line[j]);
        if time.Failure? {
          return false, after;
        }
        timeToRoad := timeToRoad + time.value;
        stopsCount := stopsCount + 1;
        var trip := Trip(Edge(firstId, secondId, timeToRoad), ComponentTrip(name, timeToRoad, Some(stopsCount)));
        AddTrip(trip.edge, trip.item, after);
        after := after + [trip];
        if LegsKnown(lengths, line) {
          TripsFromStep(lengths, velocity, name, line, i, j);
        }
      }
      return true, after;
    }

    function CalculateTimeBetweenStations(first: string, second: string): Result<real, CatalogueError>
      reads this, db
      requires settings.busVelocity > 0
    {
      var length := db.GetLengthBetweenStops(first, second);
      if length.Failure? then Failure(length.error)
      else Success(length.value as real / (1000.0 * settings.busVelocity as real) * 60.0)
    }

    lemma TimeByName(a: nat, b: nat)
      requires settings.busVelocity > 0 && StopIndex(db.allStops, db.stops)
      requires a < |db.allStops| && b < |db.allStops|
      ensures var leg := Leg(db.lengthBetweenStops, a, b);
        CalculateTimeBetweenStations(db.allStops[a].name, db.allStops[b].name) ==
        if leg.Some? then Success(Minutes(leg.value, settings.busVelocity)) else Failure(LengthNotFound)
      ensures var lengths, time := db.lengthBetweenStops,
                                   CalculateTimeBetweenStations(db.allStops[a].name, db.allStops[b].name);
        && (time.Failure? <==> (a, b) !in lengths && (b, a) !in lengths && a != b)
        && (time.Success? ==>
              time.value * (1000.0 * settings.busVelocity as real) ==
              60.0 * (if (a, b) in lengths then lengths[(a, b)]
                      else if (b, a) in lengths then lengths[(b, a)]
                      else 0) as real)
    {
      LengthByName(db.Now(), a, b);
      LegMeans(db.lengthBetweenStops, a, b);
      if Leg(db.lengthBetweenStops, a, b).Some? {
        MinutesMeans(Leg(db.lengthBetweenStops, a, b).value, settings.busVelocity);
      }
    }

    /** The answer to a route query between two named stops. */
    method GetRouteInfo(from: string, to: string) returns (r: Answer)
      requires Valid()
      ensures IsAnswer(Now(), from, to, r)
    {
      if from !in stopVertexs {
        return Failure(NoStartingStop);
      }
      if to !in stopVertexs {
        return Failure(NoSuchName);
      }
      var route := router.BuildRoute(stopVertexs[from].inId, stopVertexs[to].inId);
      if route.Failure? {
        return Failure(NoSuchName);
      }
      if route.value.None? {
        return Success(None);
      }
      var edges := route.value.value.edges;
      var result := NO_ITEMS;
      assert edges[..0] == [];
      for m := 0 to |edges|
        invariant AllIn(infoAboutEdge, edges[..m])
        invariant result == Collect(infoAboutEdge, edges[..m])
      {
        assert edges[..m + 1][..m] == edges[..m];
        if edges[m] !in infoAboutEdge {
          assert !AllIn(infoAboutEdge, edges);
          return Failure(NoSuchName);
        }
        var info := infoAboutEdge[edges[m]];
        result := RouteInfo(result.items + [info], result.totalTime + info.weight);
      }
      assert edges[..|edges|] == edges;
      return Success(Some(result));
    }

    // ---- Save

    method SaveGraphToProto() returns (g: ProtoGraph)
      ensures g == SavedGraph(graphOfStops.edges, graphOfStops.incidenceLists)
    {
      var edges: seq<ProtoEdge> := [];
      for id := 0 to graphOfStops.GetEdgeCount()
        invariant |edges| == id && forall m :: 0 <= m < id ==> edges[m] == SavedEdge(graphOfStops.edges[m])
      {
        var edge := graphOfStops.edges[id];
        edges := edges + [ProtoEdge(Uint32(edge.from), Uint32(edge.from), edge.weight)];
      }
      var lists: seq<seq<nat>> := [];
      for v := 0 to graphOfStops.GetVertexCount()
        invariant |lists| == v && forall m :: 0 <= m < v ==> lists[m] == SavedIds(graphOfStops.incidenceLists[m])
      {
        var ids: seq<nat> := [];
        for m := 0 to |graphOfStops.incidenceLists[v]|
          invariant |ids| == m && forall l :: 0 <= l < m ==> ids[l] == Uint32(graphOfStops.incidenceLists[v][l])
        {
          ids := ids + [Uint32(graphOfStops.incidenceLists[v][m])];
        }
        lists := lists + [ids];
      }
      return ProtoGraph(edges, lists);
    }

    method SaveRouterToProto() returns (rows: seq<seq<ProtoEntry>>)
      requires router != null
      ensures rows == SavedTable(router.Rows())
    {
      rows := [];
      for i := 0 to router.routes.Length0
        invariant |rows| == i && forall l :: 0 <= l < i ==> rows[l] == SavedRow(router.Rows()[l])
      {
        var row: seq<ProtoEntry> := [];
        for j := 0 to router.routes.Length1
          invariant |row| == j && forall l :: 0 <= l < j ==> row[l] == SavedEntry(router.Rows()[i][l])
        {
          var data := router.routes[i, j];
          if data.Some? {
            var prev := if data.value.prev.Some? then Some(Uint32(data.value.prev.value)) else None;
            row := row + [ProtoEntry(true, data.value.weight, prev)];
          } else {
            row := row + [ProtoEntry(false, 0.0, None)];
          }
        }
        rows := rows + [row];
      }
    }

    /** The hash map of vertices is walked in an order nobody fixes. */
    method SaveVertexs(nameStops: map<string, nat>, ghost names: seq<string>) returns (saved: map<nat, ProtoVertexId>)
      requires Distinct(names) && |names| < UINT32_LIMIT && stopVertexs.Keys <= nameStops.Keys
      requires forall x :: x in nameStops <==> x in names
      requires forall x :: x in nameStops ==> nameStops[x] < |names| && names[nameStops[x]] == x
      ensures saved == SavedVertexs(stopVertexs, names)
    {
      saved := map[];
      var left := stopVertexs.Keys;
      ghost var done: map<string, VertexIds> := map[];
      while left != {}
        invariant left <= stopVertexs.Keys && done.Keys == stopVertexs.Keys - left
        invariant forall x :: x in done ==> done[x] == stopVertexs[x]
        invariant SavedAs(saved, done, names)
        decreases left
      {
        var name :| name in left;
        var id := stopVertexs[name];
        assert names[nameStops[name]] == name;
        SavedAsStep(saved, done, names, nameStops[name], id);
        saved := saved[Uint32(nameStops[name]) := ProtoVertexId(Uint32(id.inId), Uint32(id.outId))];
        left := left - {name};
        done := done[name := id];
      }
      assert done == stopVertexs;
      SavedAsAll(saved, done, names);
    }

    method SaveInfo() returns (saved: map<nat, ProtoComponentTrip>)
      requires forall id :: id in infoAboutEdge ==> id < UINT32_LIMIT
      ensures saved == SavedInfo(infoAboutEdge)
    {
      saved := map[];
      var left := infoAboutEdge.Keys;
      while left != {}
        invariant left <= infoAboutEdge.Keys
        invariant forall id :: id in saved <==> id in infoAboutEdge && id !in left
        invariant forall id :: id in saved ==> saved[id] == SavedTrip(infoAboutEdge[id])
        decreases left
      {
        var id :| id in left;
        var item := infoAboutEdge[id];
        var spanCount := if item.spanCount.Some? then Some(Uint32(item.spanCount.value)) else None;
        saved := saved[Uint32(id) := ProtoComponentTrip(item.name, item.weight, spanCount)];
        left := left - {id};
      }
    }

    method SaveToProto() returns (p: ProtoRouter)
      requires Valid() && NamesStored(Now(), db.Now()) && |db.allStops| < UINT32_LIMIT
      requires forall id :: id in infoAboutEdge ==> id < UINT32_LIMIT
      ensures p == Saved(Now(), db.Now())
    {
      var names: seq<string> := [];
      var nameStops: map<string, nat> := map[];
      StopNamesDiffer(db.allStops, db.stops);
      for i := 0 to |db.allStops|
        invariant names == AllNames(db.Now())[..i]
        invariant forall x :: x in nameStops <==> x in names
        invariant forall x :: x in nameStops ==> nameStops[x] < |names| && names[nameStops[x]] == x
      {
        names := names + [db.allStops[i].name];
        nameStops := nameStops[db.allStops[i].name := |names| - 1];
      }
      assert names == AllNames(db.Now());
      AllNamesFound(Now(), db.Now());
      var graph := SaveGraphToProto();
      var rows := SaveRouterToProto();
      var vertexs := SaveVertexs(nameStops, names);
      var info := SaveInfo();
      return ProtoRouter(ProtoRoutingSettings(settings.busWaitTime, settings.busVelocity), Uint32(totalVertex),
                         graph, rows, vertexs, info, names);
    }
  }

  // ---- Restore

  method DeserializeGraph(g: ProtoGraph) returns (graph: DirectedWeightedGraph)
    ensures fresh(graph) && graph.edges == RestoredEdges(g.edges) && graph.incidenceLists == g.incidenceLists
  {
    var edges: seq<Edge> := [];
    for id := 0 to |g.edges|
      invariant |edges| == id && forall m :: 0 <= m < id ==> edges[m] == RestoredEdge(g.edges[m])
    {
      edges := edges + [Edge(g.edges[id].from, g.edges[id].to, g.edges[id].weight)];
    }
    graph := new DirectedWeightedGraph.FromParts(edges, g.incidenceLists);
  }

  method DeserializeTable(protoRows: seq<seq<ProtoEntry>>) returns (rows: Table)
    ensures rows == RestoredTable(protoRows)
  {
    rows := [];
    for i := 0 to |protoRows|
      invariant |rows| == i && forall l :: 0 <= l < i ==> rows[l] == RestoredRow(protoRows[l])
    {
      var row: Row := [];
      for j := 0 to |protoRows[i]|
        invariant |row| == j && forall l :: 0 <= l < j ==> row[l] == RestoredEntry(protoRows[i][l])
      {
        var data := protoRows[i][j];
        if data.isInitialisation {
          row := row + [Some(RouteTable.Entry(data.weight, data.prevEdge))];
        } else {
          row := row + [None];
        }
      }
      rows := rows + [row];
    }
  }

  method DeserializeVertexs(p: ProtoRouter, db: TransportCatalogue) returns (r: Option<map<string, VertexIds>>)
    requires Distinct(p.stops) && forall i :: i in p.stopVertexs ==> i < |p.stops|
    ensures r.Some? <==> forall i :: i in p.stopVertexs ==> p.stops[i] in db.stops
    ensures r.Some? ==> r.value == RestoredVertexs(p.stopVertexs, p.stops)
  {
    var vertexs: map<string, VertexIds> := map[];
    var left := p.stopVertexs.Keys;
    while left != {}
      invariant left <= p.stopVertexs.Keys
      invariant forall i :: i in p.stopVertexs && i !in left ==> p.stops[i] in db.stops
      invariant forall x :: x in vertexs <==>
                  x in p.stops && Position(p.stops, x) in p.stopVertexs && Position(p.stops, x) !in left
      invariant forall x :: x in vertexs ==> vertexs[x] == RestoredIdPair(p.stopVertexs[Position(p.stops, x)])
      decreases left
    {
      var i :| i in left;
      if p.stops[i] !in db.stops {
        return None;
      }
      assert Position(p.stops, p.stops[i]) == i;
      vertexs := vertexs[p.stops[i] := VertexIds(p.stopVertexs[i].inId, p.stopVertexs[i].outId)];
      left := left - {i};
    }
    return Some(vertexs);
  }

  method DeserializeInfo(p: ProtoRouter, db: TransportCatalogue) returns (r: Option<map<EdgeId, ComponentTrip>>)
    ensures r.Some? <==> forall id :: id in p.infoAboutEdge ==> TripNameFound(p.infoAboutEdge[id], db.Now())
    ensures r.Some? ==> r.value == RestoredInfo(p.infoAboutEdge)
  {
    var info: map<EdgeId, ComponentTrip> := map[];
    var left := p.infoAboutEdge.Keys;
    while left != {}
      invariant left <= p.infoAboutEdge.Keys
      invariant forall id :: id in p.infoAboutEdge && id !in left ==> TripNameFound(p.infoAboutEdge[id], db.Now())
      invariant forall id :: id in info <==> id in p.infoAboutEdge && id !in left
      invariant forall id :: id in info ==> info[id] == RestoredTrip(p.infoAboutEdge[id])
      decreases left
    {
      var id :| id in left;
      var item := p.infoAboutEdge[id];
      if item.spanCount.Some? {
        if item.name !in db.buses {
          return None;
        }
        info := info[id := ComponentTrip(item.name, item.weight, Some(item.spanCount.value))];
      } else {
        if item.name !in db.stops {
          return None;
        }
        info := info[id := ComponentTrip(item.name, item.weight, None)];
      }
      left := left - {id};
    }
    return Some(info);
  }

  /** Restores a router: fails exactly when the catalogue lacks a name the message uses. */
  method DeserializeTransportRouter(p: ProtoRouter, db: TransportCatalogue)
    returns (r: Result<TransportRouter, CatalogueError>)
    requires Readable(p)
    ensures r.Success? <==> NamesFound(p, db.Now())
    ensures r.Failure? ==> r.error == CatalogueError.OutOfRange
    ensures r.Success? ==> fresh(r.value) && r.value.router != null && r.value.db == db
    ensures r.Success? ==> r.value.Now() == Restored(p)
    ensures r.Success? && Traceable(RestoredEdges(p.graph.edges), |p.graph.incidenceLists|, RestoredTable(p.routes)) ==>
              r.value.Valid()
  {
    var graph := DeserializeGraph(p.graph);
    var rows := DeserializeTable(p.routes);
    var router := new Router.Router.FromData(graph, rows);
    var settings := RoutingSettings(p.settings.busWaitTime % UINT16_LIMIT, p.settings.busVelocity % UINT16_LIMIT);
    var result := new TransportRouter.Unrouted(settings, db, graph);
    result.router := router;
    result.totalVertex := p.totalVertex;
    var vertexs := DeserializeVertexs(p, db);
    if vertexs.None? {
      return Failure(CatalogueError.OutOfRange);
    }
    result.stopVertexs := vertexs.value;
    var info := DeserializeInfo(p, db);
    if info.None? {
      return Failure(CatalogueError.OutOfRange);
    }
    result.infoAboutEdge := info.value;
    return Success(result);
  }

  /** Saves a compiled router and its catalogue, loads both, and puts the same query to the two routers. */
  method SaveLoadAndQuery(router: TransportRouter, from: string, to: string)
    returns (before: Answer, after: Answer)
    requires router.Valid() && router.db.Valid() && router.settings.busVelocity > 0
    requires AllLegsKnown(router.db.Now()) && Compiled(router.db.Now(), router.settings, router.Now())
    requires CountsFit(router.db.Now(), router.settings)
    ensures IsAnswer(router.Now(), from, to, before) && after == before
  {
    ghost var st, s := router.Now(), router.db.Now();
    CompiledFits(st, s, router.settings);
    SavedNamesFound(st, s, router.settings);
    RestoreUndoesSave(st, s);
    before := router.GetRouteInfo(from, to);
    var savedCatalogue := router.db.SaveToProto();
    var savedRouter := router.SaveToProto();
    LoadUndoesSave(s, savedCatalogue);
    var db := DeserializeTransportCatalogue(savedCatalogue);
    var restored := DeserializeTransportRouter(savedRouter, db.value);
    RestoredAnswersAlike(st, s, from, to, before);
    after := restored.value.GetRouteInfo(from, to);
    AnswerUnique(restored.value.Now(), Restored(savedRouter), from, to, after, before);
  }
  /** From the catalogue to an answer after a restart: builds the router, saves it with its catalogue, loads both and
      queries. It fails exactly when a length is missing, and the answer is a best trip. */
  method BuildSaveLoadAndQuery(settings: RoutingSettings, db: TransportCatalogue, from: string, to: string)
    returns (r: Result<Answer, CatalogueError>)
    requires db.Valid() && settings.busVelocity > 0 && CountsFit(db.Now(), settings)
    ensures r.Success? <==> AllLegsKnown(db.Now())
    ensures r.Success? && from !in db.stops ==> r.value == Failure(NoStartingStop)
    ensures r.Success? && from in db.stops && to !in db.stops ==> r.value == Failure(NoSuchName)
    ensures r.Success? && from in db.stops && to in db.stops ==>
              IsBestAnswer(db.Now(), settings, db.stops[from], db.stops[to], r.value)
  {
    var built := TransportRouter.Create(settings, db);
    if built.Failure? {
      return Failure(built.error);
    }
    var before, after := SaveLoadAndQuery(built.value, from, to);
    AnswerIsBestTrip(db.Now(), settings, built.value.Now(), from, to, before);
    return Success(after);
  }
}
