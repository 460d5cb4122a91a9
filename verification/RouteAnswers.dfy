/** What a route query answers, and why that answer is the best trip there is. */
module RouteAnswers {
  import opened Wrappers
  import opened Graph
  import opened Walks
  import opened RouteTable
  import opened RouteProofs
  import opened RouteChains
  import Router
  import opened CatalogueState
  import opened Itineraries
  import opened TransitGraph

  datatype RouteInfo = RouteInfo(items: seq<ComponentTrip>, totalTime: real)

  datatype VertexIds = VertexIds(inId: VertexId, outId: VertexId)

  datatype QueryError = NoStartingStop | NoSuchName

  type Answer = Result<Option<RouteInfo>, QueryError>

  /** The fields of the transport router as a value. */
  datatype RouterState = RouterState(
    settings: RoutingSettings,
    totalVertex: nat,
    edges: seq<Edge>,
    incidenceLists: seq<seq<EdgeId>>,
    routes: Table,
    stopVertexs: map<string, VertexIds>,
    infoAboutEdge: map<EdgeId, ComponentTrip>)

  const NO_ITEMS := RouteInfo([], 0.0)

  predicate AllIn(info: map<EdgeId, ComponentTrip>, ids: seq<EdgeId>) {
    forall m :: 0 <= m < |ids| ==> ids[m] in info
  }

  function Collect(info: map<EdgeId, ComponentTrip>, ids: seq<EdgeId>): RouteInfo
    requires AllIn(info, ids)
  {
    if ids == [] then NO_ITEMS
    else
      var before, item := Collect(info, ids[..|ids| - 1]), info[ids[|ids| - 1]];
      RouteInfo(before.items + [item], before.totalTime + item.weight)
  }

  function Describe(info: map<EdgeId, ComponentTrip>,
                    route: Result<Option<Router.RouteInfo>, Router.RouterError>): Answer
  {
    match route
    case Failure(_) => Failure(NoSuchName)
    case Success(None) => Success(None)
    case Success(Some(found)) =>
      if AllIn(info, found.edges) then Success(Some(Collect(info, found.edges))) else Failure(NoSuchName)
  }

  /** r answers the query from one named stop to another. */
  ghost predicate IsAnswer(st: RouterState, from: string, to: string, r: Answer)
    requires Square(st.routes, |st.incidenceLists|)
  {
    if from !in st.stopVertexs then r == Failure(NoStartingStop)
    else if to !in st.stopVertexs then r == Failure(NoSuchName)
    else
      exists route ::
        && Router.IsRoute(st.edges, |st.incidenceLists|, st.routes,
                          st.stopVertexs[from].inId, st.stopVertexs[to].inId, route)
        && r == Describe(st.infoAboutEdge, route)
  }

  // ---- Routes of the router

  /** Equal tables and equal `from` ends give equal routes. */
  lemma RouteUnique(edges: seq<Edge>, others: seq<Edge>, n: nat, t: Table, from: VertexId, to: VertexId,
                    r: Result<Option<Router.RouteInfo>, Router.RouterError>,
                    q: Result<Option<Router.RouteInfo>, Router.RouterError>)
    requires Square(t, n) && |edges| == |others|
    requires forall id :: 0 <= id < |edges| ==> edges[id].from == others[id].from
    requires Router.IsRoute(edges, n, t, from, to, r) && Router.IsRoute(others, n, t, from, to, q)
    ensures r == q
  {
    if r.Success? && r.value.Some? {
      TraceUnique(edges, others, n, t, from, to, r.value.value.edges, q.value.value.edges);
    }
  }

  ghost predicate Reachable(edges: seq<Edge>, from: VertexId, to: VertexId) {
    exists p :: IsWalk(edges, from, to, p)
  }

  /** A route found in the finished table is a lightest walk; none is found exactly when there is no walk. */
  lemma RouteIsShortest(edges: seq<Edge>, n: nat, from: VertexId, to: VertexId,
                        r: Result<Option<Router.RouteInfo>, Router.RouterError>)
    requires Within(edges, n) && NonNegative(edges, n) && from < n && to < n
    requires Router.IsRoute(edges, n, Tables(edges, n, n), from, to, r)
    ensures r.Success?
    ensures r.value.Some? <==> Reachable(edges, from, to)
    ensures r.value.Some? ==>
      var found := r.value.value;
      && IsWalk(edges, from, to, found.edges) && Known(edges, found.edges)
      && Weight(edges, found.edges) == found.weight
      && (found.edges == [] <==> from == to)
      && (forall p :: IsWalk(edges, from, to, p) ==> Known(edges, p) && found.weight <= Weight(edges, p))
      && (forall a, b :: 0 <= a < b < |found.edges| ==> edges[found.edges[a]].from != edges[found.edges[b]].from)
  {
    FinalLeast(edges, n, from, to);
    FinalTable(edges, n);
    var t: Table := Tables(edges, n, n);
    if t[from][to].Some? {
      TraceIsWalk(edges, n, t, from, to, r.value.value.edges);
      var rank: Rank :| Descends(edges, n, t, rank);
      TraceIsSimple(edges, n, t, rank, from, to, r.value.value.edges);
    }
  }

  // ---- Walks and trips

  function VertexMap(stops: map<string, nat>): map<string, VertexIds> {
    map x | x in stops :: VertexIds(InOf(stops[x]), OutOf(stops[x]))
  }

  function InfoOf(trips: seq<Trip>): map<EdgeId, ComponentTrip> {
    map id | 0 <= id < |trips| :: trips[id].item
  }

  /** The compiled router: the table of the catalogue's graph, and the item of every edge. */
  ghost predicate Compiled(s: State, settings: RoutingSettings, st: RouterState)
    requires settings.busVelocity > 0 && AllLegsKnown(s)
  {
    var trips := GraphTrips(s, settings);
    && st.settings == settings
    && st.totalVertex == 2 * |s.allStops|
    && st.edges == EdgesOf(trips)
    && |st.incidenceLists| == 2 * |s.allStops|
    && (forall v :: 0 <= v < 2 * |s.allStops| ==> st.incidenceLists[v] == IdsFrom(st.edges, v))
    && Within(st.edges, 2 * |s.allStops|)
    && st.routes == Tables(st.edges, 2 * |s.allStops|, 2 * |s.allStops|)
    && st.stopVertexs == VertexMap(s.stops)
    && st.infoAboutEdge == InfoOf(trips)
  }

  lemma RideEdgeSound(s: State, settings: RoutingSettings, r: Ride)
    requires settings.busVelocity > 0 && AllLegsKnown(s) && BusStops(s.allBuses, |s.allStops|) && CanRide(s, r)
    ensures var t := RideTrip(s, settings, r);
      && t.item.weight == t.edge.weight && t.edge.weight >= 0.0
      && t.edge.from < 2 * |s.allStops| && t.edge.to < 2 * |s.allStops| && t.edge.from % 2 == 1
  {
    assert Below(s.allBuses[r.bus].stops, |s.allStops|);
    assert LegsKnown(s.lengths, s.allBuses[r.bus].stops);
    RideTimeNonNegative(s.lengths, settings.busVelocity, s.allBuses[r.bus].stops, r.start, r.end);
  }

  /** The edge with a number of a ride. */
  lemma RideWithId(s: State, settings: RoutingSettings, id: nat) returns (r: Ride)
    requires settings.busVelocity > 0 && AllLegsKnown(s)
    requires |s.allStops| <= id < |GraphTrips(s, settings)|
    ensures CanRide(s, r) && GraphTrips(s, settings)[id] == RideTrip(s, settings, r)
  {
    BusesTripsCount(s, settings.busVelocity, |s.allBuses|);
    r := RideNumbered(s, |s.allBuses|, id);
    RideEdgeAt(s, settings, r);
  }

  lemma TripEnds(s: State, settings: RoutingSettings, id: nat) returns (r: Ride)
    requires settings.busVelocity > 0 && AllLegsKnown(s) && BusStops(s.allBuses, |s.allStops|)
    requires id < |GraphTrips(s, settings)|
    ensures var t := GraphTrips(s, settings)[id];
      && t.item.weight == t.edge.weight && t.edge.weight >= 0.0
      && t.edge.from < 2 * |s.allStops| && t.edge.to < 2 * |s.allStops|
      && if t.edge.from % 2 == 0 then t.edge.from / 2 < |s.allStops| && t == WaitTrip(s, settings, t.edge.from / 2)
         else CanRide(s, r) && t == RideTrip(s, settings, r)
  {
    if id < |s.allStops| {
      r := Ride(0, 0, 0);
    } else {
      r := RideWithId(s, settings, id);
      RideEdgeSound(s, settings, r);
    }
  }

  /** The router never rejects the graph of a catalogue. */
  lemma GraphIsSound(s: State, settings: RoutingSettings)
    requires settings.busVelocity > 0 && AllLegsKnown(s) && BusStops(s.allBuses, |s.allStops|)
    ensures var edges, n := EdgesOf(GraphTrips(s, settings)), 2 * |s.allStops|;
      NonNegative(edges, n) && Within(edges, n) && forall id :: 0 <= id < |edges| ==> edges[id].from < n
  {
    forall id | 0 <= id < |GraphTrips(s, settings)|
      ensures var e := GraphTrips(s, settings)[id].edge;
        e.weight >= 0.0 && e.from < 2 * |s.allStops| && e.to < 2 * |s.allStops|
    {
      var r := TripEnds(s, settings, id);
    }
  }

  function ItemsAt(trips: seq<Trip>, p: seq<EdgeId>): seq<ComponentTrip>
    requires forall m :: 0 <= m < |p| ==> p[m] < |trips|
  {
    seq(|p|, m requires 0 <= m < |p| => trips[p[m]].item)
  }

  lemma ItemsAtTwoMore(trips: seq<Trip>, p: seq<EdgeId>)
    requires |p| >= 2 && forall m :: 0 <= m < |p| ==> p[m] < |trips|
    ensures ItemsAt(trips, p) == ItemsAt(trips, p[..|p| - 2]) + [trips[p[|p| - 2]].item, trips[p[|p| - 1]].item]
  {
  }

  /** A walk that arrives at a stop's in-vertex took a ride last, and waited just before it. */
  lemma LastRide(s: State, settings: RoutingSettings, trips: seq<Trip>, a: nat, b: nat, p: seq<EdgeId>)
    returns (last: Ride)
    requires settings.busVelocity > 0 && AllLegsKnown(s) && BusStops(s.allBuses, |s.allStops|)
    requires trips == GraphTrips(s, settings)
    requires IsWalk(EdgesOf(trips), InOf(a), InOf(b), p) && Known(EdgesOf(trips), p) && p != []
    ensures CanRide(s, last) && LeaveAt(s, last) == b && |p| >= 2 && BoardAt(s, last) < |s.allStops|
    ensures trips[p[|p| - 1]] == RideTrip(s, settings, last)
    ensures trips[p[|p| - 2]] == WaitTrip(s, settings, BoardAt(s, last))
    ensures IsWalk(EdgesOf(trips), InOf(a), InOf(BoardAt(s, last)), p[..|p| - 2])
    ensures Weight(EdgesOf(trips), p) == Weight(EdgesOf(trips), p[..|p| - 2])
                                         + settings.busWaitTime as real + TimeOf(s, settings.busVelocity, last)
  {
    var n := |p|;
    last := TripEnds(s, settings, p[n - 1]);
    var rest := p[..n - 1];
    assert rest != [];
    var wait := TripEnds(s, settings, rest[n - 2]);
    assert rest[..n - 2] == p[..n - 2];
  }

  lemma AddRide(s: State, settings: RoutingSettings, a: nat, before: seq<Ride>, last: Ride)
    requires settings.busVelocity > 0 && AllLegsKnown(s) && BusStops(s.allBuses, |s.allStops|)
    requires CanRide(s, last) && BoardAt(s, last) < |s.allStops|
    requires Rideable(s, before) && Connects(s, a, BoardAt(s, last), before)
    ensures var rides := before + [last];
      && Rideable(s, rides) && Connects(s, a, LeaveAt(s, last), rides)
      && TravelTime(s, settings, rides) == TravelTime(s, settings, before)
                                           + settings.busWaitTime as real + TimeOf(s, settings.busVelocity, last)
      && Items(s, settings, rides) == Items(s, settings, before)
                                      + [WaitItem(s, settings, BoardAt(s, last)), RideItem(s, settings, last)]
  {
    assert (before + [last])[..|before|] == before;
  }

  /** A walk between in-vertices is a trip of the same time and the same items. */
  lemma {:induction false} WalkIsTrip(s: State, settings: RoutingSettings, trips: seq<Trip>,
                                      a: nat, b: nat, p: seq<EdgeId>)
    returns (rides: seq<Ride>)
    requires settings.busVelocity > 0 && AllLegsKnown(s) && BusStops(s.allBuses, |s.allStops|)
    requires trips == GraphTrips(s, settings)
    requires IsWalk(EdgesOf(trips), InOf(a), InOf(b), p) && Known(EdgesOf(trips), p)
    ensures Connects(s, a, b, rides) && Rideable(s, rides)
    ensures TravelTime(s, settings, rides) == Weight(EdgesOf(trips), p)
    ensures Items(s, settings, rides) == ItemsAt(trips, p)
    decreases |p|
  {
    if p == [] {
      rides := [];
    } else {
      var last := LastRide(s, settings, trips, a, b, p);
      var init := p[..|p| - 2];
      var before := WalkIsTrip(s, settings, trips, a, BoardAt(s, last), init);
      AddRide(s, settings, a, before, last);
      rides := before + [last];
      ItemsAtTwoMore(trips, p);
    }
  }

  lemma AppendTwo(edges: seq<Edge>, i: VertexId, p: seq<EdgeId>, x: EdgeId, y: EdgeId)
    requires Known(edges, p) && x < |edges| && y < |edges|
    requires IsWalk(edges, i, edges[x].from, p) && edges[x].to == edges[y].from
    ensures IsWalk(edges, i, edges[y].to, p + [x, y]) && Known(edges, p + [x, y])
    ensures Weight(edges, p + [x, y]) == Weight(edges, p) + edges[x].weight + edges[y].weight
  {
    assert (p + [x])[..|p|] == p;
    assert (p + [x, y])[..|p| + 1] == p + [x];
  }

  /** Every trip is a walk between in-vertices of the same time. */
  lemma {:induction false} TripIsWalk(s: State, settings: RoutingSettings, trips: seq<Trip>,
                                      a: nat, b: nat, rides: seq<Ride>)
    returns (p: seq<EdgeId>)
    requires settings.busVelocity > 0 && AllLegsKnown(s) && BusStops(s.allBuses, |s.allStops|)
    requires trips == GraphTrips(s, settings)
    requires Connects(s, a, b, rides) && Rideable(s, rides)
    ensures IsWalk(EdgesOf(trips), InOf(a), InOf(b), p) && Known(EdgesOf(trips), p)
    ensures TravelTime(s, settings, rides) == Weight(EdgesOf(trips), p)
    decreases |rides|
  {
    if rides == [] {
      p := [];
    } else {
      var last := rides[|rides| - 1];
      var c := BoardAt(s, last);
      assert Below(s.allBuses[last.bus].stops, |s.allStops|);
      p := TripIsWalk(s, settings, trips, a, c, rides[..|rides| - 1]);
      var y := RideId(s, last);
      RideEdgeAt(s, settings, last);
      assert trips[c] == WaitTrip(s, settings, c);
      AppendTwo(EdgesOf(trips), InOf(a), p, c, y);
      p := p + [c, y];
    }
  }

  lemma {:induction false} CollectIsItems(s: State, settings: RoutingSettings, st: RouterState, p: seq<EdgeId>)
    requires settings.busVelocity > 0 && AllLegsKnown(s) && BusStops(s.allBuses, |s.allStops|)
    requires Compiled(s, settings, st) && Known(st.edges, p)
    ensures AllIn(st.infoAboutEdge, p)
    ensures Collect(st.infoAboutEdge, p) == RouteInfo(ItemsAt(GraphTrips(s, settings), p), Weight(st.edges, p))
  {
    if p != [] {
      CollectIsItems(s, settings, st, p[..|p| - 1]);
      var r := TripEnds(s, settings, p[|p| - 1]);
    }
  }

  // ---- Answers

  /** Every query has exactly one answer. */
  lemma AnswerUnique(st: RouterState, other: RouterState, from: string, to: string, r: Answer, q: Answer)
    requires Square(st.routes, |st.incidenceLists|) && Square(other.routes, |other.incidenceLists|)
    requires st.routes == other.routes && |st.incidenceLists| == |other.incidenceLists|
    requires st.stopVertexs == other.stopVertexs && st.infoAboutEdge == other.infoAboutEdge
    requires |st.edges| == |other.edges|
    requires forall id :: 0 <= id < |st.edges| ==> st.edges[id].from == other.edges[id].from
    requires IsAnswer(st, from, to, r) && IsAnswer(other, from, to, q)
    ensures r == q
  {
    if from in st.stopVertexs && to in st.stopVertexs {
      var n, i, j := |st.incidenceLists|, st.stopVertexs[from].inId, st.stopVertexs[to].inId;
      var x :| Router.IsRoute(st.edges, n, st.routes, i, j, x) && r == Describe(st.infoAboutEdge, x);
      var y :| Router.IsRoute(other.edges, n, other.routes, i, j, y) && q == Describe(other.infoAboutEdge, y);
      RouteUnique(st.edges, other.edges, n, st.routes, i, j, x, y);
    }
  }

  ghost predicate IsBestAnswer(s: State, settings: RoutingSettings, a: nat, b: nat, r: Answer)
    requires settings.busVelocity > 0 && AllLegsKnown(s) && BusStops(s.allBuses, |s.allStops|)
  {
    && r.Success?
    && (r.value.None? <==> forall rides :: !Connects(s, a, b, rides))
    && (r.value.Some? ==>
          && (exists rides :: Connects(s, a, b, rides) && Describes(s, settings, rides, r.value.value))
          && forall rides :: Connects(s, a, b, rides) ==>
               Rideable(s, rides) && r.value.value.totalTime <= TravelTime(s, settings, rides))
  }

  ghost predicate Describes(s: State, settings: RoutingSettings, rides: seq<Ride>, info: RouteInfo)
    requires settings.busVelocity > 0 && AllLegsKnown(s) && BusStops(s.allBuses, |s.allStops|)
  {
    Rideable(s, rides) && info == RouteInfo(Items(s, settings, rides), TravelTime(s, settings, rides))
  }

  /** The route between two stops' in-vertices that a compiled router finds. */
  ghost predicate StopRoute(s: State, settings: RoutingSettings, a: nat, b: nat,
                            route: Result<Option<Router.RouteInfo>, Router.RouterError>)
    requires settings.busVelocity > 0 && AllLegsKnown(s)
  {
    var n, edges := 2 * |s.allStops|, EdgesOf(GraphTrips(s, settings));
    Within(edges, n) && Router.IsRoute(edges, n, Tables(edges, n, n), InOf(a), InOf(b), route)
  }

  lemma NoTripIsFaster(s: State, settings: RoutingSettings, a: nat, b: nat,
                       route: Result<Option<Router.RouteInfo>, Router.RouterError>, rides: seq<Ride>)
    requires settings.busVelocity > 0 && AllLegsKnown(s) && BusStops(s.allBuses, |s.allStops|)
    requires a < |s.allStops| && b < |s.allStops| && StopRoute(s, settings, a, b, route)
    requires Connects(s, a, b, rides)
    ensures Rideable(s, rides)
    ensures route.Success? && route.value.Some? && route.value.value.weight <= TravelTime(s, settings, rides)
  {
    var trips := GraphTrips(s, settings);
    ConnectsChain(s, a, b, rides);
    GraphIsSound(s, settings);
    var p := TripIsWalk(s, settings, trips, a, b, rides);
    var edges, n, i, j := EdgesOf(trips), 2 * |s.allStops|, InOf(a), InOf(b);
    RouteIsShortest(edges, n, i, j, route);
    assert Reachable(edges, i, j);
    assert IsWalk(edges, i, j, p);
  }

  lemma FoundRouteIsTrip(s: State, settings: RoutingSettings, st: RouterState, a: nat, b: nat,
                         route: Result<Option<Router.RouteInfo>, Router.RouterError>) returns (rides: seq<Ride>)
    requires settings.busVelocity > 0 && AllLegsKnown(s) && BusStops(s.allBuses, |s.allStops|)
    requires Compiled(s, settings, st)
    requires a < |s.allStops| && b < |s.allStops| && StopRoute(s, settings, a, b, route)
    requires route.Success? && route.value.Some?
    ensures AllIn(st.infoAboutEdge, route.value.value.edges)
    ensures Connects(s, a, b, rides)
    ensures Describes(s, settings, rides, Collect(st.infoAboutEdge, route.value.value.edges))
    ensures TravelTime(s, settings, rides) == route.value.value.weight
  {
    var trips := GraphTrips(s, settings);
    GraphIsSound(s, settings);
    RouteIsShortest(EdgesOf(trips), 2 * |s.allStops|, InOf(a), InOf(b), route);
    rides := WalkIsTrip(s, settings, trips, a, b, route.value.value.edges);
    CollectIsItems(s, settings, st, route.value.value.edges);
  }

  lemma RouteIsBestAnswer(s: State, settings: RoutingSettings, st: RouterState, a: nat, b: nat,
                          route: Result<Option<Router.RouteInfo>, Router.RouterError>)
    requires settings.busVelocity > 0 && AllLegsKnown(s) && BusStops(s.allBuses, |s.allStops|)
    requires Compiled(s, settings, st)
    requires a < |s.allStops| && b < |s.allStops| && StopRoute(s, settings, a, b, route)
    ensures IsBestAnswer(s, settings, a, b, Describe(st.infoAboutEdge, route))
  {
    var r := Describe(st.infoAboutEdge, route);
    forall rides | Connects(s, a, b, rides)
      ensures Rideable(s, rides) && route.Success? && route.value.Some?
      ensures route.value.value.weight <= TravelTime(s, settings, rides)
    {
      NoTripIsFaster(s, settings, a, b, route, rides);
    }
    if route.Success? && route.value.Some? {
      var rides := FoundRouteIsTrip(s, settings, st, a, b, route);
      assert Connects(s, a, b, rides) && Describes(s, settings, rides, r.value.value);
    }
  }

  /** The answer of a compiled router: an unknown name fails; otherwise there is none exactly when no trip
      connects the stops, and the one given describes a trip of least time, with that time. */
  lemma AnswerIsBestTrip(s: State, settings: RoutingSettings, st: RouterState, from: string, to: string, r: Answer)
    requires WellFormed(s) && settings.busVelocity > 0 && AllLegsKnown(s) && Compiled(s, settings, st)
    requires IsAnswer(st, from, to, r)
    ensures from !in s.stops ==> r == Failure(NoStartingStop)
    ensures from in s.stops && to !in s.stops ==> r == Failure(NoSuchName)
    ensures from in s.stops && to in s.stops ==> IsBestAnswer(s, settings, s.stops[from], s.stops[to], r)
  {
    if from in s.stops && to in s.stops {
      var n, a, b := 2 * |s.allStops|, s.stops[from], s.stops[to];
      var route :| Router.IsRoute(st.edges, n, st.routes, InOf(a), InOf(b), route)
                   && r == Describe(st.infoAboutEdge, route);
      RouteIsBestAnswer(s, settings, st, a, b, route);
    }
  }
}
