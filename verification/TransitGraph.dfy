/** The graph transport_router.cpp compiles a catalogue into: two vertices per stop, an edge per wait and per ride. */
module TransitGraph {
  import opened Wrappers
  import opened Sequences
  import opened Graph
  import opened CatalogueState
  import opened CatalogueLengths
  import opened Itineraries

  /** An edge together with the item stored for it. */
  datatype Trip = Trip(edge: Edge, item: ComponentTrip)

  /** Passengers arrive at the in-vertex of a stop, and board from its out-vertex after waiting. */
  function InOf(stop: nat): VertexId { 2 * stop }

  function OutOf(stop: nat): VertexId { 2 * stop + 1 }

  function WaitTrip(s: State, settings: RoutingSettings, stop: nat): Trip
    requires stop < |s.allStops|
  {
    Trip(Edge(InOf(stop), OutOf(stop), settings.busWaitTime as real), WaitItem(s, settings, stop))
  }

  function WaitTrips(s: State, settings: RoutingSettings, k: nat): seq<Trip>
    requires k <= |s.allStops|
  {
    seq(k, i requires 0 <= i < k => WaitTrip(s, settings, i))
  }

  /** Riding a line onward from position i to position j. */
  function LineTrip(lengths: LengthTable, velocity: nat, name: string, line: seq<nat>, i: nat, j: nat): Trip
    requires velocity > 0 && LegsKnown(lengths, line) && i < j < |line|
  {
    var time := RideTime(lengths, velocity, line, i, j);
    Trip(Edge(OutOf(line[i]), InOf(line[j]), time), ComponentTrip(name, time, Some(j - i)))
  }

  /** From position i to each position after it and before `end`, in order. */
  function TripsFrom(lengths: LengthTable, velocity: nat, name: string, line: seq<nat>, i: nat, end: nat): seq<Trip>
    requires velocity > 0 && LegsKnown(lengths, line) && i < end <= |line|
  {
    seq(end - i - 1, m requires 0 <= m < end - i - 1 => LineTrip(lengths, velocity, name, line, i, i + 1 + m))
  }

  lemma TripsFromStep(lengths: LengthTable, velocity: nat, name: string, line: seq<nat>, i: nat, j: nat)
    requires velocity > 0 && LegsKnown(lengths, line) && i < j < |line|
    ensures TripsFrom(lengths, velocity, name, line, i, j + 1) ==
            TripsFrom(lengths, velocity, name, line, i, j) + [LineTrip(lengths, velocity, name, line, i, j)]
  {
  }

  /** From each of the first k positions to all later ones. */
  function LineTrips(lengths: LengthTable, velocity: nat, name: string, line: seq<nat>, k: nat): seq<Trip>
    requires velocity > 0 && LegsKnown(lengths, line) && k <= |line|
  {
    if k == 0 then []
    else
      LineTrips(lengths, velocity, name, line, k - 1) + TripsFrom(lengths, velocity, name, line, k - 1, |line|)
  }

  function BusTrips(lengths: LengthTable, velocity: nat, bus: Bus): seq<Trip>
    requires velocity > 0 && LegsKnown(lengths, bus.stops)
  {
    ReversedLegsKnown(lengths, bus.stops);
    LineTrips(lengths, velocity, bus.name, bus.stops, |bus.stops|)
    + if bus.isLoop then [] else LineTrips(lengths, velocity, bus.name, Reversed(bus.stops), |bus.stops|)
  }

  function BusesTrips(s: State, velocity: nat, k: nat): seq<Trip>
    requires velocity > 0 && AllLegsKnown(s) && k <= |s.allBuses|
  {
    if k == 0 then [] else BusesTrips(s, velocity, k - 1) + BusTrips(s.lengths, velocity, s.allBuses[k - 1])
  }

  lemma BusesTripsStep(s: State, velocity: nat, k: nat, waits: seq<Trip>)
    requires velocity > 0 && AllLegsKnown(s) && k < |s.allBuses|
    ensures waits + BusesTrips(s, velocity, k + 1) ==
            waits + BusesTrips(s, velocity, k) + BusTrips(s.lengths, velocity, s.allBuses[k])
  {
    ConcatAssociates(waits, BusesTrips(s, velocity, k), BusTrips(s.lengths, velocity, s.allBuses[k]));
  }

  /** All edges in the order in which they are added. */
  function GraphTrips(s: State, settings: RoutingSettings): seq<Trip>
    requires settings.busVelocity > 0 && AllLegsKnown(s)
  {
    WaitTrips(s, settings, |s.allStops|) + BusesTrips(s, settings.busVelocity, |s.allBuses|)
  }

  function EdgesOf(trips: seq<Trip>): seq<Edge> {
    seq(|trips|, id requires 0 <= id < |trips| => trips[id].edge)
  }

  // ---- The order of the double loop

  /** How many pairs of an earlier and a later position a line of n stops has with the earlier one below i. */
  function PairsBelow(n: nat, i: nat): nat
    requires i <= n
  {
    if i == 0 then 0 else PairsBelow(n, i - 1) + (n - i)
  }

  /** The place of a pair in the order of the double loop. */
  function PairPlace(n: nat, i: nat, j: nat): nat
    requires i < j < n
  {
    PairsBelow(n, i) + (j - i - 1)
  }

  lemma {:induction false} PairsBelowCount(n: nat, i: nat)
    requires i <= n
    ensures 2 * PairsBelow(n, i) == i * (2 * n - i - 1)
  {
    if i > 0 {
      PairsBelowCount(n, i - 1);
    }
  }

  lemma {:induction false} PairsBelowGrow(n: nat, a: nat, b: nat)
    requires a <= b <= n
    ensures PairsBelow(n, a) <= PairsBelow(n, b)
  {
    if a < b {
      PairsBelowGrow(n, a, b - 1);
    }
  }

  lemma PairPlaceBelow(n: nat, i: nat, j: nat, k: nat)
    requires i < j < n && i < k <= n
    ensures PairPlace(n, i, j) < PairsBelow(n, k)
  {
    PairsBelowGrow(n, i + 1, k);
  }

  lemma PairPlaceOrdered(n: nat, i: nat, j: nat, k: nat, l: nat)
    requires i < j < n && k < l < n && (i < k || (i == k && j < l))
    ensures PairPlace(n, i, j) < PairPlace(n, k, l)
  {
    if i < k {
      PairPlaceBelow(n, i, j, k);
    }
  }

  lemma PairPlaceDiffers(n: nat, i: nat, j: nat, k: nat, l: nat)
    requires i < j < n && k < l < n && (i, j) != (k, l)
    ensures PairPlace(n, i, j) != PairPlace(n, k, l)
  {
    if i < k {
      PairPlaceBelow(n, i, j, k);
    } else if k < i {
      PairPlaceBelow(n, k, l, i);
    }
  }

  lemma {:induction false} PairAt(n: nat, k: nat, place: nat) returns (i: nat, j: nat)
    requires k <= n && place < PairsBelow(n, k)
    ensures i < k && i < j < n && PairPlace(n, i, j) == place
  {
    if place < PairsBelow(n, k - 1) {
      i, j := PairAt(n, k - 1, place);
    } else {
      i, j := k - 1, k + (place - PairsBelow(n, k - 1));
    }
  }

  lemma {:induction false} LineTripsCount(lengths: LengthTable, velocity: nat, name: string, line: seq<nat>, k: nat)
    requires velocity > 0 && LegsKnown(lengths, line) && k <= |line|
    ensures |LineTrips(lengths, velocity, name, line, k)| == PairsBelow(|line|, k)
  {
    if k > 0 {
      LineTripsCount(lengths, velocity, name, line, k - 1);
    }
  }

  lemma {:induction false} LineTripAt(lengths: LengthTable, velocity: nat, name: string, line: seq<nat>, k: nat,
                                      i: nat, j: nat)
    requires velocity > 0 && LegsKnown(lengths, line) && i < k <= |line| && i < j < |line|
    ensures var trips, place := LineTrips(lengths, velocity, name, line, k), PairPlace(|line|, i, j);
      place < |trips| && trips[place] == LineTrip(lengths, velocity, name, line, i, j)
  {
    LineTripsCount(lengths, velocity, name, line, k - 1);
    if i < k - 1 {
      LineTripAt(lengths, velocity, name, line, k - 1, i, j);
    } else {
      assert TripsFrom(lengths, velocity, name, line, i, |line|)[j - i - 1] ==
             LineTrip(lengths, velocity, name, line, i, j);
    }
  }

  predicate HasPair(n: nat, place: nat) {
    exists i, j :: 0 <= i < j < n && PairPlace(n, i, j) == place
  }

  /** The double loop yields one edge for every earlier and later position of the line, at the place of the pair;
      places differ for different pairs, grow with the earlier position and then with the later one, and there are
      no others. */
  lemma LineTripsExact(lengths: LengthTable, velocity: nat, name: string, line: seq<nat>)
    requires velocity > 0 && LegsKnown(lengths, line)
    ensures var n, trips := |line|, LineTrips(lengths, velocity, name, line, |line|);
      && 2 * |trips| == n * (n - 1)
      && (forall i, j :: 0 <= i < j < n ==>
            PairPlace(n, i, j) < |trips| && trips[PairPlace(n, i, j)] == LineTrip(lengths, velocity, name, line, i, j))
      && (forall i, j, k, l :: 0 <= i < j < n && 0 <= k < l < n && PairPlace(n, i, j) == PairPlace(n, k, l) ==>
            i == k && j == l)
      && (forall i, j, k, l :: 0 <= i < j < n && 0 <= k < l < n && (i < k || (i == k && j < l)) ==>
            PairPlace(n, i, j) < PairPlace(n, k, l))
      && (forall place :: 0 <= place < |trips| ==> HasPair(n, place))
  {
    var n, trips := |line|, LineTrips(lengths, velocity, name, line, |line|);
    LineTripsCount(lengths, velocity, name, line, n);
    PairsBelowCount(n, n);
    forall i, j | 0 <= i < j < n
      ensures PairPlace(n, i, j) < |trips| && trips[PairPlace(n, i, j)] == LineTrip(lengths, velocity, name, line, i, j)
    {
      LineTripAt(lengths, velocity, name, line, n, i, j);
    }
    forall i, j, k, l | 0 <= i < j < n && 0 <= k < l < n && PairPlace(n, i, j) == PairPlace(n, k, l)
      ensures i == k && j == l
    {
      if (i, j) != (k, l) {
        PairPlaceDiffers(n, i, j, k, l);
      }
    }
    forall i, j, k, l | 0 <= i < j < n && 0 <= k < l < n && (i < k || (i == k && j < l))
      ensures PairPlace(n, i, j) < PairPlace(n, k, l)
    {
      PairPlaceOrdered(n, i, j, k, l);
    }
    forall place | 0 <= place < |trips| ensures HasPair(n, place) {
      var i, j := PairAt(n, n, place);
    }
  }

  // ---- The numbering of all edges

  /** The ride that a trip along line number b, onward or along its reversal, stands for. */
  function RideFor(s: State, b: nat, backward: bool, i: nat, j: nat): Ride
    requires b < |s.allBuses| && i < j < |s.allBuses[b].stops|
  {
    var n := |s.allBuses[b].stops|;
    if backward then Ride(b, n - 1 - i, n - 1 - j) else Ride(b, i, j)
  }

  function RideTrip(s: State, settings: RoutingSettings, r: Ride): Trip
    requires settings.busVelocity > 0 && AllLegsKnown(s) && CanRide(s, r)
  {
    Trip(Edge(OutOf(BoardAt(s, r)), InOf(LeaveAt(s, r)), TimeOf(s, settings.busVelocity, r)), RideItem(s, settings, r))
  }

  lemma LineTripIsRide(s: State, settings: RoutingSettings, b: nat, backward: bool, i: nat, j: nat)
    requires settings.busVelocity > 0 && AllLegsKnown(s) && b < |s.allBuses| && i < j < |s.allBuses[b].stops|
    requires backward ==> !s.allBuses[b].isLoop
    ensures var bus := s.allBuses[b];
      var line := if backward then Reversed(bus.stops) else bus.stops;
      && LegsKnown(s.lengths, line) && CanRide(s, RideFor(s, b, backward, i, j))
      && LineTrip(s.lengths, settings.busVelocity, bus.name, line, i, j) ==
         RideTrip(s, settings, RideFor(s, b, backward, i, j))
  {
    assert LegsKnown(s.lengths, s.allBuses[b].stops);
    ReversedLegsKnown(s.lengths, s.allBuses[b].stops);
    RideTimeReversed(s.lengths, settings.busVelocity, s.allBuses[b].stops, i, j);
  }

  /** How many rides a bus offers. */
  function RidesOf(bus: Bus): nat {
    var n := |bus.stops|;
    if bus.isLoop then PairsBelow(n, n) else 2 * PairsBelow(n, n)
  }

  /** The place of a ride among those of its bus: onward ones first, backward ones as on the reversed line. */
  function RidePlace(s: State, r: Ride): nat
    requires CanRide(s, r)
  {
    var n := |s.allBuses[r.bus].stops|;
    if r.start < r.end then PairPlace(n, r.start, r.end)
    else PairsBelow(n, n) + PairPlace(n, n - 1 - r.start, n - 1 - r.end)
  }

  function RidesBefore(buses: seq<Bus>, b: nat): nat
    requires b <= |buses|
  {
    if b == 0 then 0 else RidesBefore(buses, b - 1) + RidesOf(buses[b - 1])
  }

  /** The number of a ride's edge: after the waits, after the rides of earlier buses, at its place. */
  function RideId(s: State, r: Ride): EdgeId
    requires CanRide(s, r)
  {
    |s.allStops| + RidesBefore(s.allBuses, r.bus) + RidePlace(s, r)
  }

  lemma {:induction false} RidesBeforeGrow(buses: seq<Bus>, a: nat, b: nat)
    requires a <= b <= |buses|
    ensures RidesBefore(buses, a) <= RidesBefore(buses, b)
  {
    if a < b {
      RidesBeforeGrow(buses, a, b - 1);
    }
  }

  lemma RidePlaceBelow(s: State, r: Ride)
    requires CanRide(s, r)
    ensures RidePlace(s, r) < RidesOf(s.allBuses[r.bus])
  {
    var n := |s.allBuses[r.bus].stops|;
    if r.start < r.end {
      PairPlaceBelow(n, r.start, r.end, n);
    } else {
      PairPlaceBelow(n, n - 1 - r.start, n - 1 - r.end, n);
    }
  }

  lemma RidePlaceDiffers(s: State, r: Ride, q: Ride)
    requires CanRide(s, r) && CanRide(s, q) && r.bus == q.bus && r != q
    ensures RidePlace(s, r) != RidePlace(s, q)
  {
    var n := |s.allBuses[r.bus].stops|;
    if r.start < r.end && q.start < q.end {
      PairPlaceDiffers(n, r.start, r.end, q.start, q.end);
    } else if r.start < r.end {
      PairPlaceBelow(n, r.start, r.end, n);
    } else if q.start < q.end {
      PairPlaceBelow(n, q.start, q.end, n);
    } else {
      PairPlaceDiffers(n, n - 1 - r.start, n - 1 - r.end, n - 1 - q.start, n - 1 - q.end);
    }
  }

  /** r comes before q: its bus was added earlier, or on the same bus it leads onward and q backward, or both lead
      the same way and it starts, or else ends, sooner on that way. */
  predicate Sooner(r: Ride, q: Ride) {
    || r.bus < q.bus
    || (r.bus == q.bus &&
        (|| (r.start < r.end && q.end < q.start)
         || (r.start < r.end && q.start < q.end && (r.start < q.start || (r.start == q.start && r.end < q.end)))
         || (r.end < r.start && q.end < q.start && (q.start < r.start || (r.start == q.start && q.end < r.end)))))
  }

  lemma RidePlaceOrdered(s: State, r: Ride, q: Ride)
    requires CanRide(s, r) && CanRide(s, q) && r.bus == q.bus && Sooner(r, q)
    ensures RidePlace(s, r) < RidePlace(s, q)
  {
    var n := |s.allBuses[r.bus].stops|;
    if q.start < q.end {
      PairPlaceOrdered(n, r.start, r.end, q.start, q.end);
    } else if r.start < r.end {
      PairPlaceBelow(n, r.start, r.end, n);
    } else {
      PairPlaceOrdered(n, n - 1 - r.start, n - 1 - r.end, n - 1 - q.start, n - 1 - q.end);
    }
  }

  lemma RideIdOrdered(s: State, r: Ride, q: Ride)
    requires CanRide(s, r) && CanRide(s, q) && Sooner(r, q)
    ensures RideId(s, r) < RideId(s, q)
  {
    RidePlaceBelow(s, r);
    if r.bus < q.bus {
      RidesBeforeGrow(s.allBuses, r.bus + 1, q.bus);
    } else {
      RidePlaceOrdered(s, r, q);
    }
  }

  lemma RideAtPlace(s: State, b: nat, place: nat) returns (r: Ride)
    requires b < |s.allBuses| && place < RidesOf(s.allBuses[b])
    ensures r.bus == b && CanRide(s, r) && RidePlace(s, r) == place
  {
    var n := |s.allBuses[b].stops|;
    var half := PairsBelow(n, n);
    var i, j := PairAt(n, n, if place < half then place else place - half);
    r := RideFor(s, b, place >= half, i, j);
  }

  /** Rides of different buses have different numbers, too. */
  lemma RideIdDiffers(s: State, r: Ride, q: Ride)
    requires CanRide(s, r) && CanRide(s, q) && r != q
    ensures RideId(s, r) != RideId(s, q)
  {
    RidePlaceBelow(s, r);
    RidePlaceBelow(s, q);
    if r.bus < q.bus {
      RidesBeforeGrow(s.allBuses, r.bus + 1, q.bus);
    } else if q.bus < r.bus {
      RidesBeforeGrow(s.allBuses, q.bus + 1, r.bus);
    } else {
      RidePlaceDiffers(s, r, q);
    }
  }

  lemma {:induction false} RideNumbered(s: State, k: nat, id: EdgeId) returns (r: Ride)
    requires k <= |s.allBuses| && |s.allStops| <= id < |s.allStops| + RidesBefore(s.allBuses, k)
    ensures CanRide(s, r) && RideId(s, r) == id
  {
    var before := |s.allStops| + RidesBefore(s.allBuses, k - 1);
    if id < before {
      r := RideNumbered(s, k - 1, id);
    } else {
      r := RideAtPlace(s, k - 1, id - before);
    }
  }

  lemma BusTripsCount(lengths: LengthTable, velocity: nat, bus: Bus)
    requires velocity > 0 && LegsKnown(lengths, bus.stops)
    ensures |BusTrips(lengths, velocity, bus)| == RidesOf(bus)
  {
    ReversedLegsKnown(lengths, bus.stops);
    LineTripsCount(lengths, velocity, bus.name, bus.stops, |bus.stops|);
    LineTripsCount(lengths, velocity, bus.name, Reversed(bus.stops), |bus.stops|);
  }

  lemma {:induction false} BusesTripsCount(s: State, velocity: nat, k: nat)
    requires velocity > 0 && AllLegsKnown(s) && k <= |s.allBuses|
    ensures |BusesTrips(s, velocity, k)| == RidesBefore(s.allBuses, k)
  {
    if k > 0 {
      BusesTripsCount(s, velocity, k - 1);
      BusTripsCount(s.lengths, velocity, s.allBuses[k - 1]);
    }
  }

  lemma OnwardTripAt(lengths: LengthTable, velocity: nat, bus: Bus, i: nat, j: nat)
    requires velocity > 0 && LegsKnown(lengths, bus.stops) && i < j < |bus.stops|
    ensures var trips, place := BusTrips(lengths, velocity, bus), PairPlace(|bus.stops|, i, j);
      place < |trips| && trips[place] == LineTrip(lengths, velocity, bus.name, bus.stops, i, j)
  {
    LineTripAt(lengths, velocity, bus.name, bus.stops, |bus.stops|, i, j);
  }

  lemma BackwardTripAt(lengths: LengthTable, velocity: nat, bus: Bus, i: nat, j: nat)
    requires velocity > 0 && LegsKnown(lengths, bus.stops) && LegsKnown(lengths, Reversed(bus.stops))
    requires i < j < |bus.stops| && !bus.isLoop
    ensures var trips := BusTrips(lengths, velocity, bus);
      var place := PairsBelow(|bus.stops|, |bus.stops|) + PairPlace(|bus.stops|, i, j);
      place < |trips| && trips[place] == LineTrip(lengths, velocity, bus.name, Reversed(bus.stops), i, j)
  {
    LineTripsCount(lengths, velocity, bus.name, bus.stops, |bus.stops|);
    LineTripAt(lengths, velocity, bus.name, Reversed(bus.stops), |bus.stops|, i, j);
  }

  lemma BackwardLineTrip(s: State, settings: RoutingSettings, b: nat, i: nat, j: nat)
    requires settings.busVelocity > 0 && AllLegsKnown(s) && b < |s.allBuses| && i < j < |s.allBuses[b].stops|
    requires !s.allBuses[b].isLoop
    ensures var bus := s.allBuses[b];
      && LegsKnown(s.lengths, bus.stops) && LegsKnown(s.lengths, Reversed(bus.stops))
      && CanRide(s, RideFor(s, b, true, i, j))
      && LineTrip(s.lengths, settings.busVelocity, bus.name, Reversed(bus.stops), i, j) ==
         RideTrip(s, settings, RideFor(s, b, true, i, j))
  {
    LineTripIsRide(s, settings, b, true, i, j);
  }

  lemma BackwardRideAt(s: State, settings: RoutingSettings, b: nat, i: nat, j: nat)
    requires settings.busVelocity > 0 && AllLegsKnown(s) && b < |s.allBuses| && i < j < |s.allBuses[b].stops|
    requires !s.allBuses[b].isLoop && CanRide(s, RideFor(s, b, true, i, j))
    requires LegsKnown(s.lengths, s.allBuses[b].stops)
    ensures var trips, n := BusTrips(s.lengths, settings.busVelocity, s.allBuses[b]), |s.allBuses[b].stops|;
      var place := PairsBelow(n, n) + PairPlace(n, i, j);
      place < |trips| && trips[place] == RideTrip(s, settings, RideFor(s, b, true, i, j))
  {
    BackwardLineTrip(s, settings, b, i, j);
    BackwardTripAt(s.lengths, settings.busVelocity, s.allBuses[b], i, j);
  }

  lemma RideTripAt(s: State, settings: RoutingSettings, r: Ride)
    requires settings.busVelocity > 0 && AllLegsKnown(s) && CanRide(s, r)
    requires LegsKnown(s.lengths, s.allBuses[r.bus].stops)
    ensures var trips := BusTrips(s.lengths, settings.busVelocity, s.allBuses[r.bus]);
      RidePlace(s, r) < |trips| && trips[RidePlace(s, r)] == RideTrip(s, settings, r)
  {
    var bus := s.allBuses[r.bus];
    if r.start < r.end {
      LineTripIsRide(s, settings, r.bus, false, r.start, r.end);
      OnwardTripAt(s.lengths, settings.busVelocity, bus, r.start, r.end);
    } else {
      var i, j := |bus.stops| - 1 - r.start, |bus.stops| - 1 - r.end;
      assert RideFor(s, r.bus, true, i, j) == r;
      BackwardRideAt(s, settings, r.bus, i, j);
    }
  }

  lemma {:induction false} BusesTripAt(s: State, velocity: nat, k: nat, b: nat, place: nat)
    requires velocity > 0 && AllLegsKnown(s) && b < k <= |s.allBuses|
    requires LegsKnown(s.lengths, s.allBuses[b].stops)
    requires place < |BusTrips(s.lengths, velocity, s.allBuses[b])|
    ensures var trips, id := BusesTrips(s, velocity, k), RidesBefore(s.allBuses, b) + place;
      id < |trips| && trips[id] == BusTrips(s.lengths, velocity, s.allBuses[b])[place]
  {
    var last := k - 1;
    BusesTripsCount(s, velocity, last);
    if b < last {
      BusesTripAt(s, velocity, last, b, place);
    }
  }

  lemma RideEdgeAt(s: State, settings: RoutingSettings, r: Ride)
    requires settings.busVelocity > 0 && AllLegsKnown(s) && CanRide(s, r)
    ensures var trips := GraphTrips(s, settings);
      RideId(s, r) < |trips| && trips[RideId(s, r)] == RideTrip(s, settings, r)
  {
    RideTripAt(s, settings, r);
    BusesTripAt(s, settings.busVelocity, |s.allBuses|, r.bus, RidePlace(s, r));
  }

  ghost predicate HasRide(s: State, id: EdgeId) {
    exists r :: CanRide(s, r) && RideId(s, r) == id
  }

  /** The numbers of the waits are those of the stops; the other edges have exactly the numbers of the rides,
      each edge the number of one ride, and sooner rides have smaller numbers. */
  lemma GraphTripsExact(s: State, settings: RoutingSettings)
    requires settings.busVelocity > 0 && AllLegsKnown(s)
    ensures var trips := GraphTrips(s, settings);
      && |trips| == |s.allStops| + RidesBefore(s.allBuses, |s.allBuses|)
      && (forall i :: 0 <= i < |s.allStops| ==> trips[i] == WaitTrip(s, settings, i))
      && (forall r :: CanRide(s, r) ==>
            |s.allStops| <= RideId(s, r) < |trips| && trips[RideId(s, r)] == RideTrip(s, settings, r))
      && (forall r, q :: CanRide(s, r) && CanRide(s, q) && RideId(s, r) == RideId(s, q) ==> r == q)
      && (forall r, q :: CanRide(s, r) && CanRide(s, q) && Sooner(r, q) ==> RideId(s, r) < RideId(s, q))
      && (forall id :: |s.allStops| <= id < |trips| ==> HasRide(s, id))
  {
    var trips := GraphTrips(s, settings);
    BusesTripsCount(s, settings.busVelocity, |s.allBuses|);
    forall r | CanRide(s, r)
      ensures |s.allStops| <= RideId(s, r) < |trips| && trips[RideId(s, r)] == RideTrip(s, settings, r)
    {
      RideEdgeAt(s, settings, r);
    }
    forall r, q | CanRide(s, r) && CanRide(s, q) && RideId(s, r) == RideId(s, q) ensures r == q {
      if r != q {
        RideIdDiffers(s, r, q);
      }
    }
    forall r, q | CanRide(s, r) && CanRide(s, q) && Sooner(r, q) ensures RideId(s, r) < RideId(s, q) {
      RideIdOrdered(s, r, q);
    }
    forall id | |s.allStops| <= id < |trips| ensures HasRide(s, id) {
      var r := RideNumbered(s, |s.allBuses|, id);
    }
  }

  /** What the edges and the items stored for them hold. */
  lemma EdgesMean(s: State, settings: RoutingSettings, stop: nat, r: Ride)
    requires settings.busVelocity > 0 && AllLegsKnown(s) && stop < |s.allStops| && CanRide(s, r)
    ensures GraphTrips(s, settings)[stop] ==
            Trip(Edge(2 * stop, 2 * stop + 1, settings.busWaitTime as real),
                 ComponentTrip(s.allStops[stop].name, settings.busWaitTime as real, None))
    ensures RideId(s, r) < |GraphTrips(s, settings)|
    ensures var bus := s.allBuses[r.bus];
      var time := RideTime(s.lengths, settings.busVelocity, bus.stops, r.start, r.end);
      GraphTrips(s, settings)[RideId(s, r)] ==
      Trip(Edge(2 * bus.stops[r.start] + 1, 2 * bus.stops[r.end], time),
           ComponentTrip(bus.name, time, Some(if r.start < r.end then r.end - r.start else r.start - r.end)))
  {
    assert LegsKnown(s.lengths, s.allBuses[r.bus].stops);
    RideEdgeAt(s, settings, r);
  }

  /** A bus with n stops gets an edge for each of the n(n - 1) / 2 pairs of positions, twice unless it loops. */
  lemma RidesCounted(bus: Bus)
    ensures var n := |bus.stops|; (if bus.isLoop then 2 else 1) * RidesOf(bus) == n * (n - 1)
  {
    PairsBelowCount(|bus.stops|, |bus.stops|);
  }
}
