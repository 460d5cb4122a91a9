/** Trips as a passenger sees them: wait at a stop, ride one bus, change, and so on. No graph is involved. */
module Itineraries {
  import opened Wrappers
  import opened Sequences
  import opened CatalogueState
  import opened CatalogueLengths

  datatype RoutingSettings = RoutingSettings(busWaitTime: nat, busVelocity: nat)

  /** An item of an answer: a wait at a stop has no span count, a ride on a bus has one. */
  datatype ComponentTrip = ComponentTrip(name: string, weight: real, spanCount: Option<nat>)

  /** Board bus number `bus` at its position `start` and leave it at position `end`. */
  datatype Ride = Ride(bus: nat, start: nat, end: nat)

  predicate LegsKnown(lengths: LengthTable, stops: seq<nat>) {
    forall m :: 1 <= m < |stops| ==> Leg(lengths, stops[m - 1], stops[m]).Some?
  }

  predicate AllLegsKnown(s: State) {
    forall b :: 0 <= b < |s.allBuses| ==> LegsKnown(s.lengths, s.allBuses[b].stops)
  }

  /** Minutes needed for a length in metres at a velocity in km/h. */
  function Minutes(length: nat, velocity: nat): real
    requires velocity > 0
  {
    length as real / (1000.0 * velocity as real) * 60.0
  }

  /** A velocity in km/h covers a thousand metres times its value in sixty minutes. */
  lemma MinutesMeans(length: nat, velocity: nat)
    requires velocity > 0
    ensures Minutes(length, velocity) * (1000.0 * velocity as real) == 60.0 * length as real
  {
    var d := 1000.0 * velocity as real;
    assert length as real / d * d == length as real;
  }

  lemma MinutesAdds(x: nat, y: nat, velocity: nat)
    requires velocity > 0
    ensures Minutes(x + y, velocity) == Minutes(x, velocity) + Minutes(y, velocity)
  {
    var d := 1000.0 * velocity as real;
    assert (x as real + y as real) / d == x as real / d + y as real / d;
  }

  /** Time from position i to position j of a line, leg by leg, in either direction. */
  function RideTime(lengths: LengthTable, velocity: nat, stops: seq<nat>, i: nat, j: nat): (time: real)
    requires velocity > 0 && LegsKnown(lengths, stops) && i < |stops| && j < |stops|
    decreases if i < j then j - i else i - j
  {
    if i == j then 0.0
    else if i < j then
      RideTime(lengths, velocity, stops, i, j - 1) + Minutes(Leg(lengths, stops[j - 1], stops[j]).value, velocity)
    else
      assert Leg(lengths, stops[j], stops[j + 1]).Some?;
      RideTime(lengths, velocity, stops, i, j + 1) + Minutes(Leg(lengths, stops[j + 1], stops[j]).value, velocity)
  }

  function Span(r: Ride): nat {
    if r.start < r.end then r.end - r.start else r.start - r.end
  }

  /** A bus carries passengers onward, and backward as well unless it runs in a loop. */
  predicate CanRide(s: State, r: Ride) {
    && r.bus < |s.allBuses|
    && r.start < |s.allBuses[r.bus].stops| && r.end < |s.allBuses[r.bus].stops|
    && (r.start < r.end || (r.end < r.start && !s.allBuses[r.bus].isLoop))
  }

  function BoardAt(s: State, r: Ride): nat
    requires CanRide(s, r)
  {
    s.allBuses[r.bus].stops[r.start]
  }

  function LeaveAt(s: State, r: Ride): nat
    requires CanRide(s, r)
  {
    s.allBuses[r.bus].stops[r.end]
  }

  function TimeOf(s: State, velocity: nat, r: Ride): real
    requires velocity > 0 && AllLegsKnown(s) && CanRide(s, r)
  {
    RideTime(s.lengths, velocity, s.allBuses[r.bus].stops, r.start, r.end)
  }

  /** The rides lead from stop a to stop b, each boarding where the one before left. */
  predicate Connects(s: State, a: nat, b: nat, rides: seq<Ride>)
    decreases |rides|
  {
    if rides == [] then a == b
    else
      var last := rides[|rides| - 1];
      CanRide(s, last) && LeaveAt(s, last) == b && Connects(s, a, BoardAt(s, last), rides[..|rides| - 1])
  }

  predicate Rideable(s: State, rides: seq<Ride>) {
    forall m :: 0 <= m < |rides| ==> CanRide(s, rides[m])
  }

  /** Before every ride the passenger waits. */
  function TravelTime(s: State, settings: RoutingSettings, rides: seq<Ride>): real
    requires settings.busVelocity > 0 && AllLegsKnown(s) && Rideable(s, rides)
  {
    if rides == [] then 0.0
    else
      TravelTime(s, settings, rides[..|rides| - 1])
      + settings.busWaitTime as real + TimeOf(s, settings.busVelocity, rides[|rides| - 1])
  }

  function WaitItem(s: State, settings: RoutingSettings, stop: nat): ComponentTrip
    requires stop < |s.allStops|
  {
    ComponentTrip(s.allStops[stop].name, settings.busWaitTime as real, None)
  }

  function RideItem(s: State, settings: RoutingSettings, r: Ride): ComponentTrip
    requires settings.busVelocity > 0 && AllLegsKnown(s) && CanRide(s, r)
  {
    ComponentTrip(s.allBuses[r.bus].name, TimeOf(s, settings.busVelocity, r), Some(Span(r)))
  }

  /** The items that describe a trip: a wait where each ride starts, then the ride. */
  function Items(s: State, settings: RoutingSettings, rides: seq<Ride>): seq<ComponentTrip>
    requires settings.busVelocity > 0 && AllLegsKnown(s) && Rideable(s, rides) && BusStops(s.allBuses, |s.allStops|)
  {
    if rides == [] then []
    else
      var last := rides[|rides| - 1];
      assert Below(s.allBuses[last.bus].stops, |s.allStops|);
      Items(s, settings, rides[..|rides| - 1])
      + [WaitItem(s, settings, BoardAt(s, last)), RideItem(s, settings, last)]
  }

  /** A trip starts at its first stop, changes where the ride before ended, and ends at its last stop. */
  lemma {:induction false} ConnectsChain(s: State, a: nat, b: nat, rides: seq<Ride>)
    requires Connects(s, a, b, rides)
    ensures Rideable(s, rides)
    ensures rides == [] ==> a == b
    ensures rides != [] ==> BoardAt(s, rides[0]) == a && LeaveAt(s, rides[|rides| - 1]) == b
    ensures forall m :: 1 <= m < |rides| ==> LeaveAt(s, rides[m - 1]) == BoardAt(s, rides[m])
    decreases |rides|
  {
    if rides != [] {
      var init, last := rides[..|rides| - 1], rides[|rides| - 1];
      ConnectsChain(s, a, BoardAt(s, last), init);
      assert rides == init + [last];
      assert forall m :: 0 <= m < |init| ==> rides[m] == init[m];
    }
  }

  /** The items of a trip alternate: waits at the even places, rides at the odd ones, a ride at the end. */
  lemma {:induction false} ItemsAlternate(s: State, settings: RoutingSettings, rides: seq<Ride>)
    requires settings.busVelocity > 0 && AllLegsKnown(s) && Rideable(s, rides) && BusStops(s.allBuses, |s.allStops|)
    ensures |Items(s, settings, rides)| == 2 * |rides|
    ensures forall m :: 0 <= m < |rides| ==>
              s.allBuses[rides[m].bus].stops[rides[m].start] < |s.allStops|
              && Items(s, settings, rides)[2 * m] == WaitItem(s, settings, BoardAt(s, rides[m]))
              && Items(s, settings, rides)[2 * m + 1] == RideItem(s, settings, rides[m])
  {
    if rides != [] {
      ItemsAlternate(s, settings, rides[..|rides| - 1]);
      assert Below(s.allBuses[rides[|rides| - 1].bus].stops, |s.allStops|);
    }
  }

  /** What the items say: a wait names the boarding stop, takes the wait time and spans nothing; a ride names its bus,
      takes the time of the ride and spans the stops from boarding to leaving, in either direction. */
  lemma ItemsMean(s: State, settings: RoutingSettings, rides: seq<Ride>, m: nat)
    requires settings.busVelocity > 0 && AllLegsKnown(s) && Rideable(s, rides) && BusStops(s.allBuses, |s.allStops|)
    requires m < |rides|
    ensures var items, r := Items(s, settings, rides), rides[m];
      && CanRide(s, r) && |items| == 2 * |rides| && s.allBuses[r.bus].stops[r.start] < |s.allStops|
      && items[2 * m].name == s.allStops[s.allBuses[r.bus].stops[r.start]].name
      && items[2 * m].weight == settings.busWaitTime as real && items[2 * m].spanCount == None
      && items[2 * m + 1].name == s.allBuses[r.bus].name
      && items[2 * m + 1].weight == RideTime(s.lengths, settings.busVelocity, s.allBuses[r.bus].stops, r.start, r.end)
      && items[2 * m + 1].spanCount == Some(if r.start < r.end then r.end - r.start else r.start - r.end)
  {
    ItemsAlternate(s, settings, rides);
    assert CanRide(s, rides[m]) && LegsKnown(s.lengths, s.allBuses[rides[m].bus].stops);
  }

  function TotalWeight(items: seq<ComponentTrip>): real {
    if items == [] then 0.0 else TotalWeight(items[..|items| - 1]) + items[|items| - 1].weight
  }

  lemma TotalTwoMore(items: seq<ComponentTrip>, x: ComponentTrip, y: ComponentTrip)
    ensures TotalWeight(items + [x, y]) == TotalWeight(items) + x.weight + y.weight
  {
    var more := items + [x, y];
    assert more[..|items| + 1] == items + [x] && (items + [x])[..|items|] == items;
  }

  /** The time of a trip is what its items take together. */
  lemma {:induction false} TravelTimeMeans(s: State, settings: RoutingSettings, rides: seq<Ride>)
    requires settings.busVelocity > 0 && AllLegsKnown(s) && Rideable(s, rides) && BusStops(s.allBuses, |s.allStops|)
    ensures TravelTime(s, settings, rides) == TotalWeight(Items(s, settings, rides))
  {
    if rides != [] {
      var init, last := rides[..|rides| - 1], rides[|rides| - 1];
      TravelTimeMeans(s, settings, init);
      assert Below(s.allBuses[last.bus].stops, |s.allStops|);
      TotalTwoMore(Items(s, settings, init), WaitItem(s, settings, BoardAt(s, last)), RideItem(s, settings, last));
    }
  }

  // ---- Reversed lines

  lemma ReversedLegsKnown(lengths: LengthTable, stops: seq<nat>)
    requires LegsKnown(lengths, stops)
    ensures LegsKnown(lengths, Reversed(stops))
  {
    forall m | 1 <= m < |stops| ensures Leg(lengths, Reversed(stops)[m - 1], Reversed(stops)[m]).Some? {
      assert Leg(lengths, stops[|stops| - 1 - m], stops[|stops| - m]).Some?;
    }
  }

  /** Riding onward along the reversed line is riding backward along the line. */
  lemma {:induction false} RideTimeReversed(lengths: LengthTable, velocity: nat, stops: seq<nat>, i: nat, j: nat)
    requires velocity > 0 && LegsKnown(lengths, stops) && LegsKnown(lengths, Reversed(stops)) && i <= j < |stops|
    ensures RideTime(lengths, velocity, Reversed(stops), i, j) ==
            RideTime(lengths, velocity, stops, |stops| - 1 - i, |stops| - 1 - j)
    decreases j - i
  {
    if i < j {
      RideTimeReversed(lengths, velocity, stops, i, j - 1);
    }
  }

  lemma {:induction false} RideTimeNonNegative(lengths: LengthTable, velocity: nat, stops: seq<nat>, i: nat, j: nat)
    requires velocity > 0 && LegsKnown(lengths, stops) && i < |stops| && j < |stops|
    ensures RideTime(lengths, velocity, stops, i, j) >= 0.0
    decreases if i < j then j - i else i - j
  {
    if i < j {
      RideTimeNonNegative(lengths, velocity, stops, i, j - 1);
    } else if j < i {
      RideTimeNonNegative(lengths, velocity, stops, i, j + 1);
    }
  }

  // ---- What the time of a ride measures

  /** The stops from position i to position j of a line, in the order in which a ride passes them. */
  function Passed(stops: seq<nat>, i: nat, j: nat): seq<nat>
    requires i < |stops| && j < |stops|
  {
    if i <= j then stops[i..j + 1] else Reversed(stops[j..i + 1])
  }

  /** The length of a line, leg by leg. */
  function LegsLength(lengths: LengthTable, line: seq<nat>): nat
    requires LegsKnown(lengths, line)
  {
    if |line| < 2 then 0
    else LegsLength(lengths, line[..|line| - 1]) + Leg(lengths, line[|line| - 2], line[|line| - 1]).value
  }

  lemma SliceKnown(lengths: LengthTable, stops: seq<nat>, i: nat, j: nat)
    requires LegsKnown(lengths, stops) && i <= j <= |stops|
    ensures LegsKnown(lengths, stops[i..j])
  {
    forall m | 1 <= m < j - i ensures Leg(lengths, stops[i..j][m - 1], stops[i..j][m]).Some? {
      assert Leg(lengths, stops[i + m - 1], stops[i + m]).Some?;
    }
  }

  lemma LegsOneMore(lengths: LengthTable, stops: seq<nat>, i: nat, j: nat)
    requires LegsKnown(lengths, stops) && i < j < |stops|
    requires LegsKnown(lengths, stops[i..j + 1]) && LegsKnown(lengths, stops[i..j])
    ensures Leg(lengths, stops[j - 1], stops[j]).Some?
    ensures LegsLength(lengths, stops[i..j + 1]) ==
            LegsLength(lengths, stops[i..j]) + Leg(lengths, stops[j - 1], stops[j]).value
  {
    var line := stops[i..j + 1];
    assert line[..|line| - 1] == stops[i..j] && line[|line| - 2] == stops[j - 1] && line[|line| - 1] == stops[j];
  }

  lemma {:induction false} OnwardTimeMeans(lengths: LengthTable, velocity: nat, stops: seq<nat>, i: nat, j: nat)
    requires velocity > 0 && LegsKnown(lengths, stops) && i <= j < |stops| && LegsKnown(lengths, stops[i..j + 1])
    ensures RideTime(lengths, velocity, stops, i, j) == Minutes(LegsLength(lengths, stops[i..j + 1]), velocity)
    decreases j - i
  {
    if i < j {
      SliceKnown(lengths, stops, i, j);
      OnwardTimeMeans(lengths, velocity, stops, i, j - 1);
      LegsOneMore(lengths, stops, i, j);
      MinutesAdds(LegsLength(lengths, stops[i..j]), Leg(lengths, stops[j - 1], stops[j]).value, velocity);
    }
  }

  lemma BackwardTimeMeans(lengths: LengthTable, velocity: nat, stops: seq<nat>, back: seq<nat>, a: nat, b: nat)
    requires velocity > 0 && LegsKnown(lengths, stops) && back == Reversed(stops) && LegsKnown(lengths, back)
    requires a < b < |stops| && LegsKnown(lengths, back[a..b + 1])
    ensures RideTime(lengths, velocity, stops, |stops| - 1 - a, |stops| - 1 - b) ==
            Minutes(LegsLength(lengths, back[a..b + 1]), velocity)
  {
    RideTimeReversed(lengths, velocity, stops, a, b);
    OnwardTimeMeans(lengths, velocity, back, a, b);
  }

  lemma PassedBackward(stops: seq<nat>, i: nat, j: nat)
    requires j < i < |stops|
    ensures Passed(stops, i, j) == Reversed(stops)[|stops| - 1 - i..|stops| - j]
  {
  }

  lemma PassedKnown(lengths: LengthTable, stops: seq<nat>, i: nat, j: nat)
    requires LegsKnown(lengths, stops) && i < |stops| && j < |stops|
    ensures LegsKnown(lengths, Passed(stops, i, j))
  {
    if i <= j {
      SliceKnown(lengths, stops, i, j + 1);
    } else {
      SliceKnown(lengths, stops, j, i + 1);
      ReversedLegsKnown(lengths, stops[j..i + 1]);
    }
  }

  lemma BackwardRideMeans(lengths: LengthTable, velocity: nat, stops: seq<nat>, i: nat, j: nat, line: seq<nat>)
    requires velocity > 0 && LegsKnown(lengths, stops) && j < i < |stops|
    requires line == Passed(stops, i, j) && LegsKnown(lengths, line)
    ensures RideTime(lengths, velocity, stops, i, j) == Minutes(LegsLength(lengths, line), velocity)
  {
    var n, back := |stops|, Reversed(stops);
    var a, b := n - 1 - i, n - 1 - j;
    PassedBackward(stops, i, j);
    ReversedLegsKnown(lengths, stops);
    assert line == back[a..b + 1];
    BackwardTimeMeans(lengths, velocity, stops, back, a, b);
  }

  /** A ride takes the minutes in which the legs between the stops it passes are covered. */
  lemma RideTimeMeans(lengths: LengthTable, velocity: nat, stops: seq<nat>, i: nat, j: nat)
    requires velocity > 0 && LegsKnown(lengths, stops) && i < |stops| && j < |stops|
    ensures LegsKnown(lengths, Passed(stops, i, j))
    ensures RideTime(lengths, velocity, stops, i, j) == Minutes(LegsLength(lengths, Passed(stops, i, j)), velocity)
  {
    PassedKnown(lengths, stops, i, j);
    if i <= j {
      OnwardTimeMeans(lengths, velocity, stops, i, j);
    } else {
      BackwardRideMeans(lengths, velocity, stops, i, j, Passed(stops, i, j));
    }
  }
}
