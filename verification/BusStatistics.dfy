/** Bus statistics and the router measure the same roads. */
module BusStatistics {
  import opened Wrappers
  import opened Sequences
  import opened CatalogueState
  import opened CatalogueLengths
  import opened Itineraries
  import opened TransitGraph

  lemma RecordedLegsKnown(lengths: LengthTable, stops: seq<nat>)
    requires AllRecorded(lengths, stops)
    ensures LegsKnown(lengths, stops)
  {
    forall m | 1 <= m < |stops| ensures Leg(lengths, stops[m - 1], stops[m]).Some? {
      assert Recorded(lengths, stops[m - 1], stops[m]).Some?;
    }
  }

  lemma {:induction false} RideTimePrefix(lengths: LengthTable, velocity: nat, stops: seq<nat>, k: nat, j: nat)
    requires velocity > 0 && LegsKnown(lengths, stops) && j < k <= |stops| && LegsKnown(lengths, stops[..k])
    ensures RideTime(lengths, velocity, stops[..k], 0, j) == RideTime(lengths, velocity, stops, 0, j)
  {
    if j > 0 {
      RideTimePrefix(lengths, velocity, stops, k, j - 1);
    }
  }

  /** The recorded lengths along a line, in minutes, are its end-to-end ride. */
  lemma {:induction false} SumIsRide(lengths: LengthTable, velocity: nat, stops: seq<nat>)
    requires velocity > 0 && stops != [] && AllRecorded(lengths, stops) && LegsKnown(lengths, stops)
    ensures SumRecorded(lengths, stops).Some?
    ensures Minutes(SumRecorded(lengths, stops).value, velocity) ==
            RideTime(lengths, velocity, stops, 0, |stops| - 1)
  {
    SumRecordedDefined(lengths, stops);
    if |stops| > 1 {
      var n := |stops| - 1;
      assert LegsKnown(lengths, stops[..n]);
      SumIsRide(lengths, velocity, stops[..n]);
      RideTimePrefix(lengths, velocity, stops, n, n - 1);
      MinutesAdds(SumRecorded(lengths, stops[..n]).value, Recorded(lengths, stops[n - 1], stops[n]).value, velocity);
    }
  }

  /** The length of a run is the sum of its two parts at any stop of it. */
  lemma {:induction false} SumSplits(lengths: LengthTable, p: seq<nat>, x: nat, q: seq<nat>)
    requires SumRecorded(lengths, p + [x]).Some? && SumRecorded(lengths, [x] + q).Some?
    ensures SumRecorded(lengths, p + [x] + q) ==
            Some(SumRecorded(lengths, p + [x]).value + SumRecorded(lengths, [x] + q).value)
  {
    if q == [] {
      assert p + [x] + q == p + [x];
    } else {
      var init := q[..|q| - 1];
      assert ([x] + q)[..|q|] == [x] + init;
      assert (p + [x] + q)[..|p + [x] + q| - 1] == p + [x] + init;
      SumSplits(lengths, p, x, init);
    }
  }

  lemma ReversedRecorded(lengths: LengthTable, stops: seq<nat>)
    requires AllRecorded(lengths, stops)
    ensures AllRecorded(lengths, Reversed(stops))
  {
    var n := |stops|;
    forall m | 1 <= m < n ensures Recorded(lengths, Reversed(stops)[m - 1], Reversed(stops)[m]).Some? {
      assert Recorded(lengths, stops[n - 1 - m], stops[n - m]).Some?;
    }
  }

  lemma ThereAndBackSum(lengths: LengthTable, stops: seq<nat>)
    requires stops != [] && AllRecorded(lengths, stops)
    ensures SumRecorded(lengths, stops).Some? && SumRecorded(lengths, Reversed(stops)).Some?
    ensures SumRecorded(lengths, ThereAndBack(stops)) ==
            Some(SumRecorded(lengths, stops).value + SumRecorded(lengths, Reversed(stops)).value)
  {
    ReversedRecorded(lengths, stops);
    SumRecordedDefined(lengths, stops);
    SumRecordedDefined(lengths, Reversed(stops));
    var last := |stops| - 1;
    var x, p, q := stops[last], stops[..last], Reversed(stops[..last]);
    assert p + [x] == stops && [x] + q == Reversed(stops) && p + [x] + q == ThereAndBack(stops);
    SumSplits(lengths, p, x, q);
  }

  /** There and back takes the end-to-end ride onward and then the one backward. */
  lemma ThereAndBackTime(lengths: LengthTable, velocity: nat, stops: seq<nat>)
    requires velocity > 0 && stops != [] && AllRecorded(lengths, stops) && LegsKnown(lengths, stops)
    ensures SumRecorded(lengths, ThereAndBack(stops)).Some?
    ensures Minutes(SumRecorded(lengths, ThereAndBack(stops)).value, velocity) ==
            RideTime(lengths, velocity, stops, 0, |stops| - 1) + RideTime(lengths, velocity, stops, |stops| - 1, 0)
  {
    ThereAndBackSum(lengths, stops);
    ReversedRecorded(lengths, stops);
    ReversedLegsKnown(lengths, stops);
    SumIsRide(lengths, velocity, stops);
    SumIsRide(lengths, velocity, Reversed(stops));
    RideTimeReversed(lengths, velocity, stops, 0, |stops| - 1);
    MinutesAdds(SumRecorded(lengths, stops).value, SumRecorded(lengths, Reversed(stops)).value, velocity);
  }

  /** What the statistics report agrees with the router: a run takes as long as the end-to-end ride onward
      and, unless the bus loops, the end-to-end ride back; a non-loop bus passes 2n - 1 stops. The length
      reported in an int is the true one exactly below 2^31. */
  lemma StatisticsAgree(s: State, velocity: nat, bus: Bus)
    requires velocity > 0 && bus.stops != [] && AllRecorded(s.lengths, bus.stops)
    ensures LegsKnown(s.lengths, bus.stops)
    ensures |FullRun(bus)| == if bus.isLoop then |bus.stops| else 2 * |bus.stops| - 1
    ensures SumRecorded(s.lengths, FullRun(bus)).Some?
    ensures var last := |bus.stops| - 1;
      Minutes(SumRecorded(s.lengths, FullRun(bus)).value, velocity) ==
      RideTime(s.lengths, velocity, bus.stops, 0, last)
      + if bus.isLoop then 0.0 else RideTime(s.lengths, velocity, bus.stops, last, 0)
    ensures var length := SumRecorded(s.lengths, FullRun(bus)).value;
      ToInt32(length) == length <==> length < 0x8000_0000
  {
    RecordedLegsKnown(s.lengths, bus.stops);
    if bus.isLoop {
      SumIsRide(s.lengths, velocity, bus.stops);
    } else {
      ThereAndBackTime(s.lengths, velocity, bus.stops);
    }
    ToInt32Exact(SumRecorded(s.lengths, FullRun(bus)).value);
  }

  /** In the graph: a bus's route length, in minutes, is the weight of its end-to-end edge onward plus, unless
      it loops, that of its end-to-end edge backward, and both edges are there. */
  lemma StatisticsMatchEdges(s: State, settings: RoutingSettings, b: nat)
    requires settings.busVelocity > 0 && AllLegsKnown(s) && b < |s.allBuses|
    requires |s.allBuses[b].stops| > 1 && AllRecorded(s.lengths, s.allBuses[b].stops)
    ensures var bus, last := s.allBuses[b], |s.allBuses[b].stops| - 1;
      var onward, backward := Ride(b, 0, last), Ride(b, last, 0);
      var length := SumRecorded(s.lengths, FullRun(bus));
      && length.Some? && CanRide(s, onward) && RideTrip(s, settings, onward) in GraphTrips(s, settings)
      && if bus.isLoop then
           Minutes(length.value, settings.busVelocity) == RideTrip(s, settings, onward).edge.weight
         else
           && CanRide(s, backward) && RideTrip(s, settings, backward) in GraphTrips(s, settings)
           && Minutes(length.value, settings.busVelocity) ==
              RideTrip(s, settings, onward).edge.weight + RideTrip(s, settings, backward).edge.weight
  {
    var bus, last := s.allBuses[b], |s.allBuses[b].stops| - 1;
    StatisticsAgree(s, settings.busVelocity, bus);
    RideEdgeAt(s, settings, Ride(b, 0, last));
    if !bus.isLoop {
      RideEdgeAt(s, settings, Ride(b, last, 0));
    }
  }
}
