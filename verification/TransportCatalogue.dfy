/** The transport catalogue of transport_catalogue.cpp. */
module TransportCatalogue {
  import opened Wrappers
  import opened Sequences
  import opened Strings
  import opened CatalogueState
  import opened CatalogueLengths
  import opened CatalogueStorage

  /** Curvature is not part of this model. */
  datatype BusInfo = BusInfo(routeLength: int, quantityStop: int, uniqueStops: nat)

  /** What a sum of lengths becomes when accumulated in an int. */
  function InInt32(sum: Option<nat>): Result<int, CatalogueError> {
    if sum.None? then Failure(OutOfRange) else Success(ToInt32(sum.value))
  }

  class TransportCatalogue {
    var allStops: seq<Stop>
    var allBuses: seq<Bus>
    var stops: map<string, nat>
    var buses: map<string, nat>
    var busesInStop: map<string, seq<string>>
    var lengthBetweenStops: map<(nat, nat), nat>

    /** The fields as a value. */
    ghost function Now(): State
      reads this
    {
      State(allStops, allBuses, stops, buses, busesInStop, lengthBetweenStops)
    }

    ghost predicate Valid()
      reads this
    {
      WellFormed(Now())
    }

    constructor ()
      ensures Valid() && Now() == EMPTY
    {
      allStops, allBuses, stops, buses, busesInStop, lengthBetweenStops := [], [], map[], map[], map[], map[];
    }

    method AddStop(name: string, location: Coordinates)
      requires StopsFound(Now())
      modifies this
      ensures Now() == CatalogueState.AddStop(old(Now()), name, location)
      ensures old(Valid()) ==> Valid()
    {
      ghost var before := Now();
      var stop := Stop(name, location);
      if name in stops {
        if allStops[stops[name]].coordinates.lat == 0.0 && allStops[stops[name]].coordinates.lng == 0.0 {
          allStops := allStops[stops[name] := stop];
        }
      } else {
        allStops := allStops + [stop];
        stops := stops[name := |allStops| - 1];
      }
      if WellFormed(before) {
        AddStopKeeps(before, name, location);
      }
    }

    method AddBus(name: string, stopNames: seq<string>, isLoop: bool)
      requires Valid()
      modifies this
      ensures Valid() && Now() == CatalogueState.AddBus(old(Now()), name, stopNames, isLoop)
    {
      AddBusKeeps(Now(), name, stopNames, isLoop);
      allBuses := allBuses + [Bus(name, [], isLoop)];
      buses := buses[name := |allBuses| - 1];
      var dequeStops := ServeStops(name, stopNames);
      allBuses := allBuses[buses[name] := allBuses[buses[name]].(stops := dequeStops)];
    }

    /** The loop over the new bus's stops. */
    method ServeStops(name: string, stopNames: seq<string>) returns (dequeStops: seq<nat>)
      requires StopsFound(Now())
      modifies this
      ensures (Now(), dequeStops) == CatalogueState.ServeStops(old(Now()), name, stopNames)
      ensures buses == old(buses) && allBuses == old(allBuses)
    {
      dequeStops := [];
      for m := 0 to |stopNames|
        invariant StopsFound(Now())
        invariant (Now(), dequeStops) == CatalogueState.ServeStops(old(Now()), name, stopNames[..m])
        invariant buses == old(buses) && allBuses == old(allBuses)
      {
        assert stopNames[..m + 1][..m] == stopNames[..m];
        var id := ServeStop(name, stopNames[m], dequeStops);
        dequeStops := dequeStops + [id];
      }
      assert stopNames[..|stopNames|] == stopNames;
    }

    /** The body of that loop; dequeStops are the stops found so far. */
    method ServeStop(name: string, stop: string, ghost dequeStops: seq<nat>) returns (id: nat)
      requires StopsFound(Now())
      modifies this
      ensures (Now(), dequeStops + [id]) == ServeOne(old(Now()), name, dequeStops, stop)
      ensures StopsFound(Now()) && buses == old(buses) && allBuses == old(allBuses)
    {
      if stop !in stops {
        AddStop(stop, ORIGIN);
      }
      id := stops[stop];
      if stop !in busesInStop {
        busesInStop := busesInStop[stop := []];
      }
      if name !in busesInStop[stop] {
        busesInStop := busesInStop[stop := busesInStop[stop] + [name]];
      }
      assert busesInStop == CatalogueState.EnlistBus(old(busesInStop), stop, name);
    }

    method AddLengthBetweenStops(from: string, to: string, length: nat) returns (r: Result<(), CatalogueError>)
      requires Valid() && length < UINT32_LIMIT
      modifies this
      ensures Valid()
      ensures r.Failure? <==> from !in old(stops)
      ensures r.Failure? ==> r == Failure(OutOfRange) && Now() == old(Now())
      ensures r.Success? ==> AddLength(old(Now()), from, to, length) == Success(Now())
    {
      AddLengthKeeps(Now(), from, to, length);
      if from !in stops {
        return Failure(OutOfRange);
      }
      var stop1 := stops[from];
      if to !in stops {
        AddStop(to, ORIGIN);
      }
      var stop2 := stops[to];
      if (stop1, stop2) !in lengthBetweenStops {
        lengthBetweenStops := lengthBetweenStops[(stop1, stop2) := length];
      }
      return Success(());
    }

    function GetLengthBetweenStops(first: string, second: string): Result<nat, CatalogueError>
      reads this
    {
      CatalogueLengths.GetLengthBetweenStops(
        State(allStops, allBuses, stops, buses, busesInStop, lengthBetweenStops), first, second)
    }

    /** The names of the buses through a stop, sorted. */
    method GetInfoStop(name: string) returns (info: StopInfo)
      requires Valid()
      ensures info.found <==> exists i :: 0 <= i < |allStops| && allStops[i].name == name
      ensures forall i, j :: 0 <= i < j < |info.buses| ==> Precedes(info.buses[i], info.buses[j])
      ensures forall x :: x in info.buses <==> name in stops && Serves(allBuses, x, stops[name])
    {
      StopInfoIsScan(Now(), name);
      if name !in stops {
        return StopInfo(false, []);
      }
      if name !in busesInStop {
        return StopInfo(true, []);
      }
      return StopInfo(true, Sort(busesInStop[name]));
    }

    /** The route length in the 32-bit arithmetic of the accumulator; a missing length throws. */
    method SummationLength(bus: Bus) returns (r: Result<int, CatalogueError>)
      requires bus.stops != []
      ensures r == InInt32(SumRecorded(lengthBetweenStops, FullRun(bus)))
    {
      var run := bus.stops;
      if !bus.isLoop {
        var back := bus.stops[..|bus.stops| - 1];
        for m := 0 to |back|
          invariant run == bus.stops + Reversed(back)[..m]
        {
          run := run + [back[|back| - 1 - m]];
        }
        assert run == ThereAndBack(bus.stops);
      }
      r := TransformReduce(run);
    }

    method TransformReduce(run: seq<nat>) returns (r: Result<int, CatalogueError>)
      requires run != []
      ensures r == InInt32(SumRecorded(lengthBetweenStops, run))
    {
      var total := 0;
      ghost var sum := 0;
      SumRecordedDefined(lengthBetweenStops, run);
      for m := 1 to |run|
        invariant total == ToInt32(sum)
        invariant SumRecorded(lengthBetweenStops, run[..m]) == Some(sum)
      {
        assert run[..m + 1][..m] == run[..m];
        var leg := 0;
        if (run[m - 1], run[m]) in lengthBetweenStops {
          leg := lengthBetweenStops[(run[m - 1], run[m])];
        } else if (run[m], run[m - 1]) in lengthBetweenStops {
          leg := lengthBetweenStops[(run[m], run[m - 1])];
        } else {
          return Failure(OutOfRange);
        }
        ToInt32Adds(sum, leg);
        sum := sum + leg;
        total := ToInt32(total + leg);
      }
      assert run[..|run|] == run;
      return Success(total);
    }

    method GetInfoBus(name: string) returns (r: Result<Option<BusInfo>, CatalogueError>)
      requires Valid()
      requires name in buses ==> allBuses[buses[name]].stops != []
      ensures r == Success(None) <==> forall b :: 0 <= b < |allBuses| ==> allBuses[b].name != name
      ensures name in buses ==>
        var bus := allBuses[buses[name]];
        var sum := SumRecorded(lengthBetweenStops, FullRun(bus));
        r == if sum.None? then Failure(OutOfRange)
             else Success(Some(BusInfo(ToInt32(sum.value), |FullRun(bus)|, |set i | i in bus.stops|)))
    {
      if name !in buses {
        return Success(None);
      }
      var bus := allBuses[buses[name]];
      assert allBuses[buses[name]].name == name;
      var unique := {};
      for m := 0 to |bus.stops|
        invariant unique == set i | i in bus.stops[..m]
      {
        unique := unique + {bus.stops[m]};
      }
      assert bus.stops[..|bus.stops|] == bus.stops;
      var quantityStop := if bus.isLoop then |bus.stops| else |bus.stops| * 2 - 1;
      var routeLength := SummationLength(bus);
      if routeLength.Failure? {
        return Failure(routeLength.error);
      }
      return Success(Some(BusInfo(routeLength.value, quantityStop, |unique|)));
    }

    // ---- Save and load

    method SaveBusToProto(protoStops: map<string, nat>, bus: Bus) returns (p: ProtoBus)
      requires Valid() && Below(bus.stops, |allStops|) && protoStops == stops
      ensures p == SavedBus(bus)
    {
      var ids := [];
      for m := 0 to |bus.stops|
        invariant |ids| == m && forall l :: 0 <= l < m ==> ids[l] == Uint32(bus.stops[l])
      {
        assert protoStops[allStops[bus.stops[m]].name] == bus.stops[m];
        ids := ids + [Uint32(protoStops[allStops[bus.stops[m]].name])];
      }
      return ProtoBus(bus.isLoop, bus.name, ids);
    }

    method SaveToProto() returns (p: ProtoCatalogue)
      requires Valid()
      ensures IsSaved(p, Now())
    {
      var savedStops, protoStops := SaveStops();
      var savedBuses: seq<ProtoBus> := [];
      for b := 0 to |allBuses|
        invariant |savedBuses| == b && forall l :: 0 <= l < b ==> savedBuses[l] == SavedBus(allBuses[l])
      {
        var saved := SaveBusToProto(protoStops, allBuses[b]);
        savedBuses := savedBuses + [saved];
      }
      var distances, keys := SaveLengths(protoStops);
      return ProtoCatalogue(savedStops, savedBuses, distances);
    }

    method SaveStops() returns (savedStops: seq<ProtoStop>, protoStops: map<string, nat>)
      requires StopIndex(allStops, stops)
      ensures |savedStops| == |allStops| && forall l :: 0 <= l < |allStops| ==> savedStops[l] == SavedStop(allStops[l])
      ensures protoStops == stops
    {
      protoStops, savedStops := map[], [];
      StopNamesDiffer(allStops, stops);
      for i := 0 to |allStops|
        invariant |savedStops| == i && forall l :: 0 <= l < i ==> savedStops[l] == SavedStop(allStops[l])
        invariant StopIndex(allStops[..i], protoStops)
      {
        NewStopIndex(allStops[..i], protoStops, allStops[i]);
        assert allStops[..i + 1] == allStops[..i] + [allStops[i]];
        protoStops := protoStops[allStops[i].name := |savedStops|];
        savedStops := savedStops + [ProtoStop(allStops[i].name, allStops[i].coordinates)];
      }
      assert allStops[..|allStops|] == allStops;
      StopIndexDetermined(allStops, stops, protoStops);
    }

    /** The hash map is walked in an order nobody fixes. */
    method SaveLengths(protoStops: map<string, nat>) returns (distances: seq<Distance>, ghost keys: seq<(nat, nat)>)
      requires Valid() && protoStops == stops
      ensures Enumerates(keys, lengthBetweenStops) && SavedDistances(distances, keys, lengthBetweenStops)
    {
      distances, keys := [], [];
      var left := lengthBetweenStops.Keys;
      while left != {}
        invariant left <= lengthBetweenStops.Keys
        invariant forall key :: key in lengthBetweenStops && key !in left ==> key in keys
        invariant forall m :: 0 <= m < |keys| ==> keys[m] in lengthBetweenStops && keys[m] !in left
        invariant forall a, b :: 0 <= a < b < |keys| ==> keys[a] != keys[b]
        invariant SavedDistances(distances, keys, lengthBetweenStops)
        decreases left
      {
        var key :| key in left;
        assert protoStops[allStops[key.0].name] == key.0 && protoStops[allStops[key.1].name] == key.1;
        distances := distances + [Distance(Uint32(protoStops[allStops[key.0].name]),
                                           Uint32(protoStops[allStops[key.1].name]), lengthBetweenStops[key])];
        keys := keys + [key];
        left := left - {key};
      }
    }
  }

  method DeserializeTransportCatalogue(p: ProtoCatalogue) returns (r: Result<TransportCatalogue, CatalogueError>)
    requires IndexesInRange(p) && LengthsFit(p.distances)
    ensures r.Success? <==> Loaded(p).Success?
    ensures r.Success? ==> fresh(r.value) && r.value.Valid() && r.value.Now() == Loaded(p).value
  {
    var result := new TransportCatalogue();
    DeserializeStops(result, p.stops);
    DeserializeBuses(result, p.stops, p.buses);
    var error := DeserializeLengths(result, p.stops, p.distances);
    return if error.Some? then Failure(error.value) else Success(result);
  }

  method DeserializeStops(result: TransportCatalogue, stops: seq<ProtoStop>)
    requires result.Valid()
    modifies result
    ensures result.Valid() && result.Now() == AddStops(old(result.Now()), stops)
  {
    for i := 0 to |stops|
      invariant result.Valid()
      invariant result.Now() == AddStops(old(result.Now()), stops[..i])
    {
      assert stops[..i + 1][..i] == stops[..i];
      result.AddStop(stops[i].name, stops[i].coordinates);
    }
    assert stops[..|stops|] == stops;
  }

  method StopNames(stops: seq<ProtoStop>, ids: seq<nat>) returns (names: seq<string>)
    requires Below(ids, |stops|)
    ensures names == NamesAt(stops, ids)
  {
    names := [];
    for m := 0 to |ids|
      invariant |names| == m && forall l :: 0 <= l < m ==> names[l] == stops[ids[l]].name
    {
      names := names + [stops[ids[m]].name];
    }
  }

  method DeserializeBuses(result: TransportCatalogue, stops: seq<ProtoStop>, protoBuses: seq<ProtoBus>)
    requires result.Valid() && StopsOfAllBelow(protoBuses, |stops|)
    modifies result
    ensures result.Valid() && result.Now() == AddBuses(old(result.Now()), stops, protoBuses)
  {
    ghost var s := result.Now();
    for b := 0 to |protoBuses|
      invariant result.Valid()
      invariant result.Now() == AddBuses(s, stops, protoBuses[..b])
    {
      assert protoBuses[..b + 1][..b] == protoBuses[..b];
      var names := StopNames(stops, protoBuses[b].stops);
      result.AddBus(protoBuses[b].name, names, protoBuses[b].isLoop);
    }
    assert protoBuses[..|protoBuses|] == protoBuses;
  }

  method DeserializeLengths(result: TransportCatalogue, stops: seq<ProtoStop>, distances: seq<Distance>)
    returns (error: Option<CatalogueError>)
    requires result.Valid() && LengthsFit(distances) && DistancesInRange(distances, |stops|)
    modifies result
    ensures error.Some? <==> AddLengths(old(result.Now()), stops, distances).Failure?
    ensures error.None? ==>
              result.Valid() && AddLengths(old(result.Now()), stops, distances) == Success(result.Now())
  {
    ghost var s := result.Now();
    for m := 0 to |distances|
      invariant result.Valid()
      invariant AddLengths(s, stops, distances[..m]) == Success(result.Now())
    {
      assert distances[..m + 1][..m] == distances[..m];
      var distance := distances[m];
      var added := result.AddLengthBetweenStops(stops[distance.from].name, stops[distance.to].name, distance.length);
      if added.Failure? {
        AddLengthsStuck(s, stops, distances, m + 1);
        return Some(added.error);
      }
    }
    assert distances[..|distances|] == distances;
    return None;
  }
}
