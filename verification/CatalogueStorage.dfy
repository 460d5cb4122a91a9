/** The saved form of the catalogue (the messages of transport_catalogue.proto) and what loading makes of it. */
module CatalogueStorage {
  import opened Wrappers
  import opened CatalogueState

  datatype ProtoStop = ProtoStop(name: string, coordinates: Coordinates)
  datatype ProtoBus = ProtoBus(isLoop: bool, name: string, stops: seq<nat>)
  datatype Distance = Distance(from: nat, to: nat, length: nat)
  datatype ProtoCatalogue = ProtoCatalogue(stops: seq<ProtoStop>, buses: seq<ProtoBus>, distances: seq<Distance>)

  /** Storing into a uint32 field keeps the low 32 bits. */
  function Uint32(x: nat): nat {
    x % UINT32_LIMIT
  }

  lemma Uint32Means(x: nat)
    ensures Uint32(x) < 0x1_0000_0000 && (x - Uint32(x)) % 0x1_0000_0000 == 0
    ensures Uint32(x) == x <==> x < 0x1_0000_0000
  {
  }

  // ---- Saving

  function SavedStop(stop: Stop): ProtoStop {
    ProtoStop(stop.name, stop.coordinates)
  }

  function SavedBus(bus: Bus): ProtoBus {
    ProtoBus(bus.isLoop, bus.name, seq(|bus.stops|, m requires 0 <= m < |bus.stops| => Uint32(bus.stops[m])))
  }

  /** keys lists the keys of the table, each once, in whatever order a hash map yields them. */
  predicate Enumerates(keys: seq<(nat, nat)>, lengths: map<(nat, nat), nat>) {
    && (forall m :: 0 <= m < |keys| ==> keys[m] in lengths)
    && (forall key :: key in lengths ==> key in keys)
    && (forall a, b :: 0 <= a < b < |keys| ==> keys[a] != keys[b])
  }

  predicate SavedDistances(distances: seq<Distance>, keys: seq<(nat, nat)>, lengths: map<(nat, nat), nat>)
    requires forall m :: 0 <= m < |keys| ==> keys[m] in lengths
  {
    && |distances| == |keys|
    && forall m :: 0 <= m < |keys| ==>
         distances[m] == Distance(Uint32(keys[m].0), Uint32(keys[m].1), lengths[keys[m]])
  }

  ghost predicate IsSaved(p: ProtoCatalogue, s: State) {
    && |p.stops| == |s.allStops| && (forall i :: 0 <= i < |p.stops| ==> p.stops[i] == SavedStop(s.allStops[i]))
    && |p.buses| == |s.allBuses| && (forall b :: 0 <= b < |p.buses| ==> p.buses[b] == SavedBus(s.allBuses[b]))
    && exists keys :: Enumerates(keys, s.lengths) && SavedDistances(p.distances, keys, s.lengths)
  }

  /** What the message of a catalogue says, field by field. */
  lemma SavedMeans(p: ProtoCatalogue, s: State)
    requires IsSaved(p, s)
    ensures |p.stops| == |s.allStops| && |p.buses| == |s.allBuses|
    ensures forall i :: 0 <= i < |p.stops| ==>
              p.stops[i].name == s.allStops[i].name && p.stops[i].coordinates == s.allStops[i].coordinates
    ensures forall b :: 0 <= b < |p.buses| ==>
              && p.buses[b].name == s.allBuses[b].name && p.buses[b].isLoop == s.allBuses[b].isLoop
              && |p.buses[b].stops| == |s.allBuses[b].stops|
              && forall m :: 0 <= m < |p.buses[b].stops| ==>
                   p.buses[b].stops[m] == s.allBuses[b].stops[m] % 0x1_0000_0000
    ensures forall m :: 0 <= m < |p.distances| ==> IsRecorded(p.distances[m], s.lengths)
    ensures forall key :: key in s.lengths ==> IsWritten(p.distances, key, s.lengths)
  {
    var keys :| Enumerates(keys, s.lengths) && SavedDistances(p.distances, keys, s.lengths);
    DistancesMean(p.distances, keys, s.lengths);
  }

  lemma DistancesMean(distances: seq<Distance>, keys: seq<(nat, nat)>, lengths: map<(nat, nat), nat>)
    requires Enumerates(keys, lengths) && SavedDistances(distances, keys, lengths)
    ensures forall m :: 0 <= m < |distances| ==> IsRecorded(distances[m], lengths)
    ensures forall key :: key in lengths ==> IsWritten(distances, key, lengths)
  {
    forall m | 0 <= m < |distances| ensures IsRecorded(distances[m], lengths) {
      assert IsDistance(distances[m], keys[m], lengths);
    }
    forall key | key in lengths ensures IsWritten(distances, key, lengths) {
      var m :| 0 <= m < |keys| && keys[m] == key;
      assert IsDistance(distances[m], key, lengths);
    }
  }

  ghost predicate IsRecorded(d: Distance, lengths: map<(nat, nat), nat>) {
    exists key :: key in lengths && IsDistance(d, key, lengths)
  }

  predicate IsWritten(distances: seq<Distance>, key: (nat, nat), lengths: map<(nat, nat), nat>)
    requires key in lengths
  {
    exists m :: 0 <= m < |distances| && IsDistance(distances[m], key, lengths)
  }

  predicate IsDistance(d: Distance, key: (nat, nat), lengths: map<(nat, nat), nat>)
    requires key in lengths
  {
    d.from == key.0 % 0x1_0000_0000 && d.to == key.1 % 0x1_0000_0000 && d.length == lengths[key]
  }

  // ---- Loading

  predicate StopsOfAllBelow(saved: seq<ProtoBus>, n: nat) {
    forall b :: 0 <= b < |saved| ==> Below(saved[b].stops, n)
  }

  /** Every stop position in the message points into its stop list. */
  predicate IndexesInRange(p: ProtoCatalogue) {
    && StopsOfAllBelow(p.buses, |p.stops|)
    && DistancesInRange(p.distances, |p.stops|)
  }

  predicate DistancesInRange(distances: seq<Distance>, n: nat) {
    forall m :: 0 <= m < |distances| ==> distances[m].from < n && distances[m].to < n
  }

  function AddStops(s: State, stops: seq<ProtoStop>): (r: State)
    requires StopsFound(s)
    ensures StopsFound(r)
  {
    if stops == [] then s
    else
      var last := stops[|stops| - 1];
      AddStop(AddStops(s, stops[..|stops| - 1]), last.name, last.coordinates)
  }

  function NamesAt(stops: seq<ProtoStop>, ids: seq<nat>): seq<string>
    requires Below(ids, |stops|)
  {
    seq(|ids|, m requires 0 <= m < |ids| => stops[ids[m]].name)
  }

  function AddBuses(s: State, stops: seq<ProtoStop>, buses: seq<ProtoBus>): (r: State)
    requires StopsFound(s) && StopsOfAllBelow(buses, |stops|)
    ensures StopsFound(r)
  {
    if buses == [] then s
    else
      var last := buses[|buses| - 1];
      AddBus(AddBuses(s, stops, buses[..|buses| - 1]), last.name, NamesAt(stops, last.stops), last.isLoop)
  }

  function AddLengths(s: State, stops: seq<ProtoStop>, distances: seq<Distance>): (r: Result<State, CatalogueError>)
    requires StopsFound(s)
    requires DistancesInRange(distances, |stops|)
    ensures r.Success? ==> StopsFound(r.value)
  {
    if distances == [] then Success(s)
    else
      var last := distances[|distances| - 1];
      var before := AddLengths(s, stops, distances[..|distances| - 1]);
      if before.Failure? then before
      else AddLength(before.value, stops[last.from].name, stops[last.to].name, last.length)
  }

  /** Once a length cannot be added, the whole loading fails. */
  lemma {:induction false} AddLengthsStuck(s: State, stops: seq<ProtoStop>, distances: seq<Distance>, m: nat)
    requires StopsFound(s) && m <= |distances|
    requires DistancesInRange(distances, |stops|)
    requires AddLengths(s, stops, distances[..m]).Failure?
    ensures AddLengths(s, stops, distances).Failure?
  {
    if m == |distances| {
      assert distances[..m] == distances;
    } else {
      assert distances[..|distances| - 1][..m] == distances[..m];
      AddLengthsStuck(s, stops, distances[..|distances| - 1], m);
    }
  }

  function Loaded(p: ProtoCatalogue): Result<State, CatalogueError>
    requires IndexesInRange(p)
  {
    AddLengths(AddBuses(AddStops(EMPTY, p.stops), p.stops, p.buses), p.stops, p.distances)
  }

  // ---- Loading undoes saving

  lemma NotAmong(allStops: seq<Stop>, stops: map<string, nat>, name: string)
    requires StopIndex(allStops, stops) && forall i :: 0 <= i < |allStops| ==> allStops[i].name != name
    ensures name !in stops
  {
  }

  /** Adding stops under fresh names appends them. */
  lemma {:induction false} AddStopsAppends(stops: seq<ProtoStop>)
    requires forall i, j :: 0 <= i < j < |stops| ==> stops[i].name != stops[j].name
    ensures var s := AddStops(EMPTY, stops);
      && s == EMPTY.(allStops := s.allStops, stops := s.stops)
      && StopIndex(s.allStops, s.stops)
      && |s.allStops| == |stops|
      && forall i :: 0 <= i < |stops| ==> s.allStops[i] == Stop(stops[i].name, stops[i].coordinates)
  {
    if stops != [] {
      var init, last := stops[..|stops| - 1], stops[|stops| - 1];
      AddStopsAppends(init);
      var before := AddStops(EMPTY, init);
      NotAmong(before.allStops, before.stops, last.name);
      NewStopIndex(before.allStops, before.stops, Stop(last.name, last.coordinates));
    }
  }

  /** When all its stops are known, serving them touches nothing but the index of buses. */
  lemma {:induction false} ServeKnown(s: State, bus: string, names: seq<string>)
    requires StopsFound(s) && forall m :: 0 <= m < |names| ==> names[m] in s.stops
    ensures var (served, ids) := ServeStops(s, bus, names);
      && served == s.(busesInStop := served.busesInStop)
      && |ids| == |names| && forall m :: 0 <= m < |ids| ==> ids[m] == s.stops[names[m]]
  {
    if names != [] {
      ServeKnown(s, bus, names[..|names| - 1]);
    }
  }

  lemma AddKnownBus(s: State, name: string, names: seq<string>, isLoop: bool, ids: seq<nat>)
    requires StopsFound(s) && |ids| == |names|
    requires forall m :: 0 <= m < |names| ==> names[m] in s.stops && s.stops[names[m]] == ids[m]
    ensures var s' := AddBus(s, name, names, isLoop);
      && s'.allStops == s.allStops && s'.stops == s.stops && s'.lengths == s.lengths
      && s'.allBuses == s.allBuses + [Bus(name, ids, isLoop)]
  {
    ServeKnown(PushBus(s, name, isLoop), name, names);
    assert ServeStops(PushBus(s, name, isLoop), name, names).1 == ids;
  }

  /** The stop messages carry the names of the catalogue's stops, in order. */
  predicate NamesMatch(s: State, stops: seq<ProtoStop>) {
    && StopIndex(s.allStops, s.stops)
    && |stops| == |s.allStops| <= UINT32_LIMIT
    && forall i :: 0 <= i < |stops| ==> stops[i].name == s.allStops[i].name
  }

  /** The message of a bus whose stop positions all fit says the same as the bus. */
  predicate Mirrors(saved: ProtoBus, bus: Bus, n: nat) {
    saved == ProtoBus(bus.isLoop, bus.name, bus.stops) && Below(bus.stops, n)
  }

  predicate AllMirror(saved: seq<ProtoBus>, buses: seq<Bus>, n: nat) {
    |saved| == |buses| && forall b :: 0 <= b < |saved| ==> Mirrors(saved[b], buses[b], n)
  }

  lemma SavedBusesMirror(saved: seq<ProtoBus>, buses: seq<Bus>, n: nat)
    requires BusStops(buses, n) && n <= UINT32_LIMIT
    requires |saved| == |buses| && forall b :: 0 <= b < |saved| ==> saved[b] == SavedBus(buses[b])
    ensures AllMirror(saved, buses, n)
  {
    forall b | 0 <= b < |saved| ensures Mirrors(saved[b], buses[b], n) {
      assert Below(buses[b].stops, n);
      assert saved[b].stops == buses[b].stops;
    }
  }

  lemma AddSavedBus(s: State, stops: seq<ProtoStop>, bus: Bus)
    requires NamesMatch(s, stops) && Below(bus.stops, |stops|)
    ensures var s' := AddBus(s, bus.name, NamesAt(stops, bus.stops), bus.isLoop);
      && s'.allStops == s.allStops && s'.stops == s.stops && s'.lengths == s.lengths
      && s'.allBuses == s.allBuses + [bus]
  {
    var names := NamesAt(stops, bus.stops);
    assert forall m :: 0 <= m < |names| ==> names[m] == s.allStops[bus.stops[m]].name;
    AddKnownBus(s, bus.name, names, bus.isLoop, bus.stops);
  }

  lemma AddMirroredBus(before: State, stops: seq<ProtoStop>, saved: ProtoBus, bus: Bus, s: State)
    requires NamesMatch(s, stops) && Mirrors(saved, bus, |stops|) && StopsFound(before)
    requires before.allStops == s.allStops && before.stops == s.stops && before.lengths == s.lengths
    ensures var after := AddBus(before, saved.name, NamesAt(stops, saved.stops), saved.isLoop);
      && after.allStops == s.allStops && after.stops == s.stops && after.lengths == s.lengths
      && after.allBuses == before.allBuses + [bus]
  {
    AddSavedBus(before, stops, bus);
  }

  lemma AddBusesStep(s: State, stops: seq<ProtoStop>, saved: seq<ProtoBus>)
    requires StopsFound(s) && StopsOfAllBelow(saved, |stops|) && saved != []
    ensures var last := saved[|saved| - 1];
      && StopsOfAllBelow(saved[..|saved| - 1], |stops|) && Below(last.stops, |stops|)
      && AddBuses(s, stops, saved) ==
         AddBus(AddBuses(s, stops, saved[..|saved| - 1]), last.name, NamesAt(stops, last.stops), last.isLoop)
  {
  }

  lemma AddLastBus(s: State, stops: seq<ProtoStop>, saved: seq<ProtoBus>, buses: seq<Bus>)
    requires NamesMatch(s, stops) && saved != [] && AllMirror(saved, buses, |stops|)
    requires StopsOfAllBelow(saved, |stops|) && StopsOfAllBelow(saved[..|saved| - 1], |stops|)
    requires var before := AddBuses(s, stops, saved[..|saved| - 1]);
      && before.allStops == s.allStops && before.stops == s.stops && before.lengths == s.lengths
      && before.allBuses == buses[..|saved| - 1]
    ensures var s' := AddBuses(s, stops, saved);
      s'.allStops == s.allStops && s'.stops == s.stops && s'.lengths == s.lengths && s'.allBuses == buses
  {
    var n := |saved| - 1;
    AddBusesStep(s, stops, saved);
    assert Mirrors(saved[n], buses[n], |stops|);
    AddMirroredBus(AddBuses(s, stops, saved[..n]), stops, saved[n], buses[n], s);
    assert buses == buses[..n] + [buses[n]];
  }

  lemma {:induction false} AddBusesAppends(s: State, stops: seq<ProtoStop>, saved: seq<ProtoBus>, buses: seq<Bus>)
    requires NamesMatch(s, stops) && s.allBuses == [] && AllMirror(saved, buses, |stops|)
    requires StopsOfAllBelow(saved, |stops|)
    ensures var s' := AddBuses(s, stops, saved);
      s'.allStops == s.allStops && s'.stops == s.stops && s'.lengths == s.lengths && s'.allBuses == buses
  {
    if saved != [] {
      var n := |saved| - 1;
      AddBusesAppends(s, stops, saved[..n], buses[..n]);
      AddLastBus(s, stops, saved, buses);
    }
  }

  /** The part of the table that the first entries of an enumeration cover. */
  function Covered(lengths: map<(nat, nat), nat>, keys: seq<(nat, nat)>): map<(nat, nat), nat>
    requires forall m :: 0 <= m < |keys| ==> keys[m] in lengths
  {
    map key | key in keys :: lengths[key]
  }

  lemma AddSavedLength(s: State, stops: seq<ProtoStop>, distance: Distance, key: (nat, nat), length: nat)
    requires NamesMatch(s, stops) && key.0 < |stops| && key.1 < |stops| && key !in s.lengths
    requires distance == Distance(Uint32(key.0), Uint32(key.1), length)
    ensures distance.from == key.0 && distance.to == key.1
    ensures AddLength(s, stops[key.0].name, stops[key.1].name, length) ==
            Success(s.(lengths := s.lengths[key := length]))
  {
    assert stops[key.0].name == s.allStops[key.0].name && stops[key.1].name == s.allStops[key.1].name;
  }

  lemma {:induction false} AddLengthsCovers(s: State, stops: seq<ProtoStop>, distances: seq<Distance>,
                                            lengths: map<(nat, nat), nat>, keys: seq<(nat, nat)>)
    requires NamesMatch(s, stops) && s.lengths == map[] && LengthKeys(lengths, |stops|)
    requires forall m :: 0 <= m < |keys| ==> keys[m] in lengths
    requires SavedDistances(distances, keys, lengths)
    requires forall a, b :: 0 <= a < b < |keys| ==> keys[a] != keys[b]
    ensures DistancesInRange(distances, |stops|)
    ensures AddLengths(s, stops, distances) == Success(s.(lengths := Covered(lengths, keys)))
  {
    if distances == [] {
      assert Covered(lengths, keys) == map[];
    } else {
      var key, last := keys[|keys| - 1], distances[|distances| - 1];
      var init := keys[..|keys| - 1];
      AddLengthsCovers(s, stops, distances[..|distances| - 1], lengths, init);
      AddSavedLength(s.(lengths := Covered(lengths, init)), stops, last, key, lengths[key]);
      CoveredMore(lengths, keys);
      assert forall m :: 0 <= m < |distances| - 1 ==> distances[m] == distances[..|distances| - 1][m];
    }
  }

  lemma CoveredMore(lengths: map<(nat, nat), nat>, keys: seq<(nat, nat)>)
    requires keys != [] && forall m :: 0 <= m < |keys| ==> keys[m] in lengths
    ensures var key := keys[|keys| - 1];
      Covered(lengths, keys) == Covered(lengths, keys[..|keys| - 1])[key := lengths[key]]
  {
    assert keys == keys[..|keys| - 1] + [keys[|keys| - 1]];
  }

  lemma LoadedStops(s: State, stops: seq<ProtoStop>)
    requires StopIndex(s.allStops, s.stops) && |s.allStops| <= UINT32_LIMIT
    requires |stops| == |s.allStops| && forall i :: 0 <= i < |stops| ==> stops[i] == SavedStop(s.allStops[i])
    ensures NamesMatch(AddStops(EMPTY, stops), stops)
    ensures var r := AddStops(EMPTY, stops); r.allStops == s.allStops && r.allBuses == [] && r.lengths == map[]
  {
    StopNamesDiffer(s.allStops, s.stops);
    AddStopsAppends(stops);
    assert AddStops(EMPTY, stops).allStops == s.allStops;
  }

  lemma LoadedLengths(s: State, p: ProtoCatalogue, lengths: map<(nat, nat), nat>, keys: seq<(nat, nat)>)
    requires NamesMatch(s, p.stops) && s.lengths == map[] && LengthKeys(lengths, |p.stops|)
    requires Enumerates(keys, lengths) && SavedDistances(p.distances, keys, lengths)
    ensures DistancesInRange(p.distances, |p.stops|)
    ensures AddLengths(s, p.stops, p.distances) == Success(s.(lengths := lengths))
  {
    AddLengthsCovers(s, p.stops, p.distances, lengths, keys);
    assert Covered(lengths, keys) == lengths;
  }

  lemma LoadedData(s: State, p: ProtoCatalogue, keys: seq<(nat, nat)>)
    requires WellFormed(s) && |s.allStops| <= UINT32_LIMIT && IsSaved(p, s)
    requires Enumerates(keys, s.lengths) && SavedDistances(p.distances, keys, s.lengths)
    ensures IndexesInRange(p) && Loaded(p).Success?
    ensures var r := Loaded(p).value;
      r.allStops == s.allStops && r.allBuses == s.allBuses && r.lengths == s.lengths
  {
    LoadedStops(s, p.stops);
    var s1 := AddStops(EMPTY, p.stops);
    SavedBusesMirror(p.buses, s.allBuses, |p.stops|);
    assert StopsOfAllBelow(p.buses, |p.stops|) by {
      assert forall b :: 0 <= b < |p.buses| ==> Mirrors(p.buses[b], s.allBuses[b], |p.stops|);
    }
    AddBusesAppends(s1, p.stops, p.buses, s.allBuses);
    LoadedLengths(AddBuses(s1, p.stops, p.buses), p, s.lengths, keys);
  }

  /** Loading what was saved gives the catalogue back: stops and buses in order, the length table whatever
      order its entries were written in, and all indexes. */
  lemma LoadUndoesSave(s: State, p: ProtoCatalogue)
    requires WellFormed(s) && |s.allStops| <= UINT32_LIMIT && IsSaved(p, s)
    ensures IndexesInRange(p) && LengthsFit(p.distances) && Loaded(p) == Success(s)
  {
    var keys :| Enumerates(keys, s.lengths) && SavedDistances(p.distances, keys, s.lengths);
    LoadedData(s, p, keys);
    LoadedWellFormed(p);
    IndexesDetermined(Loaded(p).value, s);
  }

  lemma {:induction false} AddStopsKeeps(s: State, stops: seq<ProtoStop>)
    requires WellFormed(s)
    ensures WellFormed(AddStops(s, stops))
  {
    if stops != [] {
      AddStopsKeeps(s, stops[..|stops| - 1]);
      AddStopKeeps(AddStops(s, stops[..|stops| - 1]), stops[|stops| - 1].name, stops[|stops| - 1].coordinates);
    }
  }

  lemma {:induction false} AddBusesKeeps(s: State, stops: seq<ProtoStop>, buses: seq<ProtoBus>)
    requires WellFormed(s) && StopsOfAllBelow(buses, |stops|)
    ensures WellFormed(AddBuses(s, stops, buses))
  {
    if buses != [] {
      var last := buses[|buses| - 1];
      AddBusesKeeps(s, stops, buses[..|buses| - 1]);
      AddBusKeeps(AddBuses(s, stops, buses[..|buses| - 1]), last.name, NamesAt(stops, last.stops), last.isLoop);
    }
  }

  predicate LengthsFit(distances: seq<Distance>) {
    forall m :: 0 <= m < |distances| ==> distances[m].length < UINT32_LIMIT
  }

  lemma {:induction false} AddLengthsKeeps(s: State, stops: seq<ProtoStop>, distances: seq<Distance>)
    requires WellFormed(s) && LengthsFit(distances)
    requires DistancesInRange(distances, |stops|)
    ensures AddLengths(s, stops, distances).Success? ==> WellFormed(AddLengths(s, stops, distances).value)
  {
    if distances != [] {
      var last := distances[|distances| - 1];
      AddLengthsKeeps(s, stops, distances[..|distances| - 1]);
      var before := AddLengths(s, stops, distances[..|distances| - 1]);
      if before.Success? {
        AddLengthKeeps(before.value, stops[last.from].name, stops[last.to].name, last.length);
      }
    }
  }

  /** Whatever message is loaded, the catalogue it gives is well formed. */
  lemma LoadedWellFormed(p: ProtoCatalogue)
    requires IndexesInRange(p) && LengthsFit(p.distances)
    ensures Loaded(p).Success? ==> WellFormed(Loaded(p).value)
  {
    AddStopsKeeps(EMPTY, p.stops);
    AddBusesKeeps(AddStops(EMPTY, p.stops), p.stops, p.buses);
    AddLengthsKeeps(AddBuses(AddStops(EMPTY, p.stops), p.stops, p.buses), p.stops, p.distances);
  }

  // ---- Loading is a run of the operations

  /** The calls that loading makes: all stops, then all buses, then all lengths, each in the order of the message. */
  function Calls(p: ProtoCatalogue): seq<Operation>
    requires IndexesInRange(p)
  {
    StopCalls(p.stops) + BusCalls(p.stops, p.buses) + LengthCalls(p.stops, p.distances)
  }

  function StopCalls(stops: seq<ProtoStop>): seq<Operation> {
    seq(|stops|, i requires 0 <= i < |stops| => OpStop(stops[i].name, stops[i].coordinates))
  }

  function BusCalls(stops: seq<ProtoStop>, buses: seq<ProtoBus>): seq<Operation>
    requires StopsOfAllBelow(buses, |stops|)
  {
    seq(|buses|, b requires 0 <= b < |buses| =>
      OpBus(buses[b].name, NamesAt(stops, buses[b].stops), buses[b].isLoop))
  }

  function LengthCalls(stops: seq<ProtoStop>, distances: seq<Distance>): seq<Operation>
    requires DistancesInRange(distances, |stops|)
  {
    seq(|distances|, m requires 0 <= m < |distances| =>
      OpLength(stops[distances[m].from].name, stops[distances[m].to].name, distances[m].length))
  }

  lemma ReachOn(before: State, ops: seq<Operation>, op: Operation, after: State, all: seq<Operation>)
    requires Reached(before, ops) && StopsFound(before) && Allowed(op)
    requires after == Apply(before, op) && all == ops + [op]
    ensures Reached(after, all)
  {
    assert all[..|all| - 1] == ops && all[|all| - 1] == op;
  }

  lemma LastCall(ops: seq<Operation>, calls: seq<Operation>)
    requires calls != []
    ensures ops + calls == ops + calls[..|calls| - 1] + [calls[|calls| - 1]]
  {
  }

  lemma {:induction false} StopsReached(s: State, ops: seq<Operation>, stops: seq<ProtoStop>)
    requires Reached(s, ops) && StopsFound(s)
    ensures Reached(AddStops(s, stops), ops + StopCalls(stops))
  {
    var calls := StopCalls(stops);
    if stops == [] {
      assert ops + calls == ops;
    } else {
      var init := stops[..|stops| - 1];
      StopsReached(s, ops, init);
      assert calls[..|calls| - 1] == StopCalls(init);
      LastCall(ops, calls);
      ReachOn(AddStops(s, init), ops + StopCalls(init), calls[|calls| - 1], AddStops(s, stops), ops + calls);
    }
  }

  lemma {:induction false} BusesReached(s: State, ops: seq<Operation>, stops: seq<ProtoStop>, buses: seq<ProtoBus>)
    requires Reached(s, ops) && StopsFound(s) && StopsOfAllBelow(buses, |stops|)
    ensures Reached(AddBuses(s, stops, buses), ops + BusCalls(stops, buses))
  {
    var calls := BusCalls(stops, buses);
    if buses == [] {
      assert ops + calls == ops;
    } else {
      var init := buses[..|buses| - 1];
      BusesReached(s, ops, stops, init);
      assert calls[..|calls| - 1] == BusCalls(stops, init);
      LastCall(ops, calls);
      AddBusesStep(s, stops, buses);
      ReachOn(AddBuses(s, stops, init), ops + BusCalls(stops, init), calls[|calls| - 1], AddBuses(s, stops, buses),
              ops + calls);
    }
  }

  lemma AddLengthsStep(s: State, stops: seq<ProtoStop>, distances: seq<Distance>)
    requires StopsFound(s) && DistancesInRange(distances, |stops|) && distances != []
    requires AddLengths(s, stops, distances).Success?
    ensures AddLengths(s, stops, distances[..|distances| - 1]).Success?
  {
  }

  lemma AddLengthsValue(s: State, stops: seq<ProtoStop>, distances: seq<Distance>, before: State)
    requires StopsFound(s) && DistancesInRange(distances, |stops|) && distances != []
    requires AddLengths(s, stops, distances[..|distances| - 1]) == Success(before)
    ensures var last := distances[|distances| - 1];
      var call := OpLength(stops[last.from].name, stops[last.to].name, last.length);
      AddLengths(s, stops, distances).Success? ==> AddLengths(s, stops, distances).value == Apply(before, call)
  {
  }

  lemma {:induction false} LengthsReached(s: State, ops: seq<Operation>, stops: seq<ProtoStop>,
                                          distances: seq<Distance>)
    requires Reached(s, ops) && StopsFound(s) && DistancesInRange(distances, |stops|) && LengthsFit(distances)
    requires AddLengths(s, stops, distances).Success?
    ensures Reached(AddLengths(s, stops, distances).value, ops + LengthCalls(stops, distances))
  {
    var calls := LengthCalls(stops, distances);
    if distances == [] {
      assert ops + calls == ops;
    } else {
      var init := distances[..|distances| - 1];
      AddLengthsStep(s, stops, distances);
      AddLengthsValue(s, stops, distances, AddLengths(s, stops, init).value);
      LengthsReached(s, ops, stops, init);
      assert calls[..|calls| - 1] == LengthCalls(stops, init);
      LastCall(ops, calls);
      ReachOn(AddLengths(s, stops, init).value, ops + LengthCalls(stops, init), calls[|calls| - 1],
              AddLengths(s, stops, distances).value, ops + calls);
    }
  }

  /** A message that loads gives the state that its calls reach from an empty catalogue. */
  lemma LoadedIsRun(p: ProtoCatalogue)
    requires IndexesInRange(p) && LengthsFit(p.distances) && Loaded(p).Success?
    ensures Reached(Loaded(p).value, Calls(p))
  {
    var stops := AddStops(EMPTY, p.stops);
    var before := StopCalls(p.stops) + BusCalls(p.stops, p.buses);
    StopsReached(EMPTY, [], p.stops);
    assert [] + StopCalls(p.stops) == StopCalls(p.stops);
    BusesReached(stops, StopCalls(p.stops), p.stops, p.buses);
    LengthsReached(AddBuses(stops, p.stops, p.buses), before, p.stops, p.distances);
  }
}
