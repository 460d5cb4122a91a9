/** The fields of the transport catalogue as a value, what each operation makes of them,
    and the invariant that keeps the redundant indexes in step. */
module CatalogueState {
  import opened Wrappers
  import opened Strings

  const UINT32_LIMIT := 0x1_0000_0000

  datatype Coordinates = Coordinates(lat: real, lng: real)

  const ORIGIN := Coordinates(0.0, 0.0)

  datatype Stop = Stop(name: string, coordinates: Coordinates)

  /** Stops are positions in the list of all stops; the program keeps pointers into its deque. */
  datatype Bus = Bus(name: string, stops: seq<nat>, isLoop: bool)

  datatype State = State(
    allStops: seq<Stop>,
    allBuses: seq<Bus>,
    stops: map<string, nat>,
    buses: map<string, nat>,
    busesInStop: map<string, seq<string>>,
    lengths: map<(nat, nat), nat>)

  datatype CatalogueError = OutOfRange | LengthNotFound

  const EMPTY := State([], [], map[], map[], map[], map[])

  predicate StopsFound(s: State) {
    forall name :: name in s.stops ==> s.stops[name] < |s.allStops|
  }

  // ---- Operations

  function AddStop(s: State, name: string, location: Coordinates): State
    requires StopsFound(s)
  {
    if name in s.stops then
      if s.allStops[s.stops[name]].coordinates == ORIGIN then
        s.(allStops := s.allStops[s.stops[name] := Stop(name, location)])
      else s
    else
      s.(allStops := s.allStops + [Stop(name, location)], stops := s.stops[name := |s.allStops|])
  }

  function EnsureStop(s: State, name: string): State
    requires StopsFound(s)
  {
    if name in s.stops then s else AddStop(s, name, ORIGIN)
  }

  function EnlistBus(busesInStop: map<string, seq<string>>, stop: string, bus: string): map<string, seq<string>> {
    var served := if stop in busesInStop then busesInStop[stop] else [];
    busesInStop[stop := if bus in served then served else served + [bus]]
  }

  /** Looking up or creating one more stop for the last bus. */
  function ServeOne(s: State, bus: string, ids: seq<nat>, name: string): (State, seq<nat>)
    requires StopsFound(s)
  {
    var after := EnsureStop(s, name);
    (after.(busesInStop := EnlistBus(after.busesInStop, name, bus)), ids + [after.stops[name]])
  }

  /** The stops of a new bus, looked up or created in turn, each listing the bus once. */
  function ServeStops(s: State, bus: string, names: seq<string>): (r: (State, seq<nat>))
    requires StopsFound(s)
    ensures StopsFound(r.0) && r.0.allBuses == s.allBuses
  {
    if names == [] then (s, [])
    else
      var (before, ids) := ServeStops(s, bus, names[..|names| - 1]);
      ServeOne(before, bus, ids, names[|names| - 1])
  }

  function PushBus(s: State, name: string, isLoop: bool): State {
    s.(allBuses := s.allBuses + [Bus(name, [], isLoop)], buses := s.buses[name := |s.allBuses|])
  }

  function SetStops(s: State, ids: seq<nat>): State
    requires s.allBuses != []
  {
    s.(allBuses := s.allBuses[|s.allBuses| - 1 := s.allBuses[|s.allBuses| - 1].(stops := ids)])
  }

  function AddBus(s: State, name: string, names: seq<string>, isLoop: bool): State
    requires StopsFound(s)
  {
    var (served, ids) := ServeStops(PushBus(s, name, isLoop), name, names);
    SetStops(served, ids)
  }

  /** A missing first stop throws, a missing second stop is created, a known pair keeps its first length. */
  function AddLength(s: State, from: string, to: string, length: nat): Result<State, CatalogueError>
    requires StopsFound(s)
  {
    if from !in s.stops then Failure(OutOfRange)
    else
      var s := EnsureStop(s, to);
      var key := (s.stops[from], s.stops[to]);
      Success(if key in s.lengths then s else s.(lengths := s.lengths[key := length]))
  }

  // ---- The invariant

  /** The names of the buses through stop i, in the order in which they first came to serve it. */
  function Serving(buses: seq<Bus>, i: nat): seq<string> {
    if buses == [] then []
    else
      var last := buses[|buses| - 1];
      var before := Serving(buses[..|buses| - 1], i);
      if i in last.stops && last.name !in before then before + [last.name] else before
  }

  predicate StopIndex(allStops: seq<Stop>, stops: map<string, nat>) {
    && (forall name :: name in stops ==> stops[name] < |allStops| && allStops[stops[name]].name == name)
    && (forall i :: 0 <= i < |allStops| ==> allStops[i].name in stops && stops[allStops[i].name] == i)
  }

  lemma StopNamesDiffer(allStops: seq<Stop>, stops: map<string, nat>)
    requires StopIndex(allStops, stops)
    ensures forall i, j :: 0 <= i < j < |allStops| ==> allStops[i].name != allStops[j].name
  {
  }

  /** A name finds the bus added last under it. */
  predicate BusIndex(allBuses: seq<Bus>, buses: map<string, nat>) {
    && (forall name :: name in buses ==> buses[name] < |allBuses| && allBuses[buses[name]].name == name)
    && (forall b :: 0 <= b < |allBuses| ==> allBuses[b].name in buses && b <= buses[allBuses[b].name])
  }

  predicate Below(ids: seq<nat>, n: nat) {
    forall m :: 0 <= m < |ids| ==> ids[m] < n
  }

  predicate BusStops(allBuses: seq<Bus>, n: nat) {
    forall b :: 0 <= b < |allBuses| ==> Below(allBuses[b].stops, n)
  }

  /** busesInStop lists, for exactly the stops some bus serves, the names of those buses. */
  predicate ServingIndex(allBuses: seq<Bus>, stops: map<string, nat>, busesInStop: map<string, seq<string>>) {
    && busesInStop.Keys <= stops.Keys
    && forall x :: x in stops ==> ListedAs(busesInStop, x, Serving(allBuses, stops[x]))
  }

  predicate ListedAs(busesInStop: map<string, seq<string>>, x: string, names: seq<string>) {
    if names == [] then x !in busesInStop else x in busesInStop && busesInStop[x] == names
  }

  predicate LengthKeys(lengths: map<(nat, nat), nat>, n: nat) {
    forall key :: key in lengths ==> key.0 < n && key.1 < n && lengths[key] < UINT32_LIMIT
  }

  predicate WellFormed(s: State) {
    && StopIndex(s.allStops, s.stops)
    && BusIndex(s.allBuses, s.buses)
    && BusStops(s.allBuses, |s.allStops|)
    && ServingIndex(s.allBuses, s.stops, s.busesInStop)
    && LengthKeys(s.lengths, |s.allStops|)
  }

  // ---- Every operation keeps it

  lemma {:induction false} ServingUnused(buses: seq<Bus>, i: nat)
    requires BusStops(buses, i)
    ensures Serving(buses, i) == []
  {
    if buses != [] {
      ServingUnused(buses[..|buses| - 1], i);
    }
  }

  lemma NewStopIndex(allStops: seq<Stop>, stops: map<string, nat>, stop: Stop)
    requires StopIndex(allStops, stops) && stop.name !in stops
    ensures StopIndex(allStops + [stop], stops[stop.name := |allStops|])
  {
  }

  lemma MovedStopIndex(allStops: seq<Stop>, stops: map<string, nat>, stop: Stop)
    requires StopIndex(allStops, stops) && stop.name in stops
    ensures StopIndex(allStops[stops[stop.name] := stop], stops)
  {
    var moved := allStops[stops[stop.name] := stop];
    assert forall i :: 0 <= i < |allStops| ==> moved[i].name == allStops[i].name;
  }

  lemma NewServingIndex(allBuses: seq<Bus>, stops: map<string, nat>, index: map<string, seq<string>>,
                        name: string, n: nat)
    requires ServingIndex(allBuses, stops, index) && BusStops(allBuses, n) && name !in stops
    ensures ServingIndex(allBuses, stops[name := n], index)
  {
    ServingUnused(allBuses, n);
  }

  lemma MoreStops(allBuses: seq<Bus>, n: nat)
    requires BusStops(allBuses, n)
    ensures BusStops(allBuses, n + 1)
  {
    forall b | 0 <= b < |allBuses| ensures Below(allBuses[b].stops, n + 1) {
      assert Below(allBuses[b].stops, n);
    }
  }

  lemma AddStopKeeps(s: State, name: string, location: Coordinates)
    requires WellFormed(s)
    ensures WellFormed(AddStop(s, name, location))
  {
    if name in s.stops {
      MovedStopIndex(s.allStops, s.stops, Stop(name, location));
    } else {
      NewStopIndex(s.allStops, s.stops, Stop(name, location));
      NewServingIndex(s.allBuses, s.stops, s.busesInStop, name, |s.allStops|);
      MoreStops(s.allBuses, |s.allStops|);
    }
  }

  /** Pushing a bus without stops changes no stop's list. */
  lemma PushBusKeeps(s: State, name: string, isLoop: bool)
    requires WellFormed(s)
    ensures WellFormed(PushBus(s, name, isLoop))
  {
    var s' := PushBus(s, name, isLoop);
    assert s'.allBuses[..|s.allBuses|] == s.allBuses;
    assert forall i: nat :: Serving(s'.allBuses, i) == Serving(s.allBuses, i);
  }

  /** Giving the last bus one more stop adds the bus to that stop's list, once, and to no other. */
  lemma ServeOneServing(before: seq<Bus>, after: seq<Bus>, i: nat)
    requires before != []
    requires after == before[|before| - 1 := before[|before| - 1].(stops := before[|before| - 1].stops + [i])]
    ensures forall j: nat | j != i :: Serving(after, j) == Serving(before, j)
    ensures Serving(after, i) ==
            if before[|before| - 1].name in Serving(before, i) then Serving(before, i)
            else Serving(before, i) + [before[|before| - 1].name]
  {
    assert after[..|after| - 1] == before[..|before| - 1];
  }

  lemma ServeOneIndexes(before: seq<Bus>, after: seq<Bus>, stops: map<string, nat>,
                        index: map<string, seq<string>>, x: string, n: nat)
    requires before != [] && x in stops && stops[x] < n
    requires after == before[|before| - 1 := before[|before| - 1].(stops := before[|before| - 1].stops + [stops[x]])]
    requires forall y :: y in stops && y != x ==> stops[y] != stops[x]
    requires ServingIndex(before, stops, index) && BusStops(before, n)
    ensures ServingIndex(after, stops, EnlistBus(index, x, before[|before| - 1].name)) && BusStops(after, n)
  {
    ServeOneServing(before, after, stops[x]);
    var index' := EnlistBus(index, x, before[|before| - 1].name);
    forall y | y in stops ensures ListedAs(index', y, Serving(after, stops[y])) {
      assert ListedAs(index, y, Serving(before, stops[y]));
    }
    forall b | 0 <= b < |after| ensures Below(after[b].stops, n) {
      assert Below(before[b].stops, n);
    }
  }

  lemma ListedKeeps(s: State, index: map<string, seq<string>>)
    requires StopIndex(s.allStops, s.stops) && BusIndex(s.allBuses, s.buses) && BusStops(s.allBuses, |s.allStops|)
    requires ServingIndex(s.allBuses, s.stops, index) && LengthKeys(s.lengths, |s.allStops|)
    ensures WellFormed(s.(busesInStop := index))
  {
  }

  /** One more stop of the last bus, enlisted at once. */
  lemma ServeOneKeeps(s: State, ids: seq<nat>, x: string)
    requires s.allBuses != [] && WellFormed(SetStops(s, ids)) && x in s.stops
    ensures WellFormed(SetStops(s.(busesInStop := EnlistBus(s.busesInStop, x, s.allBuses[|s.allBuses| - 1].name)),
                                ids + [s.stops[x]]))
  {
    var before := SetStops(s, ids);
    var after := SetStops(s, ids + [s.stops[x]]);
    assert StopIndex(s.allStops, s.stops);
    ServeOneIndexes(before.allBuses, after.allBuses, s.stops, s.busesInStop, x, |s.allStops|);
    BusNamesDecide(before.allBuses, after.allBuses, s.buses);
    var index := EnlistBus(s.busesInStop, x, s.allBuses[|s.allBuses| - 1].name);
    ListedKeeps(after, index);
    assert SetStops(s.(busesInStop := index), ids + [s.stops[x]]) == after.(busesInStop := index);
  }

  lemma BusNamesDecide(before: seq<Bus>, after: seq<Bus>, buses: map<string, nat>)
    requires BusIndex(before, buses) && |after| == |before|
    requires forall b :: 0 <= b < |before| ==> after[b].name == before[b].name
    ensures BusIndex(after, buses)
  {
  }

  lemma EnsureCommutes(s: State, ids: seq<nat>, name: string)
    requires StopsFound(s) && s.allBuses != []
    ensures EnsureStop(SetStops(s, ids), name) == SetStops(EnsureStop(s, name), ids)
  {
  }

  lemma EnsureAndServeKeeps(s: State, ids: seq<nat>, name: string)
    requires StopsFound(s) && s.allBuses != [] && WellFormed(SetStops(s, ids))
    ensures var (served, ids') := ServeOne(s, s.allBuses[|s.allBuses| - 1].name, ids, name);
      WellFormed(SetStops(served, ids'))
  {
    AddStopKeeps(SetStops(s, ids), name, ORIGIN);
    EnsureCommutes(s, ids, name);
    ServeOneKeeps(EnsureStop(s, name), ids, name);
  }

  lemma {:induction false} ServeStopsKeeps(s: State, names: seq<string>)
    requires StopsFound(s) && s.allBuses != [] && WellFormed(SetStops(s, []))
    ensures var (served, ids) := ServeStops(s, s.allBuses[|s.allBuses| - 1].name, names);
      WellFormed(SetStops(served, ids))
  {
    if names != [] {
      ServeStopsKeeps(s, names[..|names| - 1]);
      var (before, ids) := ServeStops(s, s.allBuses[|s.allBuses| - 1].name, names[..|names| - 1]);
      EnsureAndServeKeeps(before, ids, names[|names| - 1]);
    }
  }

  lemma AddBusKeeps(s: State, name: string, names: seq<string>, isLoop: bool)
    requires WellFormed(s)
    ensures WellFormed(AddBus(s, name, names, isLoop))
  {
    var pushed := PushBus(s, name, isLoop);
    PushBusKeeps(s, name, isLoop);
    assert SetStops(pushed, []) == pushed;
    ServeStopsKeeps(pushed, names);
  }

  lemma SetLengthKeeps(s: State, key: (nat, nat), length: nat)
    requires WellFormed(s) && key.0 < |s.allStops| && key.1 < |s.allStops| && length < UINT32_LIMIT
    ensures WellFormed(s.(lengths := s.lengths[key := length]))
  {
  }

  lemma AddLengthKeeps(s: State, from: string, to: string, length: nat)
    requires WellFormed(s) && length < UINT32_LIMIT
    ensures AddLength(s, from, to, length).Success? ==> WellFormed(AddLength(s, from, to, length).value)
  {
    if from in s.stops {
      AddStopKeeps(s, to, ORIGIN);
      var s' := EnsureStop(s, to);
      SetLengthKeeps(s', (s'.stops[from], s'.stops[to]), length);
    }
  }

  // ---- Runs

  datatype Operation =
    | OpStop(name: string, location: Coordinates)
    | OpBus(name: string, stops: seq<string>, isLoop: bool)
    | OpLength(from: string, to: string, length: nat)

  /** A throwing call changes nothing. */
  function Apply(s: State, op: Operation): State
    requires StopsFound(s)
  {
    match op
    case OpStop(name, location) => AddStop(s, name, location)
    case OpBus(name, stops, isLoop) => AddBus(s, name, stops, isLoop)
    case OpLength(from, to, length) =>
      var r := AddLength(s, from, to, length);
      if r.Success? then r.value else s
  }

  predicate Allowed(op: Operation) {
    op.OpLength? ==> op.length < UINT32_LIMIT
  }

  /** s is what some sequence of calls makes of an empty catalogue. */
  ghost predicate Reached(s: State, ops: seq<Operation>)
    decreases |ops|
  {
    if ops == [] then s == EMPTY
    else
      exists before :: Reached(before, ops[..|ops| - 1]) && StopsFound(before)
                       && Allowed(ops[|ops| - 1]) && s == Apply(before, ops[|ops| - 1])
  }

  lemma {:induction false} ReachedWellFormed(s: State, ops: seq<Operation>)
    requires Reached(s, ops)
    ensures WellFormed(s)
    decreases |ops|
  {
    if ops != [] {
      var before :| Reached(before, ops[..|ops| - 1]) && StopsFound(before)
                    && Allowed(ops[|ops| - 1]) && s == Apply(before, ops[|ops| - 1]);
      ReachedWellFormed(before, ops[..|ops| - 1]);
      match ops[|ops| - 1]
      case OpStop(name, location) => AddStopKeeps(before, name, location);
      case OpBus(name, stops, isLoop) => AddBusKeeps(before, name, stops, isLoop);
      case OpLength(from, to, length) => AddLengthKeeps(before, from, to, length);
    }
  }

  /** Every sequence of calls leads somewhere, and to one state only. */
  lemma {:induction false} EveryRunReaches(ops: seq<Operation>) returns (s: State)
    requires forall m :: 0 <= m < |ops| ==> Allowed(ops[m])
    ensures Reached(s, ops) && forall t :: Reached(t, ops) ==> t == s
  {
    if ops == [] {
      s := EMPTY;
    } else {
      var before := EveryRunReaches(ops[..|ops| - 1]);
      ReachedWellFormed(before, ops[..|ops| - 1]);
      s := Apply(before, ops[|ops| - 1]);
    }
  }

  /** The indexes hold no information of their own: stops, buses and lengths decide the state. */
  lemma IndexesDetermined(a: State, b: State)
    requires WellFormed(a) && WellFormed(b)
    requires a.allStops == b.allStops && a.allBuses == b.allBuses && a.lengths == b.lengths
    ensures a == b
  {
    StopIndexDetermined(a.allStops, a.stops, b.stops);
    BusIndexDetermined(a.allBuses, a.buses, b.buses);
    ServingIndexDetermined(a.allBuses, a.stops, a.busesInStop, b.busesInStop);
  }

  lemma StopIndexDetermined(allStops: seq<Stop>, a: map<string, nat>, b: map<string, nat>)
    requires StopIndex(allStops, a) && StopIndex(allStops, b)
    ensures a == b
  {
    assert forall x :: x in a ==> allStops[a[x]].name == x;
    assert forall x :: x in b ==> allStops[b[x]].name == x;
  }

  lemma BusIndexDetermined(allBuses: seq<Bus>, a: map<string, nat>, b: map<string, nat>)
    requires BusIndex(allBuses, a) && BusIndex(allBuses, b)
    ensures a == b
  {
    assert forall x :: x in a ==> allBuses[a[x]].name == x && a[x] <= b[x];
    assert forall x :: x in b ==> allBuses[b[x]].name == x && b[x] <= a[x];
  }

  lemma ServingIndexDetermined(allBuses: seq<Bus>, stops: map<string, nat>,
                               a: map<string, seq<string>>, b: map<string, seq<string>>)
    requires ServingIndex(allBuses, stops, a) && ServingIndex(allBuses, stops, b)
    ensures a == b
  {
    assert forall x :: x in stops ==>
      ListedAs(a, x, Serving(allBuses, stops[x])) && ListedAs(b, x, Serving(allBuses, stops[x]));
  }

  // ---- What the operations mean

  /** Everything recorded stays: stops keep their places and names, a place once set is final, buses other than
      the changed one stay, and a length once recorded is final. */
  predicate HistoryKept(s: State, t: State) {
    && |s.allStops| <= |t.allStops|
    && (forall i :: 0 <= i < |s.allStops| ==> StopKept(s.allStops[i], t.allStops[i]))
    && s.allBuses <= t.allBuses
    && (forall key :: key in s.lengths ==> key in t.lengths && t.lengths[key] == s.lengths[key])
  }

  predicate StopKept(before: Stop, after: Stop) {
    after.name == before.name && (before.coordinates != ORIGIN ==> after == before)
  }

  /** A new stop comes last; a stop known at the origin is placed; one placed before, and every other, stays. */
  lemma AddStopMeans(s: State, name: string, location: Coordinates)
    requires StopIndex(s.allStops, s.stops)
    ensures var t := AddStop(s, name, location);
      && t == s.(allStops := t.allStops, stops := t.stops)
      && t.stops.Keys == s.stops.Keys + {name} && (forall x :: x in s.stops ==> t.stops[x] == s.stops[x])
      && |t.allStops| == |s.allStops| + (if name in s.stops then 0 else 1)
      && (forall i :: 0 <= i < |s.allStops| && s.allStops[i].name != name ==> t.allStops[i] == s.allStops[i])
      && t.stops[name] < |t.allStops|
      && t.allStops[t.stops[name]] ==
         if name in s.stops && s.allStops[s.stops[name]].coordinates != Coordinates(0.0, 0.0) then
           s.allStops[s.stops[name]]
         else Stop(name, location)
  {
  }

  lemma EnsureStopMeans(s: State, name: string)
    requires StopIndex(s.allStops, s.stops)
    ensures var t := EnsureStop(s, name);
      && t == s.(allStops := t.allStops, stops := t.stops) && StopIndex(t.allStops, t.stops)
      && t.allStops == s.allStops + (if name in s.stops then [] else [Stop(name, Coordinates(0.0, 0.0))])
      && t.stops.Keys == s.stops.Keys + {name} && (forall x :: x in s.stops ==> t.stops[x] == s.stops[x])
      && t.allStops[t.stops[name]].name == name
  {
    if name in s.stops {
      assert s.allStops + [] == s.allStops;
    } else {
      NewStopIndex(s.allStops, s.stops, Stop(name, ORIGIN));
    }
  }

  /** The stops created for a bus: its unknown names, at the origin. */
  predicate OnlyNamed(stops: seq<Stop>, from: nat, names: seq<string>) {
    forall i :: from <= i < |stops| ==> stops[i].coordinates == ORIGIN && stops[i].name in names
  }

  /** The names that are not known, each once, in the order in which they first occur. */
  function Missing(names: seq<string>, known: set<string>): seq<string> {
    if names == [] then []
    else
      var before, last := Missing(names[..|names| - 1], known), names[|names| - 1];
      if last in known || last in before then before else before + [last]
  }

  lemma {:induction false} MissingExact(names: seq<string>, known: set<string>)
    ensures forall x :: x in Missing(names, known) <==> x in names && x !in known
    ensures Distinct(Missing(names, known))
  {
    if names != [] {
      MissingExact(names[..|names| - 1], known);
      assert names == names[..|names| - 1] + [names[|names| - 1]];
    }
  }

  function StopsAtOrigin(names: seq<string>): seq<Stop> {
    seq(|names|, m requires 0 <= m < |names| => Stop(names[m], Coordinates(0.0, 0.0)))
  }

  /** t arises from s by creating those of the names that were missing, at the origin; ids are their places. */
  ghost predicate Served(s: State, t: State, names: seq<string>, ids: seq<nat>) {
    && StopIndex(t.allStops, t.stops)
    && t == s.(allStops := t.allStops, stops := t.stops, busesInStop := t.busesInStop)
    && t.allStops == s.allStops + StopsAtOrigin(Missing(names, s.stops.Keys))
    && t.stops.Keys == s.stops.Keys + (set x | x in names)
    && StandAt(t.allStops, ids, names)
  }

  predicate StandAt(stops: seq<Stop>, ids: seq<nat>, names: seq<string>) {
    |ids| == |names| && forall m :: 0 <= m < |ids| ==> ids[m] < |stops| && stops[ids[m]].name == names[m]
  }

  lemma MissingOneMore(names: seq<string>, name: string, known: set<string>)
    ensures Missing(names + [name], known) ==
            if name in known || name in names then Missing(names, known) else Missing(names, known) + [name]
  {
    assert (names + [name])[..|names|] == names;
    MissingExact(names, known);
  }

  lemma OriginOneMore(names: seq<string>, name: string)
    ensures StopsAtOrigin(names + [name]) == StopsAtOrigin(names) + [Stop(name, Coordinates(0.0, 0.0))]
  {
  }

  /** The stop list after one more name. */
  lemma CreatedOneMore(before: seq<Stop>, names: seq<string>, name: string, known: set<string>)
    ensures before + StopsAtOrigin(Missing(names + [name], known)) ==
            before + StopsAtOrigin(Missing(names, known))
            + (if name in known || name in names then [] else [Stop(name, Coordinates(0.0, 0.0))])
  {
    MissingOneMore(names, name, known);
    OriginOneMore(Missing(names, known), name);
  }

  lemma StandOneMore(before: seq<Stop>, after: seq<Stop>, ids: seq<nat>, names: seq<string>, id: nat, name: string)
    requires StandAt(before, ids, names) && before <= after && id < |after| && after[id].name == name
    ensures StandAt(after, ids + [id], names + [name])
  {
  }

  lemma NamesOneMore(names: seq<string>, name: string)
    ensures (set x | x in names + [name]) == (set x | x in names) + {name}
  {
  }

  lemma EnsureNamed(before: seq<Stop>, known: set<string>, t: State, names: seq<string>, name: string)
    requires StopIndex(t.allStops, t.stops)
    requires t.allStops == before + StopsAtOrigin(Missing(names, known)) && t.stops.Keys == known + (set x | x in names)
    ensures var after := EnsureStop(t, name);
      && after.allStops == before + StopsAtOrigin(Missing(names + [name], known))
      && after.stops.Keys == known + (set x | x in names + [name])
  {
    EnsureStopMeans(t, name);
    NamesOneMore(names, name);
    CreatedOneMore(before, names, name, known);
    assert name in t.stops <==> name in known || name in names;
  }

  lemma ServeOneMeans(s: State, t: State, bus: string, names: seq<string>, ids: seq<nat>, name: string)
    requires StopsFound(t) && Served(s, t, names, ids)
    ensures Served(s, ServeOne(t, bus, ids, name).0, names + [name], ServeOne(t, bus, ids, name).1)
  {
    var after := EnsureStop(t, name);
    EnsureStopMeans(t, name);
    EnsureNamed(s.allStops, s.stops.Keys, t, names, name);
    StandOneMore(t.allStops, after.allStops, ids, names, after.stops[name], name);
    EnlistedServed(s, after, EnlistBus(after.busesInStop, name, bus), names + [name], ids + [after.stops[name]]);
  }

  lemma EnlistedServed(s: State, t: State, index: map<string, seq<string>>, names: seq<string>, ids: seq<nat>)
    requires Served(s, t, names, ids)
    ensures Served(s, t.(busesInStop := index), names, ids)
  {
  }

  lemma ServeStopsUnfold(s: State, bus: string, names: seq<string>)
    requires StopsFound(s) && names != []
    ensures var before := ServeStops(s, bus, names[..|names| - 1]);
      ServeStops(s, bus, names) == ServeOne(before.0, bus, before.1, names[|names| - 1])
  {
  }

  lemma {:induction false} ServeStopsMeans(s: State, bus: string, names: seq<string>)
    requires StopIndex(s.allStops, s.stops)
    ensures Served(s, ServeStops(s, bus, names).0, names, ServeStops(s, bus, names).1)
  {
    if names != [] {
      var init, last := names[..|names| - 1], names[|names| - 1];
      ServeStopsMeans(s, bus, init);
      var before := ServeStops(s, bus, init);
      ServeOneMeans(s, before.0, bus, init, before.1, last);
      ServeStopsUnfold(s, bus, names);
      assert names == init + [last];
    }
  }

  lemma CreatedNamed(before: seq<Stop>, names: seq<string>, known: set<string>)
    ensures OnlyNamed(before + StopsAtOrigin(Missing(names, known)), |before|, names)
  {
    MissingExact(names, known);
    var missing := Missing(names, known);
    assert forall m :: 0 <= m < |missing| ==> missing[m] in missing;
  }

  /** A new bus comes last, under its name, its stops bear the given names in order; the missing ones are created
      at the origin in the order of their first mention, and nothing else is recorded, in particular no length. */
  lemma AddBusMeans(s: State, name: string, names: seq<string>, isLoop: bool) returns (ids: seq<nat>)
    requires WellFormed(s)
    ensures var t := AddBus(s, name, names, isLoop);
      && t.allBuses == s.allBuses + [Bus(name, ids, isLoop)] && t.buses == s.buses[name := |s.allBuses|]
      && t.lengths == s.lengths && HistoryKept(s, t)
      && t.allStops == s.allStops + StopsAtOrigin(Missing(names, s.stops.Keys))
      && t.stops.Keys == s.stops.Keys + (set x | x in names)
      && OnlyNamed(t.allStops, |s.allStops|, names)
      && StandAt(t.allStops, ids, names)
  {
    var pushed := PushBus(s, name, isLoop);
    ServeStopsMeans(pushed, name, names);
    CreatedNamed(s.allStops, names, s.stops.Keys);
    ids := ServeStops(pushed, name, names).1;
  }

  lemma SetLengthMeans(s: State, key: (nat, nat), length: nat)
    ensures var t := if key in s.lengths then s else s.(lengths := s.lengths[key := length]);
      && HistoryKept(s, t) && key in t.lengths && (key !in s.lengths ==> t.lengths[key] == length)
      && t.lengths.Keys == s.lengths.Keys + {key}
  {
  }

  /** A length is recorded for the ordered pair unless one was there; it fails exactly without the first stop.
      A missing second stop is created at the origin, and no other. */
  lemma AddLengthMeans(s: State, from: string, to: string, length: nat)
    requires StopIndex(s.allStops, s.stops)
    ensures AddLength(s, from, to, length).Failure? <==> from !in s.stops
    ensures AddLength(s, from, to, length).Success? ==>
      var t := AddLength(s, from, to, length).value;
      && t == s.(allStops := t.allStops, stops := t.stops, lengths := t.lengths) && HistoryKept(s, t)
      && t.allStops == s.allStops + (if to in s.stops then [] else [Stop(to, Coordinates(0.0, 0.0))])
      && t.stops.Keys == s.stops.Keys + {to}
      && var key := (t.stops[from], t.stops[to]);
         && key in t.lengths && (key !in s.lengths ==> t.lengths[key] == length)
         && t.lengths.Keys == s.lengths.Keys + {key}
  {
    if from in s.stops {
      EnsureStopMeans(s, to);
      var ensured := EnsureStop(s, to);
      SetLengthMeans(ensured, (ensured.stops[from], ensured.stops[to]), length);
    }
  }

  lemma ApplyKeepsHistory(s: State, op: Operation)
    requires WellFormed(s)
    ensures HistoryKept(s, Apply(s, op))
  {
    match op
    case OpStop(name, location) => assert StopIndex(s.allStops, s.stops);
    case OpBus(name, stops, isLoop) => var ids := AddBusMeans(s, name, stops, isLoop);
    case OpLength(from, to, length) => AddLengthMeans(s, from, to, length);
  }

  // ---- Queries

  datatype StopInfo = StopInfo(found: bool, buses: seq<string>)

  function GetInfoStop(s: State, name: string): StopInfo {
    if name !in s.stops then StopInfo(false, [])
    else if name !in s.busesInStop then StopInfo(true, [])
    else StopInfo(true, Sort(s.busesInStop[name]))
  }

  /** Some bus called x stops at stop i. */
  predicate Serves(buses: seq<Bus>, x: string, i: nat) {
    exists b :: 0 <= b < |buses| && buses[b].name == x && i in buses[b].stops
  }

  lemma ServesOneMore(buses: seq<Bus>, x: string, i: nat)
    requires buses != []
    ensures var init, last := buses[..|buses| - 1], buses[|buses| - 1];
      Serves(buses, x, i) <==> Serves(init, x, i) || (last.name == x && i in last.stops)
  {
    var init := buses[..|buses| - 1];
    if Serves(init, x, i) {
      var b :| 0 <= b < |init| && init[b].name == x && i in init[b].stops;
      assert buses[b] == init[b];
    }
    if Serves(buses, x, i) {
      var b :| 0 <= b < |buses| && buses[b].name == x && i in buses[b].stops;
      assert b < |init| ==> init[b] == buses[b];
    }
  }

  lemma {:induction false} ServingDistinct(buses: seq<Bus>, i: nat)
    ensures Distinct(Serving(buses, i))
  {
    if buses != [] {
      ServingDistinct(buses[..|buses| - 1], i);
    }
  }

  lemma {:induction false} ServingListed(buses: seq<Bus>, x: string, i: nat)
    ensures x in Serving(buses, i) <==> Serves(buses, x, i)
  {
    if buses != [] {
      ServingListed(buses[..|buses| - 1], x, i);
      ServesOneMore(buses, x, i);
    }
  }

  lemma ServingExact(buses: seq<Bus>, i: nat)
    ensures Distinct(Serving(buses, i))
    ensures forall x :: x in Serving(buses, i) <==> Serves(buses, x, i)
  {
    ServingDistinct(buses, i);
    forall x ensures x in Serving(buses, i) <==> Serves(buses, x, i) {
      ServingListed(buses, x, i);
    }
  }

  /** The answer about a stop is what scanning all buses and sorting their names would give. */
  lemma StopInfoIsScan(s: State, name: string)
    requires WellFormed(s)
    ensures var info := GetInfoStop(s, name);
      && (info.found <==> exists i :: 0 <= i < |s.allStops| && s.allStops[i].name == name)
      && (forall i, j :: 0 <= i < j < |info.buses| ==> Precedes(info.buses[i], info.buses[j]))
      && forall x :: x in info.buses <==> name in s.stops && Serves(s.allBuses, x, s.stops[name])
  {
    IncreasingMeans(GetInfoStop(s, name).buses);
    if name in s.stops {
      assert ListedAs(s.busesInStop, name, Serving(s.allBuses, s.stops[name]));
      assert s.allStops[s.stops[name]].name == name;
      ServingExact(s.allBuses, s.stops[name]);
      SortSorts(Serving(s.allBuses, s.stops[name]));
    }
  }
}
