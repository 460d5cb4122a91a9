/** Road lengths: the table look-ups of the catalogue and the length of a whole bus route. */
module CatalogueLengths {
  import opened Wrappers
  import opened Sequences
  import opened CatalogueState

  type LengthTable = map<(nat, nat), nat>

  /** Forward if recorded, else backward. */
  function Recorded(lengths: LengthTable, a: nat, b: nat): Option<nat> {
    if (a, b) in lengths then Some(lengths[(a, b)])
    else if (b, a) in lengths then Some(lengths[(b, a)])
    else None
  }

  /** As Recorded, but a stop is at distance zero from itself when nothing is recorded. */
  function Leg(lengths: LengthTable, a: nat, b: nat): Option<nat> {
    if Recorded(lengths, a, b).Some? then Recorded(lengths, a, b)
    else if a == b then Some(0)
    else None
  }

  /** Forward comes before backward, and only then a stop counts as at zero from itself. */
  lemma LegMeans(lengths: LengthTable, a: nat, b: nat)
    ensures (a, b) in lengths ==> Leg(lengths, a, b) == Recorded(lengths, a, b) == Some(lengths[(a, b)])
    ensures (a, b) !in lengths && (b, a) in lengths ==>
              Leg(lengths, a, b) == Recorded(lengths, a, b) == Some(lengths[(b, a)])
    ensures (a, b) !in lengths && (b, a) !in lengths ==>
              Recorded(lengths, a, b) == None && Leg(lengths, a, b) == if a == b then Some(0) else None
  {
  }

  /** The look-up by name that the router uses. */
  function GetLengthBetweenStops(s: State, first: string, second: string): Result<nat, CatalogueError>
  {
    if first !in s.stops || second !in s.stops then Failure(OutOfRange)
    else
      var a, b := s.stops[first], s.stops[second];
      if (a, b) in s.lengths then Success(s.lengths[(a, b)])
      else if (b, a) in s.lengths then Success(s.lengths[(b, a)])
      else if first == second then Success(0)
      else Failure(LengthNotFound)
  }

  /** Looking a pair of stored stops up by name gives the leg between their positions: the length recorded forward,
      else the one recorded backward, else zero from a stop to itself, else an error. */
  lemma LengthByName(s: State, a: nat, b: nat)
    requires StopIndex(s.allStops, s.stops) && a < |s.allStops| && b < |s.allStops|
    ensures GetLengthBetweenStops(s, s.allStops[a].name, s.allStops[b].name) ==
            if Leg(s.lengths, a, b).Some? then Success(Leg(s.lengths, a, b).value) else Failure(LengthNotFound)
    ensures GetLengthBetweenStops(s, s.allStops[a].name, s.allStops[b].name) ==
            if (a, b) in s.lengths then Success(s.lengths[(a, b)])
            else if (b, a) in s.lengths then Success(s.lengths[(b, a)])
            else if a == b then Success(0)
            else Failure(LengthNotFound)
  {
    assert s.stops[s.allStops[a].name] == a && s.stops[s.allStops[b].name] == b;
  }

  // ---- The length of a route

  function ThereAndBack(stops: seq<nat>): (r: seq<nat>)
    requires stops != []
    ensures |r| == 2 * |stops| - 1
  {
    stops + Reversed(stops[..|stops| - 1])
  }

  /** The stops a bus passes in one full run. */
  function FullRun(bus: Bus): seq<nat>
    requires bus.stops != []
  {
    if bus.isLoop then bus.stops else ThereAndBack(bus.stops)
  }

  function SumRecorded(lengths: LengthTable, stops: seq<nat>): Option<nat> {
    if |stops| < 2 then Some(0)
    else
      var before := SumRecorded(lengths, stops[..|stops| - 1]);
      var leg := Recorded(lengths, stops[|stops| - 2], stops[|stops| - 1]);
      if before.None? || leg.None? then None else Some(before.value + leg.value)
  }

  /** Conversion of a 32-bit unsigned value to int keeps the bits. */
  function ToInt32(x: int): (r: int)
    ensures -0x8000_0000 <= r < 0x8000_0000 && (r - x) % 0x1_0000_0000 == 0
  {
    (x + 0x8000_0000) % 0x1_0000_0000 - 0x8000_0000
  }

  lemma ToInt32Exact(x: nat)
    ensures ToInt32(x) == x <==> x < 0x8000_0000
  {
  }

  lemma ToInt32Adds(x: int, y: int)
    ensures ToInt32(ToInt32(x) + y) == ToInt32(x + y)
  {
  }

  /** Every adjacent pair has a recorded length. */
  predicate AllRecorded(lengths: LengthTable, stops: seq<nat>) {
    forall m :: 1 <= m < |stops| ==> Recorded(lengths, stops[m - 1], stops[m]).Some?
  }

  lemma {:induction false} SumRecordedDefined(lengths: LengthTable, stops: seq<nat>)
    ensures SumRecorded(lengths, stops).Some? <==> AllRecorded(lengths, stops)
  {
    if |stops| >= 2 {
      SumRecordedDefined(lengths, stops[..|stops| - 1]);
    }
  }

  function Total(summands: seq<nat>): nat {
    if summands == [] then 0 else Total(summands[..|summands| - 1]) + summands[|summands| - 1]
  }

  /** The recorded lengths between the adjacent stops of a line, forward where there is one. */
  function RoadsAlong(lengths: LengthTable, stops: seq<nat>): seq<nat>
    requires AllRecorded(lengths, stops) && stops != []
  {
    seq(|stops| - 1, m requires 0 <= m < |stops| - 1 =>
      assert Recorded(lengths, stops[m + 1 - 1], stops[m + 1]).Some?;
      if (stops[m], stops[m + 1]) in lengths then lengths[(stops[m], stops[m + 1])]
      else lengths[(stops[m + 1], stops[m])])
  }

  lemma {:induction false} SumRecordedMeans(lengths: LengthTable, stops: seq<nat>)
    requires AllRecorded(lengths, stops) && stops != []
    ensures SumRecorded(lengths, stops) == Some(Total(RoadsAlong(lengths, stops)))
  {
    if |stops| > 1 {
      var init, n := stops[..|stops| - 1], |stops|;
      SumRecordedMeans(lengths, init);
      assert Recorded(lengths, stops[n - 2], stops[n - 1]).Some?;
      assert RoadsAlong(lengths, stops)[..n - 2] == RoadsAlong(lengths, init);
    }
  }
}
