/** The velocity surfaces of the workflow: the road and stream velocity
    layers and their per-cell combination with the land-cover velocity into
    one surface per season and vehicle mode (SheDecides_Python_chain.py,
    lines 529-577). The combined surface is handed unchanged to the
    least-cost search as its cost input. */
module Friction {
  import opened Wrappers
  import opened MapCalc

  /** Wet season (`WS`) or dry season (`DS`). */
  datatype Season = Wet | Dry

  /** With a car (`WC`) or without one (`NC`). */
  datatype Car = WithCar | NoCar

  /** Raw land-cover class on which streams have no influence (water). */
  const NoStreamClass: real := 210.0

  /** Configured velocities on roads (per vehicle mode) and on streams. */
  function RoadSpeed(car: Car): real
  {
    match car
    case WithCar => 0.17
    case NoCar => 1.2
  }

  const StreamSpeed: real := 15.0

  /** Velocity layer of a presence map, built the same way for roads
      (line 536) and streams (line 546): the configured speed where the map
      holds 1, null everywhere else. */
  function PresenceVelocity(presence: Cell, speed: real): (r: Cell)
    ensures r.Some? <==> presence == Some(1.0)
    ensures r.Some? ==> r.value == speed
  {
    If(Eq(presence, 1.0), Some(speed), None)
  }

  /** Wet-season formula of line 566: the road velocity where it is defined;
      otherwise, outside class 210, the stream velocity where that is
      defined; otherwise the land-cover velocity. */
  function WetFormula(vRoads: Cell, lulc: Cell, vStreams: Cell, vLulc: Cell): Cell
  {
    If(IsNull(vRoads),
       If(Ne(lulc, NoStreamClass), If(IsNull(vStreams), vLulc, vStreams), vLulc),
       vRoads)
  }

  /** Dry-season formula of line 569: the road velocity where it is
      defined, the land-cover velocity elsewhere. */
  function DryFormula(vRoads: Cell, vLulc: Cell): Cell
  {
    If(IsNull(vRoads), vLulc, vRoads)
  }

  /** The precedence the formulas are meant to express, written directly:
      a road cell wins; in the wet season a stream cell comes next unless the
      raw land-cover class is the no-stream class; otherwise the land-cover
      velocity. A null land-cover class nulls the wet-season value of every
      cell off the road network, because r.mapcalc's `LULC != 210` is null
      there. */
  function Precedence(season: Season, car: Car, roads: Cell, streams: Cell, lulc: Cell, vLulc: Cell): Cell
  {
    if roads == Some(1.0) then Some(RoadSpeed(car))
    else match season
      case Dry => vLulc
      case Wet =>
        if lulc.None? then None
        else if lulc.value != NoStreamClass && streams == Some(1.0) then Some(StreamSpeed)
        else vLulc
  }

  /** Combined velocity of one cell for one scenario: the road and stream
      layers of lines 536 and 546 fed into the formula of line 566 or 569.
      `roads`, `streams` and `lulc` are the raw ROADS, STREAMS and LULC
      cells; `vLulc` is the land-cover velocity for the season. */
  function Combined(season: Season, car: Car, roads: Cell, streams: Cell, lulc: Cell, vLulc: Cell): (r: Cell)
    ensures r == Precedence(season, car, roads, streams, lulc, vLulc)
    ensures r == None || r == Some(RoadSpeed(car)) || r == Some(StreamSpeed) || r == vLulc
    ensures roads == Some(1.0) ==> r == Some(RoadSpeed(car))
    ensures season == Dry && roads != Some(1.0) ==> r == vLulc
    ensures season == Wet && roads != Some(1.0) && lulc.Some? ==>
      r == (if streams == Some(1.0) && lulc.value != NoStreamClass then Some(StreamSpeed) else vLulc)
  {
    var vRoads := PresenceVelocity(roads, RoadSpeed(car));
    match season
    case Wet => WetFormula(vRoads, lulc, PresenceVelocity(streams, StreamSpeed), vLulc)
    case Dry => DryFormula(vRoads, vLulc)
  }

  /** The dry-season surface never looks at the stream layer. */
  lemma DryIgnoresStreams(car: Car, roads: Cell, streams1: Cell, streams2: Cell, lulc: Cell, vLulc: Cell)
    ensures Combined(Dry, car, roads, streams1, lulc, vLulc) == Combined(Dry, car, roads, streams2, lulc, vLulc)
  {
  }

  /** A co-registered stack of input rasters, one entry per cell. */
  predicate CoRegistered(roads: seq<Cell>, streams: seq<Cell>, lulc: seq<Cell>, vLulc: seq<Cell>)
  {
    |roads| == |streams| == |lulc| == |vLulc|
  }

  /** The combined velocity raster `velocity_<car>_<season>`, computed cell
      by cell as r.mapcalc does. */
  method CombineRaster(season: Season, car: Car, roads: seq<Cell>, streams: seq<Cell>, lulc: seq<Cell>, vLulc: seq<Cell>)
    returns (grid: seq<Cell>)
    requires CoRegistered(roads, streams, lulc, vLulc)
    ensures |grid| == |roads|
    ensures forall i :: 0 <= i < |grid| ==> grid[i] == Precedence(season, car, roads[i], streams[i], lulc[i], vLulc[i])
  {
    grid := [];
    var i := 0;
    while i < |roads|
      invariant 0 <= i <= |roads|
      invariant |grid| == i
      invariant forall j :: 0 <= j < i ==> grid[j] == Precedence(season, car, roads[j], streams[j], lulc[j], vLulc[j])
    {
      grid := grid + [Combined(season, car, roads[i], streams[i], lulc[i], vLulc[i])];
      i := i + 1;
    }
  }
}
