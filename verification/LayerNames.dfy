/** How the workflow names its layers and files and later recovers
    scenario parts from those names by slicing and splitting
    (SheDecides_Python_chain.py, lines 555-598, 604, 655, 738-740, 762,
    778-781 and 791-792). */
module LayerNames {
  import opened Wrappers
  import opened Strings
  import opened Paths
  import opened Friction

  /** Facility subset: all facilities or level-2 facilities only. */
  datatype Level = All | L2

  /** One accessibility scenario. */
  datatype Scenario = Scenario(season: Season, car: Car, level: Level)

  /** Population layer whose zonal sums are tabulated. */
  datatype StatLayer = Pop | Wocba

  function SeasonTag(season: Season): string
  {
    match season
    case Wet => "WS"
    case Dry => "DS"
  }

  function CarTag(car: Car): string
  {
    match car
    case WithCar => "WC"
    case NoCar => "NC"
  }

  function LevelTag(level: Level): string
  {
    match level
    case All => "all"
    case L2 => "L2"
  }

  /** Name of the statistics raster (line 678) and the column prefix the
      pivot is expected to use for it. */
  function StatLayerName(layer: StatLayer): string
  {
    StatPrefixName(layer) + "_PPP"
  }

  function StatPrefixName(layer: StatLayer): string
  {
    match layer
    case Pop => "POP"
    case Wocba => "WOCBA"
  }

  /** Name of the facility point layer (the configured `HC`). */
  const FacilityLayer: string := "HC"

  // ---------------------------------------------------------------------
  // Names as the workflow builds them
  // ---------------------------------------------------------------------

  /** `velocity_<car>_<season>` (line 563). */
  function VelocityLayer(car: Car, season: Season): string
  {
    "velocity_" + CarTag(car) + "_" + SeasonTag(season)
  }

  /** `veloc_rast[-5:-3]`, the car tag read back (line 595). */
  function CarOf(velocity: string): string
  {
    PySlice(velocity, -5, -3)
  }

  /** `CostDist_HC<level>_<velocity[-5:]>` (line 597). */
  function CostLayer(level: string, velocity: string): string
  {
    "CostDist_HC" + level + "_" + PySuffix(velocity, -5)
  }

  /** `Nearest_HC<level>_<velocity[-5:]>` (line 598). */
  function NearestLayer(level: string, velocity: string): string
  {
    "Nearest_HC" + level + "_" + PySuffix(velocity, -5)
  }

  /** The start-point layer of the least-cost search, `HC<level>` (line 604). */
  function StartPoints(level: string): string
  {
    FacilityLayer + level
  }

  /** `Isochrones_<cost[9:]>` (line 655). */
  function IsochroneLayer(cost: string): string
  {
    "Isochrones_" + PySuffix(cost, 9)
  }

  /** `Cross_<isochrone[11:]>` (line 738). */
  function CrossLayer(isochrone: string): string
  {
    "Cross_" + PySuffix(isochrone, 11)
  }

  /** `Nearest_<isochrone[11:]>`, the catchment layer crossed with an
      isochrone layer (line 740). */
  function CatchmentLayer(isochrone: string): string
  {
    "Nearest_" + PySuffix(isochrone, 11)
  }

  /** `<dir>/stats_<cross>_<layer>.csv` (line 762). */
  function StatsCsv(dir: string, cross: string, layer: string): string
  {
    Join(dir, "stats_" + cross + "_" + layer + ".csv")
  }

  /** `<root>_pivot<ext>` (lines 778-779). */
  function PivotCsv(csv: string): string
  {
    SplitExt(csv).0 + "_pivot" + SplitExt(csv).1
  }

  /** Column prefix: the next-to-last `_` field of the file name (line 781). */
  function StatPrefix(csv: string): Option<string>
  {
    PyIndex(Split(Basename(csv), '_'), -2)
  }

  /** Scenario name: the `_` fields of the file name from the third up to
      but excluding the last, joined again with `_` (line 791). */
  function ScenarioName(csv: string): string
  {
    JoinWith(PySlice(Split(Basename(csv), '_'), 2, -1), '_')
  }

  /** Facility layer of the scenario: the third `_` field of the file name
      (line 792). */
  function LevelOf(csv: string): Option<string>
  {
    PyIndex(Split(Basename(csv), '_'), 2)
  }

  // ---------------------------------------------------------------------
  // Scenario enumeration
  // ---------------------------------------------------------------------

  /** The scenarios in the order the nested loops of lines 555-556 and 592
      visit them: season, then vehicle mode, then facility subset. */
  function Scenarios(): (r: seq<Scenario>)
    ensures |r| == 8
    ensures forall i, j :: 0 <= i < j < |r| ==> r[i] != r[j]
  {
    [Scenario(Wet, WithCar, All), Scenario(Wet, WithCar, L2),
     Scenario(Wet, NoCar, All), Scenario(Wet, NoCar, L2),
     Scenario(Dry, WithCar, All), Scenario(Dry, WithCar, L2),
     Scenario(Dry, NoCar, All), Scenario(Dry, NoCar, L2)]
  }

  /** Every combination of season, vehicle mode and facility subset is
      computed. */
  lemma ScenariosComplete(s: Scenario)
    ensures s in Scenarios()
  {
    var r := Scenarios();
    match s
    case Scenario(season, car, level) =>
      match season
      case Wet => {
        match car
        case WithCar => { match level case All => assert s == r[0]; case L2 => assert s == r[1]; }
        case NoCar => { match level case All => assert s == r[2]; case L2 => assert s == r[3]; }
      }
      case Dry => {
        match car
        case WithCar => { match level case All => assert s == r[4]; case L2 => assert s == r[5]; }
        case NoCar => { match level case All => assert s == r[6]; case L2 => assert s == r[7]; }
      }
  }

  function ScenarioVelocity(s: Scenario): string
  {
    VelocityLayer(s.car, s.season)
  }

  function ScenarioCost(s: Scenario): string
  {
    CostLayer(LevelTag(s.level), ScenarioVelocity(s))
  }

  // ---------------------------------------------------------------------
  // Round trips of the name chain
  // ---------------------------------------------------------------------

  /** The last five characters of a velocity layer name are
      `<car>_<season>`, and characters -5..-3 are the car tag. */
  lemma VelocityTail(car: Car, season: Season)
    ensures PySuffix(VelocityLayer(car, season), -5) == CarTag(car) + "_" + SeasonTag(season)
    ensures CarOf(VelocityLayer(car, season)) == CarTag(car)
  {
    var v := VelocityLayer(car, season);
    var t := CarTag(car) + "_" + SeasonTag(season);
    assert v == "velocity_" + t;
    assert |t| == 5;
    assert v[|v| - 5..] == t;
    assert v[|v| - 5..|v| - 3] == CarTag(car);
  }

  /** Slicing `CostDist_` off a cost layer and `Isochrones_` off the
      isochrone layer gives back the cost layer's tail, so the cross and
      catchment names of lines 738-740 are those created at lines 597-598. */
  lemma NameChain(level: string, velocity: string)
    ensures CatchmentLayer(IsochroneLayer(CostLayer(level, velocity))) == NearestLayer(level, velocity)
    ensures CrossLayer(IsochroneLayer(CostLayer(level, velocity))) == "Cross_HC" + level + "_" + PySuffix(velocity, -5)
  {
    var tail := "HC" + level + "_" + PySuffix(velocity, -5);
    assert CostLayer(level, velocity) == "CostDist_" + tail;
    PySuffixStripsPrefix("CostDist_", tail);
    assert IsochroneLayer(CostLayer(level, velocity)) == "Isochrones_" + tail;
    PySuffixStripsPrefix("Isochrones_", tail);
  }

  /** No two scenarios write the same cost layer. */
  lemma CostLayersDistinct(s1: Scenario, s2: Scenario)
    requires ScenarioCost(s1) == ScenarioCost(s2)
    ensures s1 == s2
  {
    VelocityTail(s1.car, s1.season);
    VelocityTail(s2.car, s2.season);
    var n1 := ScenarioCost(s1);
    var n2 := ScenarioCost(s2);
    assert |n1| == 17 + |LevelTag(s1.level)|;
    assert |n2| == 17 + |LevelTag(s2.level)|;
    assert n1[|n1| - 5] == CarTag(s1.car)[0];
    assert n2[|n2| - 5] == CarTag(s2.car)[0];
    assert n1[|n1| - 2] == SeasonTag(s1.season)[0];
    assert n2[|n2| - 2] == SeasonTag(s2.season)[0];
  }

  /** A field of a `_`-separated file name. */
  predicate Token(t: string)
  {
    '_' !in t && '/' !in t && '.' !in t
  }

  /** Seven `_`-free fields joined with `_` split back into themselves. */
  lemma SplitSeven(t0: string, t1: string, t2: string, t3: string, t4: string, t5: string, t6: string)
    requires '_' !in t0 && '_' !in t1 && '_' !in t2 && '_' !in t3 && '_' !in t4 && '_' !in t5 && '_' !in t6
    ensures Split(t0 + "_" + (t1 + "_" + (t2 + "_" + (t3 + "_" + (t4 + "_" + (t5 + "_" + t6))))), '_')
      == [t0, t1, t2, t3, t4, t5, t6]
  {
    var l6 := [t6];
    var l5 := [t5] + l6;
    var l4 := [t4] + l5;
    var l3 := [t3] + l4;
    var l2 := [t2] + l3;
    var l1 := [t1] + l2;
    var l0 := [t0] + l1;
    JoinCons(t5, l6, '_');
    JoinCons(t4, l5, '_');
    JoinCons(t3, l4, '_');
    JoinCons(t2, l3, '_');
    JoinCons(t1, l2, '_');
    JoinCons(t0, l1, '_');
    assert l0 == [t0, t1, t2, t3, t4, t5, t6];
    assert forall k :: 0 <= k < |l0| ==> '_' !in l0[k];
    SplitJoin(l0, '_');
  }

  /** The statistics file name of line 762, for cross layer
      `Cross_<a>_<b>_<c>` and layer `<p>_PPP`, written field by field. */
  lemma StatsNameShape(a: string, b: string, c: string, p: string)
    ensures "stats_" + ("Cross_" + (a + "_" + b + "_" + c)) + "_" + (p + "_PPP") + ".csv"
      == "stats" + "_" + ("Cross" + "_" + (a + "_" + (b + "_" + (c + "_" + (p + "_" + "PPP.csv")))))
  {
  }

  /** The pivot file name of lines 778-779 written field by field; its
      last field is `pivot.csv`. */
  lemma PivotNameShape(a: string, b: string, c: string, p: string)
    ensures "stats_" + ("Cross_" + (a + "_" + b + "_" + c)) + "_" + (p + "_PPP") + "_pivot" + ".csv"
      == "stats" + "_" + ("Cross" + "_" + (a + "_" + (b + "_" + (c + "_" + (p + "_" + ("PPP" + "_" + "pivot.csv"))))))
  {
  }

  /** The file name of line 762 splits into its seven fields. */
  lemma StatsNameFields(a: string, b: string, c: string, p: string)
    requires Token(a) && Token(b) && Token(c) && Token(p)
    ensures Split("stats_" + ("Cross_" + (a + "_" + b + "_" + c)) + "_" + (p + "_PPP") + ".csv", '_')
      == ["stats", "Cross", a, b, c, p, "PPP.csv"]
  {
    SplitSeven("stats", "Cross", a, b, c, p, "PPP.csv");
    StatsNameShape(a, b, c, p);
  }

  /** Eight `_`-free fields joined with `_` split back into themselves. */
  lemma SplitEight(t0: string, t1: string, t2: string, t3: string, t4: string, t5: string, t6: string, t7: string)
    requires '_' !in t0 && '_' !in t1 && '_' !in t2 && '_' !in t3 && '_' !in t4 && '_' !in t5 && '_' !in t6 && '_' !in t7
    ensures Split(t0 + "_" + (t1 + "_" + (t2 + "_" + (t3 + "_" + (t4 + "_" + (t5 + "_" + (t6 + "_" + t7)))))), '_')
      == [t0, t1, t2, t3, t4, t5, t6, t7]
  {
    var l7 := [t7];
    var l6 := [t6] + l7;
    var l5 := [t5] + l6;
    var l4 := [t4] + l5;
    var l3 := [t3] + l4;
    var l2 := [t2] + l3;
    var l1 := [t1] + l2;
    var l0 := [t0] + l1;
    JoinCons(t6, l7, '_');
    JoinCons(t5, l6, '_');
    JoinCons(t4, l5, '_');
    JoinCons(t3, l4, '_');
    JoinCons(t2, l3, '_');
    JoinCons(t1, l2, '_');
    JoinCons(t0, l1, '_');
    assert l0 == [t0, t1, t2, t3, t4, t5, t6, t7];
    assert forall k :: 0 <= k < |l0| ==> '_' !in l0[k];
    SplitJoin(l0, '_');
  }

  /** The file name of lines 778-779 splits into eight fields. */
  lemma PivotNameFields(a: string, b: string, c: string, p: string)
    requires Token(a) && Token(b) && Token(c) && Token(p)
    ensures Split("stats_" + ("Cross_" + (a + "_" + b + "_" + c)) + "_" + (p + "_PPP") + "_pivot" + ".csv", '_')
      == ["stats", "Cross", a, b, c, p, "PPP", "pivot.csv"]
  {
    SplitEight("stats", "Cross", a, b, c, p, "PPP", "pivot.csv");
    PivotNameShape(a, b, c, p);
  }

  /** The pivot file of a statistics file sits in the same directory, with
      `_pivot` before the `.csv` extension. */
  lemma PivotOfStats(dir: string, stem: string)
    requires |stem| > 0 && '/' !in stem && '.' !in stem
    ensures PivotCsv(Join(dir, stem + ".csv")) == Join(dir, stem + "_pivot" + ".csv")
  {
    var x := DirPrefix(dir);
    var pivot := stem + "_pivot";
    JoinRelative(dir, stem + ".csv");
    JoinRelative(dir, pivot + ".csv");
    AppendAssoc(x, stem, ".csv");
    AppendAssoc(x, pivot, ".csv");
    AppendAssoc(x, stem, "_pivot");
    SplitExtStemExt(x, stem, ".csv");
  }

  /** The basename of the pivot file of a statistics file. */
  lemma PivotBasename(dir: string, stem: string)
    requires |stem| > 0 && '/' !in stem && '.' !in stem
    ensures Basename(PivotCsv(Join(dir, stem + ".csv"))) == stem + "_pivot" + ".csv"
  {
    var name := stem + "_pivot" + ".csv";
    NotInAppend('/', stem, "_pivot");
    NotInAppend('/', stem + "_pivot", ".csv");
    PivotOfStats(dir, stem);
    BasenameJoin(dir, name);
  }

  /** The cross layer of a scenario is `Cross_HC<level>_<car>_<season>`. */
  lemma ScenarioCross(s: Scenario)
    ensures CrossLayer(IsochroneLayer(ScenarioCost(s)))
      == "Cross_" + ("HC" + LevelTag(s.level) + "_" + CarTag(s.car) + "_" + SeasonTag(s.season))
  {
    VelocityTail(s.car, s.season);
    NameChain(LevelTag(s.level), ScenarioVelocity(s));
  }

  /** The statistics file of a scenario and layer, in any directory. */
  function ScenarioStatsCsv(s: Scenario, layer: StatLayer, dir: string): string
  {
    StatsCsv(dir, CrossLayer(IsochroneLayer(ScenarioCost(s))), StatLayerName(layer))
  }

  /** The statistics file stem of a scenario, before `.csv`. */
  function ScenarioStem(s: Scenario, layer: StatLayer): string
  {
    "stats_" + ("Cross_" + ("HC" + LevelTag(s.level) + "_" + CarTag(s.car) + "_" + SeasonTag(s.season)))
      + "_" + (StatPrefixName(layer) + "_PPP")
  }

  /** A stem has neither `/` nor `.`, so it is one path component without
      an extension. */
  lemma ScenarioStemPlain(s: Scenario, layer: StatLayer)
    ensures |ScenarioStem(s, layer)| > 0 && '/' !in ScenarioStem(s, layer) && '.' !in ScenarioStem(s, layer)
  {
    var a := "HC" + LevelTag(s.level) + "_" + CarTag(s.car) + "_" + SeasonTag(s.season);
    var p := StatPrefixName(layer) + "_PPP";
    PlainAppend("HC", LevelTag(s.level));
    PlainAppend("HC" + LevelTag(s.level), "_");
    PlainAppend("HC" + LevelTag(s.level) + "_", CarTag(s.car));
    PlainAppend("HC" + LevelTag(s.level) + "_" + CarTag(s.car), "_");
    PlainAppend("HC" + LevelTag(s.level) + "_" + CarTag(s.car) + "_", SeasonTag(s.season));
    PlainAppend("Cross_", a);
    PlainAppend("stats_", "Cross_" + a);
    PlainAppend("stats_" + ("Cross_" + a), "_");
    PlainAppend(StatPrefixName(layer), "_PPP");
    PlainAppend("stats_" + ("Cross_" + a) + "_", p);
  }

  predicate Plain(t: string)
  {
    '/' !in t && '.' !in t
  }

  lemma PlainAppend(a: string, b: string)
    requires Plain(a) && Plain(b)
    ensures Plain(a + b)
  {
  }

  lemma ScenarioStatsStem(s: Scenario, layer: StatLayer, dir: string)
    ensures ScenarioStatsCsv(s, layer, dir) == Join(dir, ScenarioStem(s, layer) + ".csv")
  {
    ScenarioCross(s);
  }

  /** The basename of a scenario's statistics file splits into its fields. */
  lemma ScenarioStatsFields(s: Scenario, layer: StatLayer, dir: string)
    ensures Split(Basename(ScenarioStatsCsv(s, layer, dir)), '_')
      == ["stats", "Cross", "HC" + LevelTag(s.level), CarTag(s.car), SeasonTag(s.season), StatPrefixName(layer), "PPP.csv"]
  {
    var stem := ScenarioStem(s, layer);
    ScenarioStatsStem(s, layer, dir);
    ScenarioStemPlain(s, layer);
    NotInAppend('/', stem, ".csv");
    BasenameJoin(dir, stem + ".csv");
    StatsNameFields("HC" + LevelTag(s.level), CarTag(s.car), SeasonTag(s.season), StatPrefixName(layer));
  }

  /** The basename of a scenario's pivot file splits into its fields. */
  lemma ScenarioPivotFields(s: Scenario, layer: StatLayer, dir: string)
    ensures Split(Basename(PivotCsv(ScenarioStatsCsv(s, layer, dir))), '_')
      == ["stats", "Cross", "HC" + LevelTag(s.level), CarTag(s.car), SeasonTag(s.season), StatPrefixName(layer), "PPP", "pivot.csv"]
  {
    var stem := ScenarioStem(s, layer);
    ScenarioStatsStem(s, layer, dir);
    ScenarioStemPlain(s, layer);
    PivotBasename(dir, stem);
    PivotNameFields("HC" + LevelTag(s.level), CarTag(s.car), SeasonTag(s.season), StatPrefixName(layer));
  }

  /** Five fields joined with `_`. */
  lemma JoinFive(t0: string, t1: string, t2: string, t3: string, t4: string)
    ensures JoinWith([t0, t1, t2, t3, t4], '_') == t0 + "_" + t1 + "_" + t2 + "_" + t3 + "_" + t4
  {
    var l4 := [t4];
    var l3 := [t3] + l4;
    var l2 := [t2] + l3;
    var l1 := [t1] + l2;
    var l0 := [t0] + l1;
    JoinCons(t3, l4, '_');
    JoinCons(t2, l3, '_');
    JoinCons(t1, l2, '_');
    JoinCons(t0, l1, '_');
    assert l0 == [t0, t1, t2, t3, t4];
  }

  /** The column prefix read back at line 781 is the layer's own prefix. */
  lemma ScenarioPrefixRead(s: Scenario, layer: StatLayer, dir: string)
    ensures StatPrefix(ScenarioStatsCsv(s, layer, dir)) == Some(StatPrefixName(layer))
  {
    ScenarioStatsFields(s, layer, dir);
  }

  /** The facility layer read back at line 792 is the start-point layer the
      scenario's least-cost search used (line 604). */
  lemma ScenarioLevelRead(s: Scenario, layer: StatLayer, dir: string)
    ensures LevelOf(PivotCsv(ScenarioStatsCsv(s, layer, dir))) == Some(StartPoints(LevelTag(s.level)))
  {
    ScenarioPivotFields(s, layer, dir);
    LevelFromFields(PivotCsv(ScenarioStatsCsv(s, layer, dir)), "HC" + LevelTag(s.level), CarTag(s.car),
      SeasonTag(s.season), StatPrefixName(layer));
  }

  /** A pivot file whose name has the eight fields of lines 778-779 names
      the facility layer by its third. */
  lemma LevelFromFields(csv: string, a: string, b: string, c: string, p: string)
    requires Split(Basename(csv), '_') == ["stats", "Cross", a, b, c, p, "PPP", "pivot.csv"]
    ensures LevelOf(csv) == Some(a)
  {
  }

  /** A pivot file whose name has the eight fields of lines 778-779 names
      the scenario by its middle five. */
  lemma NameFromFields(csv: string, a: string, b: string, c: string, p: string)
    requires Split(Basename(csv), '_') == ["stats", "Cross", a, b, c, p, "PPP", "pivot.csv"]
    ensures ScenarioName(csv) == a + "_" + b + "_" + c + "_" + p + "_" + "PPP"
  {
    var fields := ["stats", "Cross", a, b, c, p, "PPP", "pivot.csv"];
    assert PySlice(fields, 2, -1) == [a, b, c, p, "PPP"];
    JoinFive(a, b, c, p, "PPP");
  }

  lemma NameText(a: string, b: string, c: string, p: string)
    ensures a + "_" + b + "_" + c + "_" + p + "_" + "PPP" == a + "_" + b + "_" + c + "_" + (p + "_PPP")
  {
    AppendAssoc(a + "_" + b + "_" + c + "_" + p, "_", "PPP");
    AppendAssoc(a + "_" + b + "_" + c + "_", p, "_PPP");
    assert "_" + "PPP" == "_PPP";
  }

  /** The scenario name read back at line 791 names level, car, season and
      layer. */
  lemma ScenarioNameRead(s: Scenario, layer: StatLayer, dir: string)
    ensures ScenarioName(PivotCsv(ScenarioStatsCsv(s, layer, dir)))
      == StartPoints(LevelTag(s.level)) + "_" + CarTag(s.car) + "_" + SeasonTag(s.season) + "_" + StatLayerName(layer)
  {
    ScenarioPivotFields(s, layer, dir);
    var a, b, c, p := "HC" + LevelTag(s.level), CarTag(s.car), SeasonTag(s.season), StatPrefixName(layer);
    NameFromFields(PivotCsv(ScenarioStatsCsv(s, layer, dir)), a, b, c, p);
    NameText(a, b, c, p);
  }

  /** For every scenario, statistics layer and output directory, the names
      read back at lines 781, 791 and 792 are the column prefix of the
      layer, the scenario's own name, and exactly the start-point layer the
      least-cost search of that scenario used (line 604). */
  lemma ScenarioRoundTrip(s: Scenario, layer: StatLayer, dir: string)
    ensures StatPrefix(ScenarioStatsCsv(s, layer, dir)) == Some(StatPrefixName(layer))
    ensures LevelOf(PivotCsv(ScenarioStatsCsv(s, layer, dir))) == Some(StartPoints(LevelTag(s.level)))
    ensures ScenarioName(PivotCsv(ScenarioStatsCsv(s, layer, dir)))
      == StartPoints(LevelTag(s.level)) + "_" + CarTag(s.car) + "_" + SeasonTag(s.season) + "_" + StatLayerName(layer)
  {
    ScenarioPrefixRead(s, layer, dir);
    ScenarioLevelRead(s, layer, dir);
    ScenarioNameRead(s, layer, dir);
  }
}
