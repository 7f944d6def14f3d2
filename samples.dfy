/**
 * The sample data of the three scripts: the airports dictionary they all
 * declare, main.py's routes and the two cost tables, and what the model says
 * about each.
 */
module Samples {
  import opened Sums
  import opened Graphs
  import opened RouteGraph
  import opened Animation
  import opened CostTable

  /** The airports dictionary; main.py, test.py and flightfuel.py declare the same six entries. */
  const SampleAirports: seq<Airport> := [
    ("AUS", "Austin Bergstrom International Airport"),
    ("DFW", "Dallas/Fort Worth International Airport"),
    ("ORD", "O'Hare International Airport"),
    ("JFK", "John F. Kennedy International Airport"),
    ("LAX", "Los Angeles International Airport"),
    ("SFO", "San Francisco International Airport")
  ]

  const MainRoutes: seq<Route> := [
    Route("AUS", "DFW", 300),
    Route("AUS", "ORD", 500),
    Route("DFW", "JFK", 400),
    Route("ORD", "JFK", 350),
    Route("ORD", "LAX", 600),
    Route("JFK", "LAX", 550),
    Route("LAX", "SFO", 300),
    Route("SFO", "JFK", 800)
  ]

  const MainCodes: seq<Code> := ["AUS", "DFW", "ORD", "JFK", "LAX", "SFO"]

  function MainGraph(): Graph
  {
    FromRoutes(SampleAirports, MainRoutes)
  }

  lemma MainCodesDistinct()
    ensures Keys(SampleAirports) == MainCodes && Distinct(MainCodes)
  {
  }

  lemma MainEndpoints()
    ensures forall c :: c in Endpoints(MainRoutes) ==> c in MainCodes
  {
    forall c | c in Endpoints(MainRoutes)
      ensures c in MainCodes
    {
      EndpointsOf(MainRoutes, c);
      var i :| 0 <= i < |MainRoutes| && (c == MainRoutes[i].source || c == MainRoutes[i].destination);
      assert MainRoutes[i].source in MainCodes && MainRoutes[i].destination in MainCodes;
    }
  }

  /** The graph of main.py has the six airports as its nodes, in dictionary order. */
  lemma MainGraphNodes()
    ensures Valid(MainGraph())
    ensures MainGraph().nodes == MainCodes
  {
    MainCodesDistinct();
    MainEndpoints();
    FromRoutesNodes(SampleAirports, MainRoutes);
    PrefixHoldingAll(MainGraph().nodes, MainCodes);
  }

  /** Its two legs between Austin and JFK through Dallas weigh 300 and 400. */
  lemma MainGraphLegs(g: Graph)
    requires g == MainGraph()
    ensures PairKey("AUS", "DFW") in g.weight && g.weight[PairKey("AUS", "DFW")] == 300
    ensures PairKey("DFW", "JFK") in g.weight && g.weight[PairKey("DFW", "JFK")] == 400
  {
    FromRoutesWeight(SampleAirports, MainRoutes, PairKey("AUS", "DFW"));
    FromRoutesWeight(SampleAirports, MainRoutes, PairKey("DFW", "JFK"));
    LastMainRoutes(MainRoutes);
  }

  /** The first and the third route are the last ones for their pairs. */
  lemma LastMainRoutes(routes: seq<Route>)
    requires routes == MainRoutes
    ensures LastRouteWeight(routes, PairKey("AUS", "DFW")) == Some(300)
    ensures LastRouteWeight(routes, PairKey("DFW", "JFK")) == Some(400)
  {
    LaterRoutesAvoid(routes, 0);
    LaterRoutesAvoid(routes, 2);
    LastRouteWeightAt(routes, 0);
    LastRouteWeightAt(routes, 2);
  }

  /** No route after the first or the third names the same pair again: each is the last for its pair. */
  lemma LaterRoutesAvoid(routes: seq<Route>, i: nat)
    requires routes == MainRoutes && (i == 0 || i == 2)
    ensures forall j :: i < j < |routes| ==> RouteKey(routes[j]) != RouteKey(routes[i])
  {
    forall j | i < j < |routes|
      ensures RouteKey(routes[j]) != RouteKey(routes[i])
    {
      assert "DFW" in RouteKey(routes[i]);
    }
  }

  lemma MainGraphNonNegative()
    ensures NonNegative(MainGraph().weight)
  {
    MainCostsNonNegative(MainRoutes);
    FromRoutesNonNegative(SampleAirports, MainRoutes);
  }

  lemma MainCostsNonNegative(routes: seq<Route>)
    requires routes == MainRoutes
    ensures forall i :: 0 <= i < |routes| ==> routes[i].cost >= 0
  {
  }

  /** The path `nx.shortest_path` is taken to return from JFK to Austin here, cost 700 (against 850 through Chicago). */
  const JfkToAustin: seq<Code> := ["JFK", "DFW", "AUS"]

  lemma JfkToAustinCost(g: Graph)
    requires PairKey("AUS", "DFW") in g.weight && g.weight[PairKey("AUS", "DFW")] == 300
    requires PairKey("DFW", "JFK") in g.weight && g.weight[PairKey("DFW", "JFK")] == 400
    ensures IsPath(g, JfkToAustin) && Distinct(JfkToAustin)
    ensures PathCost(g, JfkToAustin) == 700
  {
    assert PairKey("JFK", "DFW") == PairKey("DFW", "JFK") && PairKey("DFW", "AUS") == PairKey("AUS", "DFW");
    assert JfkToAustin[..2] == ["JFK", "DFW"] && JfkToAustin[..2][..1] == ["JFK"];
  }

  /** Dallas joined the graph before JFK, and Austin before Dallas. */
  lemma JfkToAustinReversed(g: Graph)
    requires Idx(g.nodes, "AUS") == 0 && Idx(g.nodes, "DFW") == 1 && Idx(g.nodes, "JFK") == 3
    ensures forall i :: 0 <= i < |JfkToAustin| - 1 ==> !Stored(g, JfkToAustin[i], JfkToAustin[i + 1])
  {
    JfkToAustinDescends(g.nodes);
    DescendingLegs(g, JfkToAustin);
  }

  lemma JfkToAustinDescends(nodes: seq<Code>)
    requires Idx(nodes, "AUS") == 0 && Idx(nodes, "DFW") == 1 && Idx(nodes, "JFK") == 3
    ensures forall i :: 0 <= i < |JfkToAustin| - 1 ==> Idx(nodes, JfkToAustin[i]) > Idx(nodes, JfkToAustin[i + 1])
  {
  }

  /** A path that visits nodes in decreasing order of insertion travels every leg against its reported orientation. */
  lemma DescendingLegs(g: Graph, path: seq<Code>)
    requires forall i :: 0 <= i < |path| - 1 ==> Idx(g.nodes, path[i]) > Idx(g.nodes, path[i + 1])
    ensures forall i :: 0 <= i < |path| - 1 ==> !Stored(g, path[i], path[i + 1])
  {
  }

  lemma MainCodesPositions(codes: seq<Code>)
    requires codes == MainCodes
    ensures Idx(codes, "AUS") == 0 && Idx(codes, "DFW") == 1 && Idx(codes, "JFK") == 3
  {
    MainCodesDistinct();
    IdxOfDistinct(codes);
    assert codes[0] == "AUS" && codes[1] == "DFW" && codes[3] == "JFK";
  }

  /**
   * Choosing JFK as the source and Austin as the destination, take the path
   * `nx.shortest_path` returns to be JFK, DFW, AUS, cost 700. Both legs run against the
   * orientation in which `G.edges` reports them, so main.py's total shows 0
   * on every frame, where counting either orientation shows 700 on the last.
   */
  lemma ReversedPathShowsZero(g: Graph)
    requires g == MainGraph()
    ensures forall num: nat :: num < |JfkToAustin| ==> Shown(g, JfkToAustin, num, AsDrawn) == 0
    ensures Shown(g, JfkToAustin, 2, EitherWay) == 700
  {
    MainGraphNodes();
    MainGraphLegs(g);
    MainCodesPositions(g.nodes);
    JfkToAustinTotals(g);
    JfkToAustinEveryFrame(g);
  }

  /** Every frame of JFK, DFW, AUS shows 0 under main.py's rule, in any graph with main.py's positions. */
  lemma JfkToAustinEveryFrame(g: Graph)
    requires Valid(g)
    requires Idx(g.nodes, "AUS") == 0 && Idx(g.nodes, "DFW") == 1 && Idx(g.nodes, "JFK") == 3
    ensures forall num: nat :: num < |JfkToAustin| ==> Shown(g, JfkToAustin, num, AsDrawn) == 0
  {
    JfkToAustinReversed(g);
    forall num: nat | num < |JfkToAustin|
      ensures Shown(g, JfkToAustin, num, AsDrawn) == 0
    {
      FrameReveals(JfkToAustin, num);
      var shown := JfkToAustin[..num + 1];
      forall i | 0 <= i < |shown| - 1
        ensures !Stored(g, shown[i], shown[i + 1])
      {
        assert shown[i] == JfkToAustin[i] && shown[i + 1] == JfkToAustin[i + 1];
      }
      AsDrawnZeroWhenAllReversed(g, shown);
    }
  }

  /** The two totals on the last frame of JFK, DFW, AUS, in any graph with main.py's positions and leg weights. */
  lemma JfkToAustinTotals(g: Graph)
    requires Valid(g)
    requires PairKey("AUS", "DFW") in g.weight && g.weight[PairKey("AUS", "DFW")] == 300
    requires PairKey("DFW", "JFK") in g.weight && g.weight[PairKey("DFW", "JFK")] == 400
    requires Idx(g.nodes, "AUS") == 0 && Idx(g.nodes, "DFW") == 1 && Idx(g.nodes, "JFK") == 3
    ensures Shown(g, JfkToAustin, 2, AsDrawn) == 0
    ensures Shown(g, JfkToAustin, 2, EitherWay) == 700
  {
    JfkToAustinCost(g);
    JfkToAustinReversed(g);
    FrameReveals(JfkToAustin, 2);
    AsDrawnZeroWhenAllReversed(g, JfkToAustin);
    EitherWayShowsPathCost(g, JfkToAustin, 2);
  }

  /** `flight_costs` of flightfuel.py; "-" is `NoRoute`. */
  const FuelTable: Table := [
    ("AUS", [("AUS", NoRoute), ("DFW", Weight(150)), ("ORD", Weight(300)), ("JFK", Weight(400)), ("LAX", Weight(350)), ("SFO", Weight(420))]),
    ("DFW", [("AUS", Weight(150)), ("DFW", NoRoute), ("ORD", Weight(250)), ("JFK", Weight(380)), ("LAX", Weight(320)), ("SFO", Weight(400))]),
    ("ORD", [("AUS", Weight(300)), ("DFW", Weight(250)), ("ORD", NoRoute), ("JFK", Weight(350)), ("LAX", Weight(420)), ("SFO", Weight(500))]),
    ("JFK", [("AUS", Weight(400)), ("DFW", Weight(380)), ("ORD", Weight(350)), ("JFK", NoRoute), ("LAX", Weight(500)), ("SFO", Weight(600))]),
    ("LAX", [("AUS", Weight(350)), ("DFW", Weight(320)), ("ORD", Weight(420)), ("JFK", Weight(500)), ("LAX", NoRoute), ("SFO", Weight(250))]),
    ("SFO", [("AUS", Weight(420)), ("DFW", Weight(400)), ("ORD", Weight(500)), ("JFK", Weight(600)), ("LAX", Weight(250)), ("SFO", NoRoute)])
  ]

  /** `flight_costs` of test.py. */
  const TestTable: Table := [
    ("AUS", [("AUS", NoRoute), ("DFW", Weight(120)), ("ORD", Weight(220)), ("JFK", Weight(350)), ("LAX", Weight(290)), ("SFO", Weight(380))]),
    ("DFW", [("AUS", Weight(120)), ("DFW", NoRoute), ("ORD", Weight(200)), ("JFK", Weight(330)), ("LAX", Weight(260)), ("SFO", Weight(350))]),
    ("ORD", [("AUS", Weight(220)), ("DFW", Weight(200)), ("ORD", NoRoute), ("JFK", Weight(280)), ("LAX", Weight(370)), ("SFO", Weight(460))]),
    ("JFK", [("AUS", Weight(350)), ("DFW", Weight(330)), ("ORD", Weight(280)), ("JFK", NoRoute), ("LAX", Weight(450)), ("SFO", Weight(540))]),
    ("LAX", [("AUS", Weight(290)), ("DFW", Weight(260)), ("ORD", Weight(370)), ("JFK", Weight(450)), ("LAX", NoRoute), ("SFO", Weight(190))]),
    ("SFO", [("AUS", Weight(380)), ("DFW", Weight(350)), ("ORD", Weight(460)), ("JFK", Weight(540)), ("LAX", Weight(190)), ("SFO", NoRoute)])
  ]

  lemma FuelTableSquare()
    ensures Square(FuelTable, MainCodes)
  {
    var t := FuelTable;
    assert Keys(t) == MainCodes;
    forall r | 0 <= r < |t|
      ensures Keys(t[r].1) == MainCodes
    {
      RowKeys(t, r);
    }
  }

  lemma FuelTablePriced()
    ensures OffDiagonalPriced(FuelTable)
  {
  }

  lemma FuelTableMirrored()
    ensures MirrorImage(FuelTable)
  {
    var t := FuelTable;
    forall r, k | 0 <= r < |t| && 0 <= k < |t[r].1|
      ensures k < |t| && r < |t[k].1| && t[r].1[k].1 == t[k].1[r].1
    {
      MirrorRow(t, r);
    }
  }

  lemma TestTableSquare()
    ensures Square(TestTable, MainCodes)
  {
    var t := TestTable;
    assert Keys(t) == MainCodes;
    forall r | 0 <= r < |t|
      ensures Keys(t[r].1) == MainCodes
    {
      RowKeys(t, r);
    }
  }

  lemma TestTablePriced()
    ensures OffDiagonalPriced(TestTable)
  {
  }

  lemma TestTableMirrored()
    ensures MirrorImage(TestTable)
  {
    var t := TestTable;
    forall r, k | 0 <= r < |t| && 0 <= k < |t[r].1|
      ensures k < |t| && r < |t[k].1| && t[r].1[k].1 == t[k].1[r].1
    {
      MirrorRow(t, r);
    }
  }

  /** Every row of either sample table lists the six airports in dictionary order. */
  lemma RowKeys(t: Table, r: nat)
    requires t == FuelTable || t == TestTable
    requires r < |t|
    ensures Keys(t[r].1) == MainCodes
  {
  }

  /** Row r of a six-by-six table is column r. */
  lemma MirrorRow(t: Table, r: nat)
    requires t == FuelTable || t == TestTable
    requires r < |t|
    ensures forall k :: 0 <= k < |t[r].1| ==> k < |t| && r < |t[k].1| && t[r].1[k].1 == t[k].1[r].1
  {
  }

  /** The graph of a square table over the six sample airports. */
  lemma SixAirportGraph(g: Graph, table: Table)
    requires g == FromCostTable(SampleAirports, table)
    requires Square(table, MainCodes) && OffDiagonalPriced(table) && MirrorImage(table)
    ensures g.nodes == MainCodes && |g.weight| == 15 && |EdgeLabels(g)| == 15
    ensures forall r, k :: 0 <= r < 6 && 0 <= k < 6 && r != k ==>
      PairKey(MainCodes[r], MainCodes[k]) in g.weight && g.weight[PairKey(MainCodes[r], MainCodes[k])] == table[r].1[k].1.amount
  {
    MainCodesDistinct();
    SquareTableGraph(SampleAirports, table);
    FromCostTableNodes(SampleAirports, table);
    EdgeLabelsCount(g);
  }

  /**
   * flightfuel.py's graph: the six airports, joined pairwise by 15 edges
   * (their weights are those `SixAirportGraph` gives for this table, whose
   * shape the three lemmas above establish); `edge_labels` has 15 entries.
   */
  lemma FuelGraph(g: Graph)
    requires g == FromCostTable(SampleAirports, FuelTable)
    ensures g.nodes == MainCodes && |g.weight| == 15 && |EdgeLabels(g)| == 15
  {
    FuelTableSquare();
    FuelTablePriced();
    FuelTableMirrored();
    SixAirportGraph(g, FuelTable);
  }

  /** test.py's graph: likewise, 15 edges weighted by its table. */
  lemma TestGraph(g: Graph)
    requires g == FromCostTable(SampleAirports, TestTable)
    ensures g.nodes == MainCodes && |g.weight| == 15 && |EdgeLabels(g)| == 15
  {
    TestTableSquare();
    TestTablePriced();
    TestTableMirrored();
    SixAirportGraph(g, TestTable);
  }
}
