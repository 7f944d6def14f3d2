/**
 * The graph of test.py and flightfuel.py (their `GraphWindow.__init__` builds it
 * the same way): every airport becomes a node, then every cell
 * `flight_costs[src][dest]` becomes the undirected edge {src, dest} with weight
 * `int(cost)`, except diagonal cells (`src == dest`) and the "-" sentinel.
 */
module CostTable {
  import opened Graphs

  /** A cell value of `flight_costs`: an integer cost, or the "-" sentinel for "no direct flight". */
  datatype Cost = Weight(amount: int) | NoRoute

  /** `flight_costs`: a dictionary of dictionaries, in declaration order. */
  type Row = seq<(Code, Cost)>
  type Table = seq<(Code, Row)>

  /** One step of the nested loop: `src`, `dest` and `cost`. */
  datatype Cell = Cell(src: Code, dest: Code, cost: Cost)

  function CellKey(c: Cell): Pair
  {
    PairKey(c.src, c.dest)
  }

  /** The test `src != dest and cost != "-"` that guards `G.add_edge`. */
  predicate Qualifies(c: Cell)
  {
    c.src != c.dest && c.cost != NoRoute
  }

  /** `for dest, cost in destinations.items()`, for one source airport. */
  function RowCells(src: Code, row: Row): (cells: seq<Cell>)
    ensures |cells| == |row|
    ensures forall k :: 0 <= k < |row| ==> cells[k] == Cell(src, row[k].0, row[k].1)
  {
    seq(|row|, k requires 0 <= k < |row| => Cell(src, row[k].0, row[k].1))
  }

  /** The cells in the order the nested loops visit them: row by row, each row in its own order. */
  function Cells(table: Table): seq<Cell>
    decreases |table|
  {
    if table == [] then []
    else
      var last := table[|table| - 1];
      Cells(table[..|table| - 1]) + RowCells(last.0, last.1)
  }

  /** The body of the inner loop. */
  function AddCell(g: Graph, c: Cell): Graph
  {
    if Qualifies(c) then WithEdge(g, c.src, c.dest, c.cost.amount) else g
  }

  function AddCells(g: Graph, cells: seq<Cell>): Graph
    decreases |cells|
  {
    if cells == [] then g
    else AddCell(AddCells(g, cells[..|cells| - 1]), cells[|cells| - 1])
  }

  /** The graph `G` of `GraphWindow.__init__`. */
  function FromCostTable(airports: seq<Airport>, table: Table): Graph
  {
    AddCells(AddAirports(EmptyGraph(), airports), Cells(table))
  }

  /** The amount of the last qualifying cell whose unordered pair is `k`, if there is one. */
  function LastCellWeight(cells: seq<Cell>, k: Pair): Option<int>
    decreases |cells|
  {
    if cells == [] then None
    else
      var c := cells[|cells| - 1];
      if Qualifies(c) && CellKey(c) == k then Some(c.cost.amount)
      else LastCellWeight(cells[..|cells| - 1], k)
  }

  lemma {:induction false} AddCellsWeight(g: Graph, cells: seq<Cell>, k: Pair)
    ensures Get(AddCells(g, cells).weight, k) ==
      match LastCellWeight(cells, k)
      case Some(w) => Some(w)
      case None => Get(g.weight, k)
    decreases |cells|
  {
    if cells != [] {
      AddCellsWeight(g, cells[..|cells| - 1], k);
    }
  }

  /**
   * The weight the graph keeps for a pair is the cost of the last qualifying
   * cell for that pair in table order, whichever of its two orientations that
   * cell has; a pair without a qualifying cell is not an edge.
   */
  lemma FromCostTableWeight(airports: seq<Airport>, table: Table, k: Pair)
    ensures Get(FromCostTable(airports, table).weight, k) == LastCellWeight(Cells(table), k)
  {
    AddCellsWeight(AddAirports(EmptyGraph(), airports), Cells(table), k);
  }

  lemma {:induction false} LastCellWeightFound(cells: seq<Cell>, i: nat)
    requires i < |cells| && Qualifies(cells[i])
    ensures LastCellWeight(cells, CellKey(cells[i])).Some?
    decreases |cells|
  {
    var c := cells[|cells| - 1];
    if !(Qualifies(c) && CellKey(c) == CellKey(cells[i])) {
      LastCellWeightFound(cells[..|cells| - 1], i);
    }
  }

  lemma {:induction false} LastCellWeightAt(cells: seq<Cell>, i: nat)
    requires i < |cells| && Qualifies(cells[i])
    requires forall j :: i < j < |cells| && Qualifies(cells[j]) ==> CellKey(cells[j]) != CellKey(cells[i])
    ensures LastCellWeight(cells, CellKey(cells[i])) == Some(cells[i].cost.amount)
    decreases |cells|
  {
    if i < |cells| - 1 {
      LastCellWeightAt(cells[..|cells| - 1], i);
    }
  }

  lemma {:induction false} LastCellWeightNone(cells: seq<Cell>, k: Pair)
    requires forall i :: 0 <= i < |cells| && CellKey(cells[i]) == k ==> !Qualifies(cells[i])
    ensures LastCellWeight(cells, k) == None
    decreases |cells|
  {
    if cells != [] {
      LastCellWeightNone(cells[..|cells| - 1], k);
    }
  }

  /** When every qualifying cell for `k` costs `w`, the last one does too. */
  lemma {:induction false} LastCellWeightAll(cells: seq<Cell>, k: Pair, w: int)
    requires forall i :: 0 <= i < |cells| && Qualifies(cells[i]) && CellKey(cells[i]) == k ==> cells[i].cost.amount == w
    ensures LastCellWeight(cells, k) == None || LastCellWeight(cells, k) == Some(w)
    decreases |cells|
  {
    if cells != [] {
      LastCellWeightAll(cells[..|cells| - 1], k, w);
    }
  }

  /** A qualifying cell always yields the edge {src, dest}. */
  lemma CellIsEdge(airports: seq<Airport>, table: Table, i: nat)
    requires i < |Cells(table)| && Qualifies(Cells(table)[i])
    ensures CellKey(Cells(table)[i]) in FromCostTable(airports, table).weight
  {
    FromCostTableWeight(airports, table, CellKey(Cells(table)[i]));
    LastCellWeightFound(Cells(table), i);
  }

  /**
   * A qualifying cell for a pair that no later qualifying cell overwrites (in
   * either orientation) decides the edge's weight: `int(cost)`.
   */
  lemma LastCellWins(airports: seq<Airport>, table: Table, i: nat)
    requires i < |Cells(table)| && Qualifies(Cells(table)[i])
    requires forall j :: i < j < |Cells(table)| && Qualifies(Cells(table)[j]) ==>
      CellKey(Cells(table)[j]) != CellKey(Cells(table)[i])
    ensures CellKey(Cells(table)[i]) in FromCostTable(airports, table).weight
    ensures FromCostTable(airports, table).weight[CellKey(Cells(table)[i])] == Cells(table)[i].cost.amount
  {
    FromCostTableWeight(airports, table, CellKey(Cells(table)[i]));
    LastCellWeightAt(Cells(table), i);
  }

  /** A pair whose every cell is a diagonal cell or the "-" sentinel is not an edge. */
  lemma NoEdgeWithoutCost(airports: seq<Airport>, table: Table, k: Pair)
    requires forall i :: 0 <= i < |Cells(table)| && CellKey(Cells(table)[i]) == k ==> !Qualifies(Cells(table)[i])
    ensures k !in FromCostTable(airports, table).weight
  {
    FromCostTableWeight(airports, table, k);
    LastCellWeightNone(Cells(table), k);
  }

  /** No cell yields a self-loop: a diagonal cell is skipped whatever its cost. */
  lemma NoSelfLoop(airports: seq<Airport>, table: Table, c: Code)
    ensures PairKey(c, c) !in FromCostTable(airports, table).weight
  {
    var cells := Cells(table);
    forall i | 0 <= i < |cells| && CellKey(cells[i]) == PairKey(c, c)
      ensures !Qualifies(cells[i])
    {
      assert cells[i].src in PairKey(c, c) && cells[i].dest in PairKey(c, c);
    }
    NoEdgeWithoutCost(airports, table, PairKey(c, c));
  }

  /** Diagonal cells and sentinel cells have no effect: only the qualifying cells shape the graph. */
  function QualifyingCells(cells: seq<Cell>): (q: seq<Cell>)
    ensures forall c :: c in q <==> c in cells && Qualifies(c)
    decreases |cells|
  {
    if cells == [] then []
    else
      var init, c := cells[..|cells| - 1], cells[|cells| - 1];
      assert cells == init + [c];
      if Qualifies(c) then QualifyingCells(init) + [c] else QualifyingCells(init)
  }

  lemma {:induction false} OnlyQualifyingCellsMatter(g: Graph, cells: seq<Cell>)
    ensures AddCells(g, cells) == AddCells(g, QualifyingCells(cells))
    decreases |cells|
  {
    if cells != [] {
      var init, c := cells[..|cells| - 1], cells[|cells| - 1];
      OnlyQualifyingCellsMatter(g, init);
      if Qualifies(c) {
        assert (QualifyingCells(init) + [c])[..|QualifyingCells(init)|] == QualifyingCells(init);
      }
    }
  }

  /** The endpoints of the qualifying cells. */
  function QualifyingEndpoints(cells: seq<Cell>): set<Code>
    decreases |cells|
  {
    if cells == [] then {}
    else
      var c := cells[|cells| - 1];
      QualifyingEndpoints(cells[..|cells| - 1]) + if Qualifies(c) then {c.src, c.dest} else {}
  }

  lemma {:induction false} AddCellsNodes(g: Graph, cells: seq<Cell>)
    ensures forall c :: c in AddCells(g, cells).nodes <==> c in g.nodes || c in QualifyingEndpoints(cells)
    ensures Valid(g) ==> Valid(AddCells(g, cells))
    decreases |cells|
  {
    if cells != [] {
      AddCellsNodes(g, cells[..|cells| - 1]);
    }
  }

  /**
   * The graph of a cost table is valid; its nodes are the airport codes and the
   * endpoints of the qualifying cells (`add_edge` adds a code missing from the
   * airports); every airport is a node even when it has no flight.
   */
  lemma FromCostTableNodes(airports: seq<Airport>, table: Table)
    ensures Valid(FromCostTable(airports, table))
    ensures forall i :: 0 <= i < |airports| ==> airports[i].0 in FromCostTable(airports, table).nodes
    ensures forall c :: c in FromCostTable(airports, table).nodes <==>
      c in Keys(airports) || c in QualifyingEndpoints(Cells(table))
  {
    AddCellsNodes(AddAirports(EmptyGraph(), airports), Cells(table));
  }

  /** The nested loops of `GraphWindow.__init__` that fill the graph `G`. */
  method BuildFromCostTable(airports: seq<Airport>, table: Table) returns (graph: FlightGraph)
    ensures fresh(graph)
    ensures graph.Value() == FromCostTable(airports, table)
  {
    graph := new FlightGraph();
    graph.AddAirportNodes(airports);
    ghost var start := graph.Value();
    for i := 0 to |table|
      invariant graph.Value() == AddCells(start, Cells(table[..i]))
    {
      var (src, destinations) := table[i];
      AddRow(graph, src, destinations);
      assert table[..i + 1][..i] == table[..i];
      AddCellsAppend(start, Cells(table[..i]), RowCells(src, destinations));
    }
    assert table[..|table|] == table;
  }

  /** The inner loop: `for dest, cost in destinations.items()` with its guard. */
  method AddRow(graph: FlightGraph, src: Code, destinations: Row)
    modifies graph
    ensures graph.Value() == AddCells(old(graph.Value()), RowCells(src, destinations))
  {
    ghost var before := graph.Value();
    for j := 0 to |destinations|
      invariant graph.Value() == AddCells(before, RowCells(src, destinations[..j]))
    {
      var (dest, cost) := destinations[j];
      if src != dest && cost != NoRoute {
        graph.AddEdge(src, dest, cost.amount);
      }
      ghost var done := RowCells(src, destinations[..j]);
      assert RowCells(src, destinations[..j + 1]) == done + [Cell(src, dest, cost)];
      assert (done + [Cell(src, dest, cost)])[..|done|] == done;
    }
    assert destinations[..|destinations|] == destinations;
  }

  lemma {:induction false} AddCellsAppend(g: Graph, a: seq<Cell>, b: seq<Cell>)
    ensures AddCells(g, a + b) == AddCells(AddCells(g, a), b)
    decreases |b|
  {
    if b != [] {
      var init := b[..|b| - 1];
      assert (a + b)[..|a + b| - 1] == a + init;
      AddCellsAppend(g, a, init);
    } else {
      assert a + b == a;
    }
  }

  /** `d[key]` for a dictionary `d`: the value of the first entry with that key, or `None` for a `KeyError`. */
  function Find<V>(entries: seq<(Code, V)>, key: Code): Option<V>
    decreases |entries|
  {
    if entries == [] then None
    else if entries[0].0 == key then Some(entries[0].1)
    else Find(entries[1..], key)
  }

  /** `flight_costs[a][b]`. */
  function Lookup(table: Table, a: Code, b: Code): Option<Cost>
  {
    match Find(table, a)
    case None => None
    case Some(row) => Find(row, b)
  }

  /** Python dictionaries never repeat a key. */
  predicate UniqueKeys(table: Table)
  {
    Distinct(Keys(table)) && forall r :: 0 <= r < |table| ==> Distinct(Keys(table[r].1))
  }

  /** `flight_costs[a][b] == flight_costs[b][a]` for every cell. */
  ghost predicate Symmetric(table: Table)
  {
    forall c :: c in Cells(table) ==> Lookup(table, c.dest, c.src) == Some(c.cost)
  }

  lemma {:induction false} FindAt<V>(entries: seq<(Code, V)>, i: nat)
    requires Distinct(Keys(entries)) && i < |entries|
    ensures Find(entries, entries[i].0) == Some(entries[i].1)
    decreases |entries|
  {
    if i > 0 {
      assert Keys(entries)[0] != Keys(entries)[i];
      assert Keys(entries[1..]) == Keys(entries)[1..];
      FindAt(entries[1..], i - 1);
    }
  }

  lemma {:induction false} FindSome<V>(entries: seq<(Code, V)>, key: Code)
    requires Find(entries, key).Some?
    ensures (key, Find(entries, key).value) in entries
    decreases |entries|
  {
    if entries[0].0 != key {
      FindSome(entries[1..], key);
    }
  }

  /** Cell `c` is entry `k` of row `r` of the table, paired with that row's source. */
  ghost predicate CellOfTable(table: Table, c: Cell)
  {
    exists r, k :: 0 <= r < |table| && 0 <= k < |table[r].1| && c == Cell(table[r].0, table[r].1[k].0, table[r].1[k].1)
  }

  /** Where each cell of the loop comes from in the table, and that every table entry is visited. */
  lemma CellsOf(table: Table)
    ensures forall c :: c in Cells(table) ==> CellOfTable(table, c)
    ensures forall r, k :: 0 <= r < |table| && 0 <= k < |table[r].1| ==>
      Cell(table[r].0, table[r].1[k].0, table[r].1[k].1) in Cells(table)
  {
    CellsSound(table);
    CellsComplete(table);
  }

  lemma {:induction false} CellsSound(table: Table)
    ensures forall c :: c in Cells(table) ==> CellOfTable(table, c)
    decreases |table|
  {
    if table != [] {
      var init, last := table[..|table| - 1], table[|table| - 1];
      CellsSound(init);
      forall c | c in Cells(table)
        ensures CellOfTable(table, c)
      {
        if c in Cells(init) {
          var r, k :| 0 <= r < |init| && 0 <= k < |init[r].1| && c == Cell(init[r].0, init[r].1[k].0, init[r].1[k].1);
          assert table[r] == init[r];
        } else {
          var k :| 0 <= k < |last.1| && RowCells(last.0, last.1)[k] == c;
          assert table[|table| - 1] == last;
        }
      }
    }
  }

  lemma {:induction false} CellsComplete(table: Table)
    ensures forall r, k :: 0 <= r < |table| && 0 <= k < |table[r].1| ==>
      Cell(table[r].0, table[r].1[k].0, table[r].1[k].1) in Cells(table)
    decreases |table|
  {
    if table != [] {
      var init, last := table[..|table| - 1], table[|table| - 1];
      CellsComplete(init);
      forall r, k | 0 <= r < |table| && 0 <= k < |table[r].1|
        ensures Cell(table[r].0, table[r].1[k].0, table[r].1[k].1) in Cells(table)
      {
        if r < |init| {
          assert table[r] == init[r];
        } else {
          assert RowCells(last.0, last.1)[k] == Cell(table[r].0, table[r].1[k].0, table[r].1[k].1);
        }
      }
    }
  }

  /** With unique keys, every cell the loops visit is the table's entry for its pair of codes, and conversely. */
  lemma CellLookup(table: Table, a: Code, b: Code, x: Cost)
    requires UniqueKeys(table)
    ensures Cell(a, b, x) in Cells(table) <==> Lookup(table, a, b) == Some(x)
  {
    if Cell(a, b, x) in Cells(table) {
      VisitedCellLooksUp(table, Cell(a, b, x));
    }
    if Lookup(table, a, b) == Some(x) {
      LookedUpCellVisited(table, a, b, x);
    }
  }

  lemma VisitedCellLooksUp(table: Table, c: Cell)
    requires UniqueKeys(table) && c in Cells(table)
    ensures Lookup(table, c.src, c.dest) == Some(c.cost)
  {
    CellsSound(table);
    var r, k :| 0 <= r < |table| && 0 <= k < |table[r].1| && c == Cell(table[r].0, table[r].1[k].0, table[r].1[k].1);
    FindAt(table, r);
    FindAt(table[r].1, k);
  }

  lemma LookedUpCellVisited(table: Table, a: Code, b: Code, x: Cost)
    requires Lookup(table, a, b) == Some(x)
    ensures Cell(a, b, x) in Cells(table)
  {
    CellsComplete(table);
    FindSome(table, a);
    var row := Find(table, a).value;
    FindSome(row, b);
    var r :| 0 <= r < |table| && table[r] == (a, row);
    var k :| 0 <= k < |row| && row[k] == (b, x);
  }

  /**
   * For a symmetric table (as both scripts declare theirs) the order of
   * iteration does not matter: {a, b} is an edge exactly when
   * `flight_costs[a][b]` is a cost, and its weight is that cost.
   */
  lemma SymmetricWeight(airports: seq<Airport>, table: Table, a: Code, b: Code)
    requires UniqueKeys(table) && Symmetric(table) && a != b
    ensures Get(FromCostTable(airports, table).weight, PairKey(a, b)) ==
      match Lookup(table, a, b)
      case Some(Weight(w)) => Some(w)
      case _ => None
  {
    var cells := Cells(table);
    FromCostTableWeight(airports, table, PairKey(a, b));
    // Every qualifying cell for {a, b}, in either orientation, carries flight_costs[a][b].
    forall i | 0 <= i < |cells| && Qualifies(cells[i]) && CellKey(cells[i]) == PairKey(a, b)
      ensures Lookup(table, a, b) == Some(cells[i].cost)
    {
      var c := cells[i];
      assert c in cells;
      PairKeyCases(c.src, c.dest, a, b);
      CellLookup(table, c.src, c.dest, c.cost);
    }
    match Lookup(table, a, b)
    case Some(Weight(w)) =>
      CellLookup(table, a, b, Weight(w));
      var i :| 0 <= i < |cells| && cells[i] == Cell(a, b, Weight(w));
      LastCellWeightFound(cells, i);
      LastCellWeightAll(cells, PairKey(a, b), w);
    case _ =>
      LastCellWeightNone(cells, PairKey(a, b));
  }

  lemma {:induction false} AddCellsPrefix(g: Graph, cells: seq<Cell>)
    ensures |g.nodes| <= |AddCells(g, cells).nodes| && AddCells(g, cells).nodes[..|g.nodes|] == g.nodes
    decreases |cells|
  {
    if cells != [] {
      var h := AddCells(g, cells[..|cells| - 1]);
      AddCellsPrefix(g, cells[..|cells| - 1]);
      assert AddCells(g, cells).nodes[..|g.nodes|] == AddCells(g, cells).nodes[..|h.nodes|][..|g.nodes|];
    }
  }

  lemma {:induction false} QualifyingEndpointsOf(cells: seq<Cell>, x: Code)
    requires x in QualifyingEndpoints(cells)
    ensures exists i :: 0 <= i < |cells| && Qualifies(cells[i]) && (x == cells[i].src || x == cells[i].dest)
    decreases |cells|
  {
    var init := cells[..|cells| - 1];
    if x in QualifyingEndpoints(init) {
      QualifyingEndpointsOf(init, x);
      var i :| 0 <= i < |init| && Qualifies(init[i]) && (x == init[i].src || x == init[i].dest);
      assert cells[i] == init[i];
    }
  }

  /** Every source and every destination of the table is an airport code. */
  ghost predicate KeyedByAirports(airports: seq<Airport>, table: Table)
  {
    forall r :: 0 <= r < |table| ==>
      table[r].0 in Keys(airports) && forall k :: 0 <= k < |table[r].1| ==> table[r].1[k].0 in Keys(airports)
  }

  /** `flight_costs[a][b]` is a cost, not "-", for every two different airports. */
  ghost predicate PricedEverywhere(airports: seq<Airport>, table: Table)
  {
    forall a, b :: a in Keys(airports) && b in Keys(airports) && a != b ==>
      Lookup(table, a, b).Some? && Lookup(table, a, b) != Some(NoRoute)
  }

  lemma EndpointsAreAirports(airports: seq<Airport>, table: Table, x: Code)
    requires KeyedByAirports(airports, table) && x in QualifyingEndpoints(Cells(table))
    ensures x in Keys(airports)
  {
    CellsSound(table);
    QualifyingEndpointsOf(Cells(table), x);
    var i :| 0 <= i < |Cells(table)| && Qualifies(Cells(table)[i]) && (x == Cells(table)[i].src || x == Cells(table)[i].dest);
    assert Cells(table)[i] in Cells(table);
  }

  lemma TableNodesAreAirports(airports: seq<Airport>, table: Table)
    requires Distinct(Keys(airports)) && KeyedByAirports(airports, table)
    ensures FromCostTable(airports, table).nodes == Keys(airports)
  {
    var g := FromCostTable(airports, table);
    var start := AddAirports(EmptyGraph(), airports);
    assert [] + Keys(airports) == Keys(airports);
    AddAirportsInOrder(EmptyGraph(), airports);
    AddCellsPrefix(start, Cells(table));
    FromCostTableNodes(airports, table);
    forall x | x in g.nodes
      ensures x in Keys(airports)
    {
      if x !in Keys(airports) {
        EndpointsAreAirports(airports, table, x);
      }
    }
    PrefixHoldingAll(g.nodes, Keys(airports));
  }

  /**
   * A table keyed by the airports that prices every pair of different airports,
   * like the ones both scripts declare: the graph is complete on the airports,
   * n(n-1)/2 edges for n airports (15 for their six).
   */
  lemma CompleteTable(airports: seq<Airport>, table: Table)
    requires Distinct(Keys(airports)) && UniqueKeys(table)
    requires KeyedByAirports(airports, table) && PricedEverywhere(airports, table)
    ensures FromCostTable(airports, table).nodes == Keys(airports)
    ensures 2 * |FromCostTable(airports, table).weight| == |airports| * (|airports| - 1)
  {
    var g := FromCostTable(airports, table);
    var codes := Keys(airports);
    TableNodesAreAirports(airports, table);
    FromCostTableNodes(airports, table);
    forall i, j | 0 <= i < j < |g.nodes|
      ensures PairKey(g.nodes[i], g.nodes[j]) in g.weight
    {
      var a, b := codes[i], codes[j];
      var x := Lookup(table, a, b).value;
      CellLookup(table, a, b, x);
      var p :| 0 <= p < |Cells(table)| && Cells(table)[p] == Cell(a, b, x);
      CellIsEdge(airports, table, p);
    }
    forall c
      ensures PairKey(c, c) !in g.weight
    {
      NoSelfLoop(airports, table, c);
    }
    CompleteGraphSize(g);
  }

  /** The layout of both scripts' tables: one row per airport, each listing every airport, in airport order. */
  predicate Square(table: Table, codes: seq<Code>)
  {
    Keys(table) == codes && forall r :: 0 <= r < |table| ==> Keys(table[r].1) == codes
  }

  /** Every entry off the diagonal is a cost rather than "-". */
  predicate OffDiagonalPriced(table: Table)
  {
    forall r, k :: 0 <= r < |table| && 0 <= k < |table[r].1| && r != k ==> table[r].1[k].1.Weight?
  }

  /** Entry [r][k] equals entry [k][r]. */
  predicate MirrorImage(table: Table)
  {
    forall r, k :: 0 <= r < |table| && 0 <= k < |table[r].1| ==>
      k < |table| && r < |table[k].1| && table[r].1[k].1 == table[k].1[r].1
  }

  /** In a square table over distinct codes, `flight_costs[codes[r]][codes[k]]` is entry [r][k]. */
  lemma SquareLookup(table: Table, codes: seq<Code>, r: nat, k: nat)
    requires Distinct(codes) && Square(table, codes) && r < |codes| && k < |codes|
    ensures UniqueKeys(table)
    ensures Lookup(table, codes[r], codes[k]) == Some(table[r].1[k].1)
  {
    FindAt(table, r);
    FindAt(table[r].1, k);
  }

  lemma SquarePriced(airports: seq<Airport>, table: Table)
    requires Distinct(Keys(airports)) && Square(table, Keys(airports)) && OffDiagonalPriced(table)
    ensures UniqueKeys(table) && KeyedByAirports(airports, table) && PricedEverywhere(airports, table)
  {
    SquareUnique(table, Keys(airports));
    SquareKeyed(airports, table);
    SquareEverywhere(airports, table);
  }

  lemma SquareUnique(table: Table, codes: seq<Code>)
    requires Distinct(codes) && Square(table, codes)
    ensures UniqueKeys(table)
  {
    if |codes| > 0 {
      SquareLookup(table, codes, 0, 0);
    }
  }

  lemma SquareKeyed(airports: seq<Airport>, table: Table)
    requires Square(table, Keys(airports))
    ensures KeyedByAirports(airports, table)
  {
    var codes := Keys(airports);
    forall r | 0 <= r < |table|
      ensures table[r].0 in codes && forall k :: 0 <= k < |table[r].1| ==> table[r].1[k].0 in codes
    {
      assert Keys(table)[r] == table[r].0;
      forall k | 0 <= k < |table[r].1|
        ensures table[r].1[k].0 in codes
      {
        assert Keys(table[r].1)[k] == table[r].1[k].0;
      }
    }
  }

  lemma SquareEverywhere(airports: seq<Airport>, table: Table)
    requires Distinct(Keys(airports)) && Square(table, Keys(airports)) && OffDiagonalPriced(table)
    ensures PricedEverywhere(airports, table)
  {
    var codes := Keys(airports);
    forall a, b | a in codes && b in codes && a != b
      ensures Lookup(table, a, b).Some? && Lookup(table, a, b) != Some(NoRoute)
    {
      var r :| 0 <= r < |codes| && codes[r] == a;
      var k :| 0 <= k < |codes| && codes[k] == b;
      SquareLookup(table, codes, r, k);
    }
  }

  lemma CellOrigin(table: Table, c: Cell)
    requires c in Cells(table)
    ensures exists r, k :: 0 <= r < |table| && 0 <= k < |table[r].1| && c == Cell(table[r].0, table[r].1[k].0, table[r].1[k].1)
  {
    CellsSound(table);
  }

  lemma MirrorCell(table: Table, codes: seq<Code>, r: nat, k: nat)
    requires Distinct(codes) && Square(table, codes) && MirrorImage(table)
    requires r < |table| && k < |table[r].1|
    ensures Lookup(table, table[r].1[k].0, table[r].0) == Some(table[r].1[k].1)
  {
    assert Keys(table)[r] == table[r].0 && Keys(table[r].1)[k] == table[r].1[k].0;
    SquareLookup(table, codes, k, r);
  }

  lemma MirrorSymmetric(table: Table, codes: seq<Code>)
    requires Distinct(codes) && Square(table, codes) && MirrorImage(table)
    ensures Symmetric(table)
  {
    forall c | c in Cells(table)
      ensures Lookup(table, c.dest, c.src) == Some(c.cost)
    {
      CellOrigin(table, c);
      var r, k :| 0 <= r < |table| && 0 <= k < |table[r].1| && c == Cell(table[r].0, table[r].1[k].0, table[r].1[k].1);
      MirrorCell(table, codes, r, k);
    }
  }

  lemma SquarePairWeight(airports: seq<Airport>, table: Table, r: nat, k: nat)
    requires Distinct(Keys(airports)) && Square(table, Keys(airports))
    requires OffDiagonalPriced(table) && Symmetric(table)
    requires r < |airports| && k < |airports| && r != k
    ensures PairKey(airports[r].0, airports[k].0) in FromCostTable(airports, table).weight
    ensures FromCostTable(airports, table).weight[PairKey(airports[r].0, airports[k].0)] == table[r].1[k].1.amount
  {
    var codes := Keys(airports);
    SquareLookup(table, codes, r, k);
    SymmetricWeight(airports, table, codes[r], codes[k]);
  }

  /**
   * A square table whose entries mirror each other across the diagonal and
   * whose diagonal alone holds "-" (both scripts' tables): the graph joins
   * every two airports, with weight `flight_costs[a][b]`, and has
   * n(n-1)/2 edges.
   */
  lemma SquareTableGraph(airports: seq<Airport>, table: Table)
    requires Distinct(Keys(airports)) && Square(table, Keys(airports))
    requires OffDiagonalPriced(table) && MirrorImage(table)
    ensures FromCostTable(airports, table).nodes == Keys(airports)
    ensures 2 * |FromCostTable(airports, table).weight| == |airports| * (|airports| - 1)
    ensures forall r, k :: 0 <= r < |airports| && 0 <= k < |airports| && r != k ==>
      PairKey(airports[r].0, airports[k].0) in FromCostTable(airports, table).weight &&
      FromCostTable(airports, table).weight[PairKey(airports[r].0, airports[k].0)] == table[r].1[k].1.amount
  {
    SquareTableSize(airports, table);
    SquareTableWeights(airports, table);
  }

  lemma SquareTableSize(airports: seq<Airport>, table: Table)
    requires Distinct(Keys(airports)) && Square(table, Keys(airports)) && OffDiagonalPriced(table)
    ensures FromCostTable(airports, table).nodes == Keys(airports)
    ensures 2 * |FromCostTable(airports, table).weight| == |airports| * (|airports| - 1)
  {
    SquarePriced(airports, table);
    CompleteTable(airports, table);
  }

  lemma SquareTableWeights(airports: seq<Airport>, table: Table)
    requires Distinct(Keys(airports)) && Square(table, Keys(airports))
    requires OffDiagonalPriced(table) && MirrorImage(table)
    ensures forall r, k :: 0 <= r < |airports| && 0 <= k < |airports| && r != k ==>
      PairKey(airports[r].0, airports[k].0) in FromCostTable(airports, table).weight &&
      FromCostTable(airports, table).weight[PairKey(airports[r].0, airports[k].0)] == table[r].1[k].1.amount
  {
    MirrorSymmetric(table, Keys(airports));
    forall r, k | 0 <= r < |airports| && 0 <= k < |airports| && r != k
      ensures PairKey(airports[r].0, airports[k].0) in FromCostTable(airports, table).weight &&
        FromCostTable(airports, table).weight[PairKey(airports[r].0, airports[k].0)] == table[r].1[k].1.amount
    {
      SquarePairWeight(airports, table, r, k);
    }
  }
}
