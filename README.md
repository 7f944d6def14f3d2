# FlightGraph in Dafny

FlightGraph is three small Python scripts that draw a network of airports:

- `main.py` builds a graph from a list of routes and animates the cheapest path between two chosen airports. Each frame reveals one more airport of the path and shows a running total cost.
- `test.py` and `flightfuel.py` build a graph from a square table of flight costs and draw its minimum spanning tree.

The scripts hand shortest paths, spanning trees, layout and drawing to networkx, matplotlib, Tkinter and PyQt5. Their own logic is what this project models:

- how the graph is filled from routes or from a cost table;
- what `G.edges(data=True)` and the `edge_labels` dictionary then contain;
- which cost the animation shows at each frame.

Modules:

- `Sums` (sums.dfy) — sums of weights over finite sets of edges, independent of order.
- `Graphs` (graph.dfy) — an undirected `nx.Graph`. It keeps nodes in insertion order and one weight per *unordered* pair {u, v}, stored as a `map<set<Code>, int>`.
  - `WithNode` and `WithEdge` are `add_node` and `add_edge`. `add_edge` adds missing endpoints, first u then v, and overwrites the weight.
  - `FlightGraph` is the mutable graph object the scripts update, with `AddNode` and `AddEdge` methods.
  - `EdgeView` is `G.edges(data=True)`, and `EdgeLabels` is the `edge_labels` comprehension.
- `RouteGraph` (routes.dfy) — the loops of main.py, lines 33-39: a fold of the route list and the imperative `BuildFromRoutes`.
- `CostTable` (cost_table.dfy) — the nested loops of test.py (15-22) and flightfuel.py (12-18): a fold over the cells of the table and the imperative `BuildFromCostTable`.
  - A cell value is `Weight(int)` or `NoRoute`, for the `"-"` sentinel.
  - Python dictionaries keep declaration order, so tables and the airports dictionary are sequences of key/value pairs. `Find` and `Lookup` give their dictionary reading.
- `Animation` (animation.dfy) — the pure part of `update` in main.py:
  - the revealed prefix (line 57);
  - `highlighted_edges` (line 63);
  - the total (line 74);
  - the frame count (line 86).
- `Samples` (samples.dfy) — the literal data of the three scripts and what the general lemmas give for it.

How `G.edges(data=True)` is modelled: networkx walks the nodes in insertion order and reports each edge the first time it meets one of its endpoints. So every edge appears exactly once, oriented from the endpoint that joined the graph first. `EdgeView` reproduces that orientation, and the orientation is what main.py's total depends on.

The scripts skip diagonal cells without complaint and accept any integer weight, including negative ones; the model does the same:

- Diagonal cells are skipped silently rather than rejected.
- Any integer weight is accepted, including negative ones. Properties that need non-negative weights say so in their `requires`.
- A route from an airport to itself would become a self-loop in main.py's graph. The model keeps such an edge.
- The total on screen is computed as written, and the discrepancy is recorded under Findings.

## Model

| member | source | states |
|---|---|---|
| `Graphs.EmptyGraph` | main.py:30 | `nx.Graph()` has no nodes and no edges, and is a valid graph |
| `Graphs.WithNode` | main.py:34 | `add_node` keeps the existing nodes in place, appends the code at the end exactly when it is new, leaves every edge unchanged, and keeps the graph valid |
| `Graphs.WithEdge` | main.py:39 | `add_edge` keeps the existing nodes in place and appends just the missing endpoints, u first and then v; {u, v} gets the new weight whether or not it was already an edge; every other pair keeps its weight or absence; the graph stays valid |
| `Graphs.NewEdgeReportedFromFirst` | main.py:39 | an edge between two codes new to the graph is reported as (u, v), in the order `add_edge` named them, and never as (v, u) |
| `Graphs.FlightGraph.constructor` | main.py:30 | a new graph object holds the empty graph |
| `Graphs.FlightGraph.AddNode` | test.py:16 | the object's new state is its old state with the node added |
| `Graphs.FlightGraph.AddEdge` | test.py:22 | the object's new state is its old state with the edge added or overwritten |
| `Graphs.FlightGraph.AddAirportNodes` | main.py:33-34 | the airport loop leaves the object holding its old graph with the airports added in dictionary order |
| `Graphs.AddAirports` | main.py:33-34 | adding the airports in dictionary order keeps existing nodes and edges, adds exactly the airport codes, and keeps the graph valid |
| `Graphs.AddAirportsInOrder` | main.py:33-34 | when no code repeats, the nodes are the old nodes followed by the codes in dictionary order |
| `Graphs.RowFrom` | main.py:64 | definition: the entries reported from node i, for the nodes at position j and later that share an edge with it, each carrying the edge's weight |
| `Graphs.RowsFrom` | main.py:64 | definition: the rows of the nodes at position i and later, concatenated in node order |
| `Graphs.EdgeView` | main.py:64 | definition of `G.edges(data=True)`: the rows of all nodes, so each edge appears once, reported from the endpoint added first |
| `Graphs.RowsFacts` | main.py:64 | the edges reported from one node onward are edges of the graph in reporting orientation; every such edge is reported; they are listed in node order |
| `Graphs.StoredKeysEqual` | main.py:64-65 | two edges reported in reporting orientation with the same endpoints are the same report |
| `Graphs.EdgeViewEntries` | main.py:64-66 | `G.edges(data=True)` contains (u, v, w) exactly when {u, v} is an edge of weight w and u joined the graph no later than v |
| `Graphs.EdgeViewDistinct` | main.py:64 | no edge is reported twice |
| `Graphs.EdgeViewCovers` | main.py:64 | every edge of a valid graph is reported |
| `Graphs.EdgeViewKeys` | main.py:74 | the reported edges, as unordered pairs, are exactly the edges of the graph |
| `Graphs.Labels` | test.py:41 | definition: the dictionary comprehension over a listing of edges, a later entry for the same (u, v) replacing an earlier one |
| `Graphs.EdgeLabels` | flightfuel.py:31 | definition of `edge_labels`: `Labels` over `G.edges(data=True)` |
| `Graphs.EdgeLabelsKeys` | test.py:41 | `edge_labels` has the key (u, v) exactly when {u, v} is an edge reported as (u, v) |
| `Graphs.EdgeLabelsWeights` | flightfuel.py:31 | every label carries the weight of its edge |
| `Graphs.EdgeLabelsCount` | test.py:41 | `edge_labels` has exactly one entry per edge of the graph |
| `Graphs.PairKeyCases` | main.py:39 | an unordered pair determines its endpoints up to order: (a, b) and (b, a) name the same edge and no other pair does |
| `Graphs.PrefixHoldingAll` | main.py:33-39 | nodes that start with the airport codes and contain nothing else are exactly the airport codes |
| `Graphs.CompleteGraphSize` | flightfuel.py:15-18 | a valid graph in which all distinct nodes are joined and no node is joined to itself has n(n-1)/2 edges |
| `RouteGraph.AddRoutes` | main.py:37-39 | definition: `add_edge` applied to each triple of the route list in list order |
| `RouteGraph.FromRoutes` | main.py:30-39 | definition of main.py's `G`: the airports added to an empty graph, then the routes folded in |
| `RouteGraph.LastRouteWeight` | main.py:37-39 | reference definition: the cost of the last triple whose unordered pair is k, written independently of the graph |
| `RouteGraph.AddRoutesWeight` | main.py:37-39 | after folding the routes, a pair's weight is that of the last triple for it in list order (either orientation); a pair no triple names keeps its earlier weight or absence |
| `RouteGraph.AddRoutesValid` | main.py:37-39 | folding routes keeps the graph valid and keeps the earlier nodes in place |
| `RouteGraph.AddRoutesNodes` | main.py:37-39 | folding routes adds exactly the triples' endpoints as nodes |
| `RouteGraph.EndpointsOf` | main.py:38 | a node added by the routes is the source or the destination of some triple |
| `RouteGraph.FromRoutesWeight` | main.py:33-39 | in main.py's graph the weight of a pair is the cost of the last triple for that pair, and a pair no triple names is not an edge |
| `RouteGraph.RouteIsEdge` | main.py:37-39 | each triple's pair, in either orientation, is an edge |
| `RouteGraph.LastRouteWins` | main.py:37-39 | a triple not followed by another triple for the same unordered pair decides that edge's weight |
| `RouteGraph.FromRoutesNodes` | main.py:33-34 | main.py's graph is valid; every airport is a node even with no route; the nodes are the airport codes and the route endpoints; with distinct codes the nodes begin with the codes in dictionary order |
| `RouteGraph.FromRoutesNonNegative` | main.py:37-39 | non-negative route costs give non-negative edge weights |
| `RouteGraph.BuildFromRoutes` | main.py:30-39 | the two loops leave a newly allocated graph object holding exactly the folded graph |
| `CostTable.Qualifies` | test.py:21 | definition of the guard `src != dest and cost != "-"` |
| `CostTable.Cells` | test.py:19-20 | definition: the cells in the order the nested loops visit them, row by row |
| `CostTable.AddCell` | test.py:21-22 | definition of the inner loop's body: `add_edge(src, dest, weight=cost)` when the guard holds, otherwise nothing |
| `CostTable.AddCells` | test.py:19-22 | definition: `AddCell` applied to each cell in visiting order |
| `CostTable.FromCostTable` | flightfuel.py:11-18 | definition of the scripts' `G`: the airports added to an empty graph, then the table's cells folded in |
| `CostTable.LastCellWeight` | test.py:19-22 | reference definition: the cost of the last qualifying cell whose unordered pair is k, written independently of the graph |
| `CostTable.Find` | test.py:19 | definition of `d[key]`: the value of the first entry with that key, or none for a `KeyError` |
| `CostTable.Lookup` | test.py:19-20 | definition of `flight_costs[a][b]` |
| `CostTable.RowCells` | test.py:20 | one cell per entry of a row, in the row's order, with the row's source |
| `CostTable.AddCellsWeight` | test.py:19-22 | after the cells are folded, a pair's weight is the cost of the last qualifying cell for it (either orientation); otherwise it keeps its earlier weight or absence |
| `CostTable.AddCellsAppend` | test.py:19-20 | folding two runs of cells one after the other is folding their concatenation |
| `CostTable.FromCostTableWeight` | test.py:15-22 | the weight of a pair is `int(cost)` of the last qualifying cell for it in table order, and a pair without one is not an edge |
| `CostTable.CellIsEdge` | test.py:21-22 | every cell with `src != dest` and a cost other than "-" yields the edge {src, dest} |
| `CostTable.LastCellWins` | flightfuel.py:15-18 | a qualifying cell not followed by another qualifying cell for the same pair, in either orientation, decides that edge's weight |
| `CostTable.NoEdgeWithoutCost` | test.py:21 | a pair whose every cell is diagonal or "-" is not an edge |
| `CostTable.NoSelfLoop` | flightfuel.py:17 | no cell ever creates a self-loop |
| `CostTable.QualifyingCells` | test.py:21 | the cells that pass the guard are exactly the cells with `src != dest` and a cost |
| `CostTable.OnlyQualifyingCellsMatter` | flightfuel.py:17 | dropping every diagonal and "-" cell gives the same graph |
| `CostTable.AddCellsNodes` | test.py:19-22 | folding cells adds exactly the endpoints of the qualifying cells as nodes and keeps the graph valid |
| `CostTable.AddCellsPrefix` | test.py:19-22 | folding cells keeps the earlier nodes in place |
| `CostTable.FromCostTableNodes` | test.py:15-22 | the table's graph is valid; every airport is a node; the nodes are the airport codes and the qualifying cells' endpoints |
| `CostTable.AddRow` | test.py:20-22 | the inner loop over one row leaves the object holding its old graph with that row's cells folded in |
| `CostTable.BuildFromCostTable` | test.py:12-22 | the airport loop and the nested table loops leave a newly allocated graph object holding exactly the folded graph |
| `CostTable.FindAt` | test.py:19 | with no repeated key, `d[key]` is the entry's value |
| `CostTable.FindSome` | test.py:19 | a value found for a key is an entry of the dictionary |
| `CostTable.CellsOf` | test.py:19-20 | the cells visited are the entries of the table, each row's source paired with that row's entries, and every entry is visited |
| `CostTable.CellLookup` | test.py:19-20 | when no key repeats, the loops visit the cell (a, b, x) exactly when `flight_costs[a][b]` is x |
| `CostTable.SymmetricWeight` | test.py:19-22 | for a symmetric table, {a, b} is an edge exactly when `flight_costs[a][b]` is a cost, and its weight is that cost, whatever the iteration order |
| `CostTable.TableNodesAreAirports` | flightfuel.py:12-18 | a table mentioning only airport codes gives a graph whose nodes are exactly the codes, in dictionary order |
| `CostTable.CompleteTable` | flightfuel.py:12-18 | a table pricing every pair of different airports gives the airports as nodes and n(n-1)/2 edges |
| `CostTable.SquareLookup` | flightfuel.py:15-16 | in a square table over distinct codes, `flight_costs[codes[r]][codes[k]]` is entry [r][k] |
| `CostTable.SquarePriced` | flightfuel.py:15-17 | a square table with costs off the diagonal has unique keys, mentions only airports, and prices every pair of different airports |
| `CostTable.MirrorSymmetric` | test.py:19-22 | a square table equal to its own mirror image across the diagonal is symmetric as dictionaries |
| `CostTable.SquarePairWeight` | test.py:21-22 | in such a table, the edge between airports r and k weighs entry [r][k] |
| `CostTable.SquareTableGraph` | flightfuel.py:12-18 | a square, mirrored table with costs off the diagonal gives a complete graph on the airports with n(n-1)/2 edges, each {a, b} weighing `flight_costs[a][b]` |
| `Animation.Counts` | main.py:74 | definition of the filter of the total: as written, the reported (source, target) is highlighted; corrected, either orientation is |
| `Animation.SumCounted` | main.py:74 | definition of the generator sum over `G.edges(data=True)`, in listing order |
| `Animation.Shown` | main.py:57-74 | definition of `total_cost` at frame `num` (`AsDrawn`), and of the corrected total (`EitherWay`) |
| `Animation.IsPath` | main.py:63 | definition of what the path provides: consecutive airports are joined by an edge |
| `Animation.PathCost` | main.py:63-74 | reference definition: the sum of the weights of the path's legs, one term per leg |
| `Animation.Revealed` | main.py:57 | the revealed path is the prefix of the path of length `num + 1`, or the whole path when that is longer |
| `Animation.Highlighted` | main.py:63 | `highlighted_edges` has `len(path) - 1` entries (none for an empty path), entry i being `(path[i], path[i + 1])` |
| `Animation.FrameReveals` | main.py:86 | for every frame `num < len(shortest_path)` the revealed prefix has length `num + 1`, and the last frame reveals the whole path |
| `Animation.HighlightedFrame` | main.py:57-63 | frame `num` highlights exactly the first `num` legs of the whole path |
| `Animation.HighlightedNested` | main.py:57-63 | the pairs highlighted at frame k are a prefix of those highlighted at frame k + 1 |
| `Animation.FirstFrame` | main.py:74 | frame 0 highlights nothing and shows a total of 0 |
| `Animation.SumCountedKeys` | main.py:74 | a sum over a list of edges with distinct pairs is the sum over the set of counted pairs |
| `Animation.TotalIsSum` | main.py:74 | a total equals the sum of the weights of the set of edges it counts |
| `Animation.TotalMonotone` | main.py:74 | with non-negative weights, highlighting more pairs never lowers a total |
| `Animation.ShownMonotone` | main.py:57-74 | with non-negative weights, the total shown never decreases from one frame to the next |
| `Animation.PathKeysStep` | main.py:63 | the legs of a path are those of the path without its last airport plus its last leg |
| `Animation.LastLegIsNew` | main.py:63 | in a path that repeats no airport, the last leg is a different edge from every earlier leg |
| `Animation.PathKeysSum` | main.py:63-74 | with non-negative weights, the path's legs counted once weigh at most the path's cost, and exactly its cost for a path that repeats no airport |
| `Animation.SimplePathKeysSum` | main.py:63-74 | for a path that repeats no airport, the legs counted once weigh exactly the path's cost, whatever the signs of the weights |
| `Animation.EitherWayKeysAreLegs` | main.py:67-74 | an edge counted in either orientation is a leg of the path |
| `Animation.LegsAreEitherWayKeys` | main.py:67-74 | every leg of a path is counted when either orientation counts |
| `Animation.EitherWayKeys` | main.py:74 | counting either orientation counts exactly the legs of the path |
| `Animation.EitherWayShowsPathCost` | main.py:74 | counting either orientation, frame `num` shows the cost of the path revealed so far, and the last frame the cost of the whole path, for any integer weights |
| `Animation.AsDrawnWithinEitherWay` | main.py:74 | main.py's total never exceeds the either-orientation total |
| `Animation.AsDrawnAtMostPathCost` | main.py:74 | main.py's total is at most the cost of the path |
| `Animation.AsDrawnExactWhenStored` | main.py:74 | main.py's total is the path's cost when every leg runs in the orientation `G.edges` reports it in, for any integer weights |
| `Animation.ReversedPairNotHighlighted` | main.py:63 | a path that repeats no airport never highlights a leg backwards |
| `Animation.ReversedLegNotCounted` | main.py:74 | a leg travelled against its reported orientation is not counted by main.py's total |
| `Animation.AsDrawnMissesReversedLeg` | main.py:74 | one leg of positive weight travelled against its reported orientation makes main.py's total strictly less than the path's cost |
| `Animation.AsDrawnZeroWhenAllReversed` | main.py:74 | when every leg runs against its reported orientation, main.py's total is 0 |
| `Samples.MainCodesDistinct` | main.py:9-16 | the six airport codes are distinct and in the dictionary's order |
| `Samples.MainEndpoints` | main.py:17-26 | every route endpoint is one of the six airports |
| `Samples.MainGraphNodes` | main.py:30-39 | main.py's graph has exactly the six airports as nodes, in dictionary order |
| `Samples.MainGraphLegs` | main.py:17-39 | AUS–DFW weighs 300 and DFW–JFK weighs 400 |
| `Samples.MainGraphNonNegative` | main.py:17-39 | every weight in main.py's graph is non-negative |
| `Samples.JfkToAustinCost` | main.py:17-26 | JFK, DFW, AUS is a path that repeats no airport, with cost 700 |
| `Samples.MainCodesPositions` | main.py:9-16 | in the six codes in dictionary order, which are the nodes of main.py's graph, AUS is first, DFW second and JFK fourth |
| `Samples.JfkToAustinReversed` | main.py:33-39 | in any graph with AUS, DFW and JFK at positions 0, 1 and 3, both legs of JFK, DFW, AUS run against the orientation `G.edges` reports |
| `Samples.JfkToAustinTotals` | main.py:74 | in a graph with those positions where AUS–DFW weighs 300 and DFW–JFK 400, the last frame of JFK, DFW, AUS shows 0, while counting either orientation gives 700 |
| `Samples.JfkToAustinEveryFrame` | main.py:74 | in a graph with those positions, every frame of JFK, DFW, AUS shows 0 under main.py's rule |
| `Samples.ReversedPathShowsZero` | main.py:74 | on main.py's own data, from JFK to Austin every frame shows 0, while the last frame counting either orientation shows the path's cost, 700 |
| `Samples.FuelTableSquare` | flightfuel.py:51-58 | flightfuel.py's table has one row per airport, each listing every airport in dictionary order |
| `Samples.FuelTablePriced` | flightfuel.py:51-58 | its entries off the diagonal are all costs |
| `Samples.FuelTableMirrored` | flightfuel.py:51-58 | it equals its mirror image across the diagonal |
| `Samples.TestTableSquare` | test.py:63-70 | test.py's table has one row per airport, each listing every airport in dictionary order |
| `Samples.TestTablePriced` | test.py:63-70 | its entries off the diagonal are all costs |
| `Samples.TestTableMirrored` | test.py:63-70 | it equals its mirror image across the diagonal |
| `Samples.SixAirportGraph` | flightfuel.py:42-58 | a square, mirrored table over the six airports gives a graph with those six nodes, 15 edges and 15 labels, each edge {a, b} weighing `flight_costs[a][b]` |
| `Samples.FuelGraph` | flightfuel.py:12-31 | flightfuel.py's graph has the six airports as nodes, 15 edges and 15 edge labels |
| `Samples.TestGraph` | test.py:15-41 | test.py's graph has the six airports as nodes, 15 edges and 15 edge labels |

## Left out

- `nx.shortest_path` (main.py:93) is an input, not code of this repository: the path is a parameter. `IsPath` requires each consecutive pair to be an edge. Where equality with the path's cost is claimed, the path must also repeat no airport. Which path networkx picks, and how it breaks ties, is not modelled.
- `nx.minimum_spanning_tree` (test.py:25, flightfuel.py:20) is a library call; its algorithm and tie-breaking are not modelled.
- Layouts (`spring_layout`, `circular_layout`), all drawing, edge colours, widths, labels on screen, text and titles are presentation.
- `FuncAnimation` timing and the event loop are not modelled (main.py:84-87). Only the frame numbers 0 to `len(shortest_path) - 1` enter, through `FrameReveals`.
- The Tkinter and PyQt5 windows and widgets (main.py:97-122, test.py:47-78, flightfuel.py:35-76) are user interface.
- The global `shortest_path`, `total_cost` and `ani` variables shared between callbacks (main.py:46-48, 55, 85, 90) are left out. The path is a parameter and the total a function result (`Animation.Shown`). Re-entrancy across callbacks is not modelled.
- The `flight_distances` matrix (flightfuel.py:60-68) is never read.
- Node attributes (`name=` at main.py:34, `label=` at test.py:16 and flightfuel.py:13) are display data. The graph keeps only codes.
- `int(cost)` is applied to cells that are already integers. A string cost that `int` would parse or reject is not modelled.
- `Graphs.EdgeView` lists the edges reported from one node in node order; networkx lists them in the order they were added. The set of reported (source, target) pairs is the same, so sums and `edge_labels` do not depend on it. `Graphs.RowsFacts` states the model's order.
- `Samples.FuelGraph` and `Samples.TestGraph` do not restate the 15 weights one by one. The weights follow from `Samples.SixAirportGraph` together with the shape lemmas of each table.

## Findings

| source | as written | input that shows it | evidently intended | confidence | as-written member | corrected member |
|---|---|---|---|---|---|---|
| main.py:74 | the total counts an edge only when `(source, target)` as reported by `G.edges(data=True)` is a highlighted pair; `G.edges` reports each edge from the endpoint that joined the graph first, so a leg travelled the other way is dropped | main.py's own data, source JFK, destination AUS: the path is JFK, DFW, AUS (700, against 850 through ORD); both legs are reported as (AUS, DFW) and (DFW, JFK), so every frame shows 0 | count an edge when either orientation is highlighted, so that the total shown is the cost of the path revealed so far | not executed; follows from the reporting order of `G.edges` | `Samples.ReversedPathShowsZero` | `Animation.EitherWayShowsPathCost` |
