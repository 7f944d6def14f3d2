/**
 * The graph of main.py: every airport of `airport_data['airports']` becomes a
 * node, then every `(source, destination, cost)` triple of
 * `airport_data['routes']` becomes an undirected edge with that weight.
 */
module RouteGraph {
  import opened Sums
  import opened Graphs

  /** A triple of `airport_data['routes']`. */
  datatype Route = Route(source: Code, destination: Code, cost: int)

  function RouteKey(r: Route): Pair
  {
    PairKey(r.source, r.destination)
  }

  /** `for route in routes: G.add_edge(source, destination, weight=cost)`, in list order. */
  function AddRoutes(g: Graph, routes: seq<Route>): Graph
    decreases |routes|
  {
    if routes == [] then g
    else
      var r := routes[|routes| - 1];
      WithEdge(AddRoutes(g, routes[..|routes| - 1]), r.source, r.destination, r.cost)
  }

  /** The graph main.py builds from its airports and routes. */
  function FromRoutes(airports: seq<Airport>, routes: seq<Route>): Graph
  {
    AddRoutes(AddAirports(EmptyGraph(), airports), routes)
  }

  /** The cost of the last triple in `routes` whose unordered pair of endpoints is `k`, if there is one. */
  function LastRouteWeight(routes: seq<Route>, k: Pair): Option<int>
    decreases |routes|
  {
    if routes == [] then None
    else if RouteKey(routes[|routes| - 1]) == k then Some(routes[|routes| - 1].cost)
    else LastRouteWeight(routes[..|routes| - 1], k)
  }

  /**
   * Folding the routes into a graph: the weight of a pair is that of the last
   * triple for it; a pair no triple names keeps the weight it had before.
   */
  lemma {:induction false} AddRoutesWeight(g: Graph, routes: seq<Route>, k: Pair)
    ensures Get(AddRoutes(g, routes).weight, k) ==
      match LastRouteWeight(routes, k)
      case Some(w) => Some(w)
      case None => Get(g.weight, k)
    decreases |routes|
  {
    if routes != [] {
      AddRoutesWeight(g, routes[..|routes| - 1], k);
    }
  }

  /** The endpoints of the triples. */
  function Endpoints(routes: seq<Route>): set<Code>
    decreases |routes|
  {
    if routes == [] then {}
    else
      var last := routes[|routes| - 1];
      Endpoints(routes[..|routes| - 1]) + {last.source, last.destination}
  }

  lemma {:induction false} EndpointsOf(routes: seq<Route>, x: Code)
    requires x in Endpoints(routes)
    ensures exists i :: 0 <= i < |routes| && (x == routes[i].source || x == routes[i].destination)
    decreases |routes|
  {
    var init := routes[..|routes| - 1];
    if x in Endpoints(init) {
      EndpointsOf(init, x);
      var i :| 0 <= i < |init| && (x == init[i].source || x == init[i].destination);
      assert routes[i] == init[i];
    }
  }

  /** Folding the routes keeps the graph valid and keeps the old nodes in place. */
  lemma {:induction false} AddRoutesValid(g: Graph, routes: seq<Route>)
    requires Valid(g)
    ensures Valid(AddRoutes(g, routes))
    ensures |g.nodes| <= |AddRoutes(g, routes).nodes| && AddRoutes(g, routes).nodes[..|g.nodes|] == g.nodes
    decreases |routes|
  {
    if routes != [] {
      var init := routes[..|routes| - 1];
      AddRoutesValid(g, init);
      var h := AddRoutes(g, init);
      assert AddRoutes(g, routes).nodes[..|g.nodes|] == AddRoutes(g, routes).nodes[..|h.nodes|][..|g.nodes|];
    }
  }

  /** Folding the routes adds exactly the endpoints of the triples as nodes. */
  lemma {:induction false} AddRoutesNodes(g: Graph, routes: seq<Route>)
    ensures forall c :: c in AddRoutes(g, routes).nodes <==> c in g.nodes || c in Endpoints(routes)
    decreases |routes|
  {
    if routes != [] {
      AddRoutesNodes(g, routes[..|routes| - 1]);
    }
  }

  /** The weight main.py's graph keeps for a pair is that of the last triple for it; no other pair is an edge. */
  lemma FromRoutesWeight(airports: seq<Airport>, routes: seq<Route>, k: Pair)
    ensures Get(FromRoutes(airports, routes).weight, k) == LastRouteWeight(routes, k)
  {
    AddRoutesWeight(AddAirports(EmptyGraph(), airports), routes, k);
  }

  lemma {:induction false} LastRouteWeightFound(routes: seq<Route>, i: nat)
    requires i < |routes|
    ensures LastRouteWeight(routes, RouteKey(routes[i])).Some?
    decreases |routes|
  {
    if i < |routes| - 1 && RouteKey(routes[|routes| - 1]) != RouteKey(routes[i]) {
      LastRouteWeightFound(routes[..|routes| - 1], i);
    }
  }

  lemma {:induction false} LastRouteWeightAt(routes: seq<Route>, i: nat)
    requires i < |routes|
    requires forall j :: i < j < |routes| ==> RouteKey(routes[j]) != RouteKey(routes[i])
    ensures LastRouteWeight(routes, RouteKey(routes[i])) == Some(routes[i].cost)
    decreases |routes|
  {
    if i < |routes| - 1 {
      LastRouteWeightAt(routes[..|routes| - 1], i);
    }
  }

  /** Every triple's unordered pair {source, destination} is an edge of main.py's graph. */
  lemma RouteIsEdge(airports: seq<Airport>, routes: seq<Route>, i: nat)
    requires i < |routes|
    ensures PairKey(routes[i].source, routes[i].destination) in FromRoutes(airports, routes).weight
    ensures PairKey(routes[i].destination, routes[i].source) in FromRoutes(airports, routes).weight
  {
    FromRoutesWeight(airports, routes, RouteKey(routes[i]));
    LastRouteWeightFound(routes, i);
    assert PairKey(routes[i].source, routes[i].destination) == PairKey(routes[i].destination, routes[i].source);
  }

  /** A later triple for the same unordered pair overwrites the earlier weight: the last one for a pair decides. */
  lemma LastRouteWins(airports: seq<Airport>, routes: seq<Route>, i: nat)
    requires i < |routes|
    requires forall j :: i < j < |routes| ==> RouteKey(routes[j]) != RouteKey(routes[i])
    ensures RouteKey(routes[i]) in FromRoutes(airports, routes).weight
    ensures FromRoutes(airports, routes).weight[RouteKey(routes[i])] == routes[i].cost
  {
    FromRoutesWeight(airports, routes, RouteKey(routes[i]));
    LastRouteWeightAt(routes, i);
  }

  /**
   * main.py's graph is valid; its nodes are the airport codes, in dictionary
   * order, followed by route endpoints that are not airports; every airport is
   * a node even when no route touches it.
   */
  lemma FromRoutesNodes(airports: seq<Airport>, routes: seq<Route>)
    ensures Valid(FromRoutes(airports, routes))
    ensures forall i :: 0 <= i < |airports| ==> airports[i].0 in FromRoutes(airports, routes).nodes
    ensures forall c :: c in FromRoutes(airports, routes).nodes <==> c in Keys(airports) || c in Endpoints(routes)
    ensures Distinct(Keys(airports)) ==>
      |airports| <= |FromRoutes(airports, routes).nodes| &&
      FromRoutes(airports, routes).nodes[..|airports|] == Keys(airports)
  {
    FromRoutesNodeSet(airports, routes);
    FromRoutesOrder(airports, routes);
  }

  lemma FromRoutesNodeSet(airports: seq<Airport>, routes: seq<Route>)
    ensures forall i :: 0 <= i < |airports| ==> airports[i].0 in FromRoutes(airports, routes).nodes
    ensures forall c :: c in FromRoutes(airports, routes).nodes <==> c in Keys(airports) || c in Endpoints(routes)
  {
    var start := AddAirports(EmptyGraph(), airports);
    AddRoutesNodes(start, routes);
    assert EmptyGraph().nodes == [];
    forall i | 0 <= i < |airports|
      ensures airports[i].0 in FromRoutes(airports, routes).nodes
    {
      assert Keys(airports)[i] == airports[i].0;
    }
  }

  lemma FromRoutesOrder(airports: seq<Airport>, routes: seq<Route>)
    ensures Valid(FromRoutes(airports, routes))
    ensures Distinct(Keys(airports)) ==>
      |airports| <= |FromRoutes(airports, routes).nodes| &&
      FromRoutes(airports, routes).nodes[..|airports|] == Keys(airports)
  {
    var start := AddAirports(EmptyGraph(), airports);
    AddRoutesValid(start, routes);
    if Distinct(Keys(airports)) {
      assert [] + Keys(airports) == Keys(airports);
      AddAirportsInOrder(EmptyGraph(), airports);
    }
  }

  /** The loops of main.py that fill the graph `G`. */
  method BuildFromRoutes(airports: seq<Airport>, routes: seq<Route>) returns (graph: FlightGraph)
    ensures fresh(graph)
    ensures graph.Value() == FromRoutes(airports, routes)
  {
    graph := new FlightGraph();
    graph.AddAirportNodes(airports);
    ghost var start := graph.Value();
    for i := 0 to |routes|
      invariant graph.Value() == AddRoutes(start, routes[..i])
    {
      var Route(source, destination, cost) := routes[i];
      AddRoutesStep(start, routes, i);
      graph.AddEdge(source, destination, cost);
    }
    assert routes[..|routes|] == routes;
  }

  lemma AddRoutesStep(g: Graph, routes: seq<Route>, i: nat)
    requires i < |routes|
    ensures AddRoutes(g, routes[..i + 1]) == WithEdge(AddRoutes(g, routes[..i]), routes[i].source, routes[i].destination, routes[i].cost)
  {
    assert routes[..i + 1][..i] == routes[..i];
  }

  /** With non-negative costs on every triple, every edge weight is non-negative. */
  lemma FromRoutesNonNegative(airports: seq<Airport>, routes: seq<Route>)
    requires forall i :: 0 <= i < |routes| ==> routes[i].cost >= 0
    ensures NonNegative(FromRoutes(airports, routes).weight)
  {
    forall k | k in FromRoutes(airports, routes).weight
      ensures FromRoutes(airports, routes).weight[k] >= 0
    {
      FromRoutesWeight(airports, routes, k);
      LastRouteWeightNonNegative(routes, k);
    }
  }

  lemma {:induction false} LastRouteWeightNonNegative(routes: seq<Route>, k: Pair)
    requires forall i :: 0 <= i < |routes| ==> routes[i].cost >= 0
    ensures LastRouteWeight(routes, k).Some? ==> LastRouteWeight(routes, k).value >= 0
    decreases |routes|
  {
    if routes != [] {
      LastRouteWeightNonNegative(routes[..|routes| - 1], k);
    }
  }
}
