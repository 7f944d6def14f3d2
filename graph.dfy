/**
 * The undirected weighted graph the scripts build with networkx's `nx.Graph`,
 * reduced to what they use of it: the nodes in the order they were added, one
 * weight per unordered pair of endpoints, `add_node`, `add_edge`, and the edge
 * listing `G.edges(data=True)` with the orientation in which it reports each edge.
 */
module Graphs {
  import opened Sums

  /** An airport code such as "AUS". */
  type Code = string

  /** The key of an undirected edge: the set of its endpoints, {u, v} ({u} for a self-loop). */
  type Pair = set<Code>

  datatype Option<T> = None | Some(value: T)

  function PairKey(u: Code, v: Code): Pair
  {
    {u, v}
  }

  /** A graph: its nodes in insertion order and the weight stored for each edge. */
  datatype Graph = Graph(nodes: seq<Code>, weight: map<Pair, int>)

  /** One item of `G.edges(data=True)`: the reported orientation and the edge's weight. */
  datatype EdgeEntry = EdgeEntry(source: Code, target: Code, weight: int)

  function EdgeKey(e: EdgeEntry): Pair
  {
    PairKey(e.source, e.target)
  }

  function Get(w: map<Pair, int>, k: Pair): Option<int>
  {
    if k in w then Some(w[k]) else None
  }

  predicate Distinct(s: seq<Code>)
  {
    forall i, j :: 0 <= i < j < |s| ==> s[i] != s[j]
  }

  /** A node occurs once, and every edge joins nodes of the graph. */
  ghost predicate Valid(g: Graph)
  {
    && Distinct(g.nodes)
    && forall k :: k in g.weight ==> Joins(g.nodes, k)
  }

  function EmptyGraph(): (g: Graph)
    ensures Valid(g) && |g.nodes| == 0 && |g.weight| == 0
  {
    Graph([], map[])
  }

  /** The position of `c` in `s` (its first occurrence), or `|s|` when `c` is absent. */
  function Idx(s: seq<Code>, c: Code): (r: nat)
    ensures r <= |s|
    ensures c in s ==> r < |s| && s[r] == c && c !in s[..r]
    ensures c !in s ==> r == |s|
  {
    if s == [] then 0
    else if s[0] == c then 0
    else
      var r := 1 + Idx(s[1..], c);
      assert s[1..][..r - 1] == s[1..r];
      r
  }

  lemma IdxOfDistinct(s: seq<Code>)
    requires Distinct(s)
    ensures forall i :: 0 <= i < |s| ==> Idx(s, s[i]) == i
  {
  }

  lemma IdxAt(s: seq<Code>, i: nat)
    requires Distinct(s) && i < |s|
    ensures Idx(s, s[i]) == i
  {
  }

  /** The node order after inserting `c`: `s` with `c` appended unless already present. */
  function Appended(s: seq<Code>, c: Code): seq<Code>
  {
    if c in s then s else s + [c]
  }

  /**
   * `G.add_node(c)`: a new code is appended to the node order; a code already
   * present changes nothing.
   */
  function WithNode(g: Graph, c: Code): (r: Graph)
    ensures r.weight == g.weight
    ensures r.nodes == Appended(g.nodes, c)
    ensures |g.nodes| <= |r.nodes| && r.nodes[..|g.nodes|] == g.nodes
    ensures forall x :: x in r.nodes <==> x in g.nodes || x == c
    ensures Valid(g) ==> Valid(r)
  {
    if c in g.nodes then g
    else
      var r := g.(nodes := g.nodes + [c]);
      assert Valid(g) ==> Valid(r) by {
        if Valid(g) {
          ExtendValid(g, r);
        }
      }
      r
  }

  /** Appending new nodes keeps every edge joined to nodes of the graph. */
  lemma ExtendValid(g: Graph, r: Graph)
    requires Valid(g) && Distinct(r.nodes)
    requires |g.nodes| <= |r.nodes| && r.nodes[..|g.nodes|] == g.nodes
    requires r.weight == g.weight
    ensures Valid(r)
  {
    forall k | k in r.weight
      ensures Joins(r.nodes, k)
    {
      ExtendJoins(g.nodes, r.nodes, k);
    }
  }

  /** `k` is the pair of the nodes at two positions i <= j of `nodes`. */
  ghost predicate Joins(nodes: seq<Code>, k: Pair)
  {
    exists i, j :: 0 <= i <= j < |nodes| && k == PairKey(nodes[i], nodes[j])
  }

  lemma ExtendJoins(s: seq<Code>, t: seq<Code>, k: Pair)
    requires |s| <= |t| && t[..|s|] == s
    requires Joins(s, k)
    ensures Joins(t, k)
  {
    var i, j :| 0 <= i <= j < |s| && k == PairKey(s[i], s[j]);
    assert t[i] == s[i] && t[j] == s[j];
  }

  /**
   * `G.add_edge(u, v, weight=w)`: adds `u`, then `v`, as nodes when they are
   * missing, and sets the weight of the undirected edge {u, v} to `w`,
   * replacing any weight stored before for either orientation.
   */
  function WithEdge(g: Graph, u: Code, v: Code, w: int): (r: Graph)
    ensures |g.nodes| <= |r.nodes| && r.nodes[..|g.nodes|] == g.nodes
    ensures forall x :: x in r.nodes <==> x in g.nodes || x == u || x == v
    ensures r.nodes == Appended(Appended(g.nodes, u), v)
    ensures forall k :: Get(r.weight, k) == if k == PairKey(u, v) then Some(w) else Get(g.weight, k)
    ensures Valid(g) ==> Valid(r)
  {
    var h1 := WithNode(g, u);
    var h := WithNode(h1, v);
    assert h.nodes[..|g.nodes|] == h.nodes[..|h1.nodes|][..|g.nodes|];
    var r := h.(weight := h.weight[PairKey(u, v) := w]);
    GetUpdate(h.weight, PairKey(u, v), w);
    assert Valid(h) ==> Valid(r) by {
      if Valid(h) {
        AddKeyValid(h, u, v, w);
      }
    }
    r
  }

  /**
   * `add_edge(u, v)` between two codes not yet in the graph appends u, then v,
   * so the edge is then reported as (u, v), never as (v, u).
   */
  lemma NewEdgeReportedFromFirst(g: Graph, u: Code, v: Code, w: int)
    requires Distinct(g.nodes) && u !in g.nodes && v !in g.nodes && u != v
    ensures Stored(WithEdge(g, u, v, w), u, v)
    ensures !Stored(WithEdge(g, u, v, w), v, u)
  {
    var r := WithEdge(g, u, v, w);
    var n := |g.nodes|;
    assert r.nodes == g.nodes + [u] + [v];
    DistinctSnoc(g.nodes, u);
    DistinctSnoc(g.nodes + [u], v);
    IdxAt(r.nodes, n);
    IdxAt(r.nodes, n + 1);
    assert Get(r.weight, PairKey(u, v)) == Some(w);
  }

  lemma DistinctSnoc(s: seq<Code>, c: Code)
    requires Distinct(s) && c !in s
    ensures Distinct(s + [c])
  {
    var t := s + [c];
    forall i, j | 0 <= i < j < |t|
      ensures t[i] != t[j]
    {
      assert t[i] == s[i];
      if j < |s| {
        assert t[j] == s[j];
      }
    }
  }

  /** Setting the weight of an edge between two nodes keeps the graph valid. */
  /** Updating one key of a weight map changes the lookup of that key only. */
  lemma GetUpdate(m: map<Pair, int>, key: Pair, w: int)
    ensures forall k :: Get(m[key := w], k) == if k == key then Some(w) else Get(m, k)
  {
    forall k
      ensures Get(m[key := w], k) == if k == key then Some(w) else Get(m, k)
    {
      if k != key {
        assert k in m[key := w] <==> k in m;
      }
    }
  }

  lemma AddKeyValid(h: Graph, u: Code, v: Code, w: int)
    requires Valid(h) && u in h.nodes && v in h.nodes
    ensures Valid(h.(weight := h.weight[PairKey(u, v) := w]))
  {
    var r := h.(weight := h.weight[PairKey(u, v) := w]);
    forall k | k in r.weight
      ensures Joins(r.nodes, k)
    {
      if k == PairKey(u, v) {
        NodesJoin(h.nodes, u, v);
      }
    }
  }

  /** Any two nodes make a pair that `Joins` them. */
  lemma NodesJoin(s: seq<Code>, u: Code, v: Code)
    requires u in s && v in s
    ensures Joins(s, PairKey(u, v))
  {
    var i, j := Idx(s, u), Idx(s, v);
    if i <= j {
      assert PairKey(u, v) == PairKey(s[i], s[j]);
    } else {
      assert PairKey(u, v) == PairKey(s[j], s[i]);
    }
  }

  /** Whether `(u, v)` is the orientation in which the edge {u, v} is reported. */
  predicate Stored(g: Graph, u: Code, v: Code)
  {
    u in g.nodes && v in g.nodes && PairKey(u, v) in g.weight && Idx(g.nodes, u) <= Idx(g.nodes, v)
  }

  /** The edges {nodes[i], nodes[t]} for t = j, j + 1, ..., reported from nodes[i]. */
  function RowFrom(g: Graph, i: nat, j: nat): seq<EdgeEntry>
    requires i < |g.nodes| && j <= |g.nodes|
    decreases |g.nodes| - j
  {
    if j == |g.nodes| then []
    else
      var k := PairKey(g.nodes[i], g.nodes[j]);
      (if k in g.weight then [EdgeEntry(g.nodes[i], g.nodes[j], g.weight[k])] else []) + RowFrom(g, i, j + 1)
  }

  function RowsFrom(g: Graph, i: nat): seq<EdgeEntry>
    requires i <= |g.nodes|
    decreases |g.nodes| - i
  {
    if i == |g.nodes| then [] else RowFrom(g, i, i) + RowsFrom(g, i + 1)
  }

  /**
   * `G.edges(data=True)`: networkx walks the nodes in insertion order and lists
   * each edge the first time it meets one of its endpoints, so every edge appears
   * once, oriented from the endpoint that joined the graph first.
   */
  function EdgeView(g: Graph): seq<EdgeEntry>
  {
    RowsFrom(g, 0)
  }

  /** `e1` comes before `e2` when both are ordered by (source position, target position). */
  predicate ListedBefore(g: Graph, e1: EdgeEntry, e2: EdgeEntry)
  {
    var s1, t1 := Idx(g.nodes, e1.source), Idx(g.nodes, e1.target);
    var s2, t2 := Idx(g.nodes, e2.source), Idx(g.nodes, e2.target);
    s1 < s2 || (s1 == s2 && t1 < t2)
  }

  predicate DistinctKeys(view: seq<EdgeEntry>)
  {
    forall a, b :: 0 <= a < b < |view| ==> EdgeKey(view[a]) != EdgeKey(view[b])
  }

  /** Every entry of a row is an edge from nodes[i], listed with its weight. */
  lemma {:induction false} RowSound(g: Graph, i: nat, j: nat)
    requires Distinct(g.nodes) && i < |g.nodes| && j <= |g.nodes|
    ensures forall e :: e in RowFrom(g, i, j) ==>
      && e.source == g.nodes[i] && Idx(g.nodes, e.source) == i
      && j <= Idx(g.nodes, e.target) < |g.nodes|
      && EdgeKey(e) in g.weight && e.weight == g.weight[EdgeKey(e)]
    decreases |g.nodes| - j
  {
    if j < |g.nodes| {
      RowSound(g, i, j + 1);
      IdxAt(g.nodes, i);
      IdxAt(g.nodes, j);
    }
  }

  /** Every edge from nodes[i] to a later-or-equal node at position j or beyond is in the row. */
  lemma {:induction false} RowComplete(g: Graph, i: nat, j: nat)
    requires i < |g.nodes| && j <= |g.nodes|
    ensures forall t :: j <= t < |g.nodes| && PairKey(g.nodes[i], g.nodes[t]) in g.weight ==>
      EdgeEntry(g.nodes[i], g.nodes[t], g.weight[PairKey(g.nodes[i], g.nodes[t])]) in RowFrom(g, i, j)
    decreases |g.nodes| - j
  {
    if j < |g.nodes| {
      RowComplete(g, i, j + 1);
    }
  }

  /** A row lists its targets in node order. */
  lemma {:induction false} RowSorted(g: Graph, i: nat, j: nat)
    requires Distinct(g.nodes) && i < |g.nodes| && j <= |g.nodes|
    ensures forall a, b :: 0 <= a < b < |RowFrom(g, i, j)| ==>
      Idx(g.nodes, RowFrom(g, i, j)[a].target) < Idx(g.nodes, RowFrom(g, i, j)[b].target)
    decreases |g.nodes| - j
  {
    if j < |g.nodes| {
      RowSorted(g, i, j + 1);
      var k := PairKey(g.nodes[i], g.nodes[j]);
      var rest := RowFrom(g, i, j + 1);
      if k in g.weight {
        var head := EdgeEntry(g.nodes[i], g.nodes[j], g.weight[k]);
        assert RowFrom(g, i, j) == [head] + rest;
        IdxAt(g.nodes, j);
        forall b | 0 < b < |rest| + 1
          ensures Idx(g.nodes, head.target) < Idx(g.nodes, ([head] + rest)[b].target)
        {
          assert ([head] + rest)[b] == rest[b - 1] && rest[b - 1] in rest;
          RowSound(g, i, j + 1);
        }
      }
    }
  }

  /**
   * The listing from node i on: its entries are edges between nodes at i or
   * later, oriented by node order and carrying their weights; every such edge
   * is listed; entries come in node order.
   */
  lemma RowsFacts(g: Graph, i: nat)
    requires Distinct(g.nodes) && i <= |g.nodes|
    ensures forall e :: e in RowsFrom(g, i) ==>
      && i <= Idx(g.nodes, e.source) <= Idx(g.nodes, e.target) < |g.nodes|
      && EdgeKey(e) in g.weight && e.weight == g.weight[EdgeKey(e)]
    ensures forall s, t :: i <= s <= t < |g.nodes| && PairKey(g.nodes[s], g.nodes[t]) in g.weight ==>
      EdgeEntry(g.nodes[s], g.nodes[t], g.weight[PairKey(g.nodes[s], g.nodes[t])]) in RowsFrom(g, i)
    ensures forall a, b :: 0 <= a < b < |RowsFrom(g, i)| ==> ListedBefore(g, RowsFrom(g, i)[a], RowsFrom(g, i)[b])
  {
    RowsSound(g, i);
    RowsComplete(g, i);
    RowsSorted(g, i);
  }

  lemma {:induction false} RowsSound(g: Graph, i: nat)
    requires Distinct(g.nodes) && i <= |g.nodes|
    ensures forall e :: e in RowsFrom(g, i) ==>
      && i <= Idx(g.nodes, e.source) <= Idx(g.nodes, e.target) < |g.nodes|
      && EdgeKey(e) in g.weight && e.weight == g.weight[EdgeKey(e)]
    decreases |g.nodes| - i
  {
    if i < |g.nodes| {
      var row, rest := RowFrom(g, i, i), RowsFrom(g, i + 1);
      assert RowsFrom(g, i) == row + rest;
      forall e: EdgeEntry | e in row + rest
        ensures i <= Idx(g.nodes, e.source) <= Idx(g.nodes, e.target) < |g.nodes|
        ensures EdgeKey(e) in g.weight && e.weight == g.weight[EdgeKey(e)]
      {
        if e in row {
          RowSound(g, i, i);
        } else {
          RowsSound(g, i + 1);
        }
      }
    }
  }

  lemma {:induction false} RowsComplete(g: Graph, i: nat)
    requires i <= |g.nodes|
    ensures forall s, t :: i <= s <= t < |g.nodes| && PairKey(g.nodes[s], g.nodes[t]) in g.weight ==>
      EdgeEntry(g.nodes[s], g.nodes[t], g.weight[PairKey(g.nodes[s], g.nodes[t])]) in RowsFrom(g, i)
    decreases |g.nodes| - i
  {
    if i < |g.nodes| {
      RowComplete(g, i, i);
      RowsComplete(g, i + 1);
      assert RowsFrom(g, i) == RowFrom(g, i, i) + RowsFrom(g, i + 1);
    }
  }

  lemma {:induction false} RowsSorted(g: Graph, i: nat)
    requires Distinct(g.nodes) && i <= |g.nodes|
    ensures forall a, b :: 0 <= a < b < |RowsFrom(g, i)| ==> ListedBefore(g, RowsFrom(g, i)[a], RowsFrom(g, i)[b])
    decreases |g.nodes| - i
  {
    if i < |g.nodes| {
      var row, rest := RowFrom(g, i, i), RowsFrom(g, i + 1);
      assert RowsFrom(g, i) == row + rest;
      RowsSorted(g, i + 1);
      RowListed(g, i);
      RowBeforeRest(g, i);
      ConcatListed(g, row, rest, RowsFrom(g, i));
    }
  }

  /** Two listings in order, the first wholly before the second, concatenate to one in order. */
  lemma ConcatListed(g: Graph, row: seq<EdgeEntry>, rest: seq<EdgeEntry>, all: seq<EdgeEntry>)
    requires all == row + rest
    requires forall a, b :: 0 <= a < b < |row| ==> ListedBefore(g, row[a], row[b])
    requires forall a, b :: 0 <= a < b < |rest| ==> ListedBefore(g, rest[a], rest[b])
    requires forall x, y :: x in row && y in rest ==> ListedBefore(g, x, y)
    ensures forall a, b :: 0 <= a < b < |all| ==> ListedBefore(g, all[a], all[b])
  {
    forall a, b | 0 <= a < b < |all|
      ensures ListedBefore(g, all[a], all[b])
    {
      if b < |row| {
        assert all[a] == row[a] && all[b] == row[b];
      } else if a < |row| {
        assert all[a] == row[a] && row[a] in row;
        assert all[b] == rest[b - |row|] && rest[b - |row|] in rest;
      } else {
        assert all[a] == rest[a - |row|] && all[b] == rest[b - |row|];
      }
    }
  }

  /** Within the row of node i, entries share their source and come in target order. */
  lemma RowListed(g: Graph, i: nat)
    requires Distinct(g.nodes) && i < |g.nodes|
    ensures forall a, b :: 0 <= a < b < |RowFrom(g, i, i)| ==> ListedBefore(g, RowFrom(g, i, i)[a], RowFrom(g, i, i)[b])
  {
    var row := RowFrom(g, i, i);
    RowSound(g, i, i);
    RowSorted(g, i, i);
    forall a, b | 0 <= a < b < |row|
      ensures ListedBefore(g, row[a], row[b])
    {
      assert row[a] in row && row[b] in row;
    }
  }

  /** The row of node i comes before every row of a later node. */
  lemma RowBeforeRest(g: Graph, i: nat)
    requires Distinct(g.nodes) && i < |g.nodes|
    ensures forall x, y :: x in RowFrom(g, i, i) && y in RowsFrom(g, i + 1) ==> ListedBefore(g, x, y)
  {
    forall x, y | x in RowFrom(g, i, i) && y in RowsFrom(g, i + 1)
      ensures ListedBefore(g, x, y)
    {
      EntryBeforeRest(g, i, x, y);
    }
  }

  lemma EntryBeforeRest(g: Graph, i: nat, x: EdgeEntry, y: EdgeEntry)
    requires Distinct(g.nodes) && i < |g.nodes|
    requires x in RowFrom(g, i, i) && y in RowsFrom(g, i + 1)
    ensures ListedBefore(g, x, y)
  {
    RowSound(g, i, i);
    RowsSound(g, i + 1);
  }

  /** An unordered pair names its two endpoints, in one order or the other. */
  lemma PairKeyCases(u: Code, v: Code, a: Code, b: Code)
    requires PairKey(u, v) == PairKey(a, b)
    ensures (u == a && v == b) || (u == b && v == a)
  {
    assert u in PairKey(a, b) && v in PairKey(a, b);
    assert a in PairKey(u, v) && b in PairKey(u, v);
  }

  /** Two keys of edges that are both listed in their stored orientation are equal only for equal entries. */
  lemma StoredKeysEqual(g: Graph, s1: Code, t1: Code, s2: Code, t2: Code)
    requires Distinct(g.nodes)
    requires s1 in g.nodes && t1 in g.nodes && s2 in g.nodes && t2 in g.nodes
    requires Idx(g.nodes, s1) <= Idx(g.nodes, t1) && Idx(g.nodes, s2) <= Idx(g.nodes, t2)
    requires PairKey(s1, t1) == PairKey(s2, t2)
    ensures s1 == s2 && t1 == t2
  {
    assert s1 in PairKey(s2, t2) && t1 in PairKey(s2, t2);
    assert s2 in PairKey(s1, t1) && t2 in PairKey(s1, t1);
    IdxOfDistinct(g.nodes);
  }

  /** `G.edges(data=True)` reports exactly the edges of the graph, each in its stored orientation with its weight. */
  lemma EdgeViewEntries(g: Graph)
    requires Distinct(g.nodes)
    ensures forall e :: e in EdgeView(g) <==>
      Stored(g, e.source, e.target) && e.weight == g.weight[EdgeKey(e)]
  {
    RowsSound(g, 0);
    RowsComplete(g, 0);
    forall e: EdgeEntry | Stored(g, e.source, e.target) && e.weight == g.weight[EdgeKey(e)]
      ensures e in EdgeView(g)
    {
      var s, t := Idx(g.nodes, e.source), Idx(g.nodes, e.target);
      assert g.nodes[s] == e.source && g.nodes[t] == e.target;
    }
  }

  /** One reported edge: it is stored in the orientation reported, with its weight. */
  lemma InEdgeView(g: Graph, e: EdgeEntry)
    requires Distinct(g.nodes) && e in EdgeView(g)
    ensures Stored(g, e.source, e.target) && e.weight == g.weight[EdgeKey(e)]
  {
    EdgeViewEntries(g);
  }

  /** No edge is reported twice, in either orientation. */
  lemma EdgeViewDistinct(g: Graph)
    requires Distinct(g.nodes)
    ensures DistinctKeys(EdgeView(g))
  {
    var view := EdgeView(g);
    RowsSound(g, 0);
    RowsSorted(g, 0);
    forall a, b | 0 <= a < b < |view|
      ensures EdgeKey(view[a]) != EdgeKey(view[b])
    {
      assert view[a] in view && view[b] in view;
      assert ListedBefore(g, view[a], view[b]);
      if EdgeKey(view[a]) == EdgeKey(view[b]) {
        StoredKeysEqual(g, view[a].source, view[a].target, view[b].source, view[b].target);
      }
    }
  }

  /** Every edge of a valid graph is reported. */
  lemma EdgeViewCovers(g: Graph)
    requires Valid(g)
    ensures forall k :: k in g.weight ==> exists e :: e in EdgeView(g) && EdgeKey(e) == k
  {
    RowsComplete(g, 0);
    forall k | k in g.weight
      ensures exists e :: e in EdgeView(g) && EdgeKey(e) == k
    {
      var i, j :| 0 <= i <= j < |g.nodes| && k == PairKey(g.nodes[i], g.nodes[j]);
      assert EdgeEntry(g.nodes[i], g.nodes[j], g.weight[k]) in EdgeView(g);
    }
  }

  /** The `edge_labels` dictionary comprehension over a listing of edges, in listing order. */
  function Labels(view: seq<EdgeEntry>): map<(Code, Code), int>
  {
    if view == [] then map[]
    else
      var e := view[|view| - 1];
      Labels(view[..|view| - 1])[(e.source, e.target) := e.weight]
  }

  /** `edge_labels = {(u, v): d['weight'] for u, v, d in G.edges(data=True)}`. */
  function EdgeLabels(g: Graph): map<(Code, Code), int>
  {
    Labels(EdgeView(g))
  }

  lemma LabelsOf(view: seq<EdgeEntry>)
    requires DistinctKeys(view)
    ensures forall e :: e in view ==> (e.source, e.target) in Labels(view) && Labels(view)[(e.source, e.target)] == e.weight
    ensures forall p :: p in Labels(view) ==> exists e :: e in view && (e.source, e.target) == p
    ensures |Labels(view)| == |view|
  {
    LabelsOfEntries(view);
    LabelsFromEntries(view);
    LabelsSize(view);
  }

  /** Dropping the last entry of a listing without repeated keys leaves one, whose keys all differ from the last one's. */
  lemma LastKeyFresh(view: seq<EdgeEntry>)
    requires DistinctKeys(view) && view != []
    ensures DistinctKeys(view[..|view| - 1])
    ensures forall e :: e in view[..|view| - 1] ==> EdgeKey(e) != EdgeKey(view[|view| - 1])
  {
    var init := view[..|view| - 1];
    assert forall a :: 0 <= a < |init| ==> init[a] == view[a];
    forall e | e in init
      ensures EdgeKey(e) != EdgeKey(view[|view| - 1])
    {
      var a :| 0 <= a < |init| && init[a] == e;
    }
  }

  lemma {:induction false} LabelsOfEntries(view: seq<EdgeEntry>)
    requires DistinctKeys(view)
    ensures forall e :: e in view ==> (e.source, e.target) in Labels(view) && Labels(view)[(e.source, e.target)] == e.weight
    decreases |view|
  {
    if view != [] {
      var init, last := view[..|view| - 1], view[|view| - 1];
      LastKeyFresh(view);
      LabelsOfEntries(init);
      assert view == init + [last];
    }
  }

  lemma {:induction false} LabelsFromEntries(view: seq<EdgeEntry>)
    ensures forall p :: p in Labels(view) ==> exists e :: e in view && (e.source, e.target) == p
    decreases |view|
  {
    if view != [] {
      var init, last := view[..|view| - 1], view[|view| - 1];
      LabelsFromEntries(init);
      assert view == init + [last];
    }
  }

  lemma {:induction false} LabelsSize(view: seq<EdgeEntry>)
    requires DistinctKeys(view)
    ensures |Labels(view)| == |view|
    decreases |view|
  {
    if view != [] {
      var init, last := view[..|view| - 1], view[|view| - 1];
      LastKeyFresh(view);
      LabelsSize(init);
      LabelsFromEntries(init);
      forall e | e in init
        ensures (e.source, e.target) != (last.source, last.target)
      {
        assert EdgeKey(e) != EdgeKey(last);
      }
    }
  }

  /** The keys of a listing of edges; a listing without repeated keys has one key per entry. */
  lemma {:induction false} KeyCount(view: seq<EdgeEntry>)
    requires DistinctKeys(view)
    ensures |set e | e in view :: EdgeKey(e)| == |view|
    decreases |view|
  {
    if view != [] {
      var init, e := view[..|view| - 1], view[|view| - 1];
      LastKeyFresh(view);
      KeyCount(init);
      assert view == init + [e];
      KeysSnoc(init, e);
    }
  }

  /** Appending an entry whose key is new adds one key. */
  lemma KeysSnoc(init: seq<EdgeEntry>, e: EdgeEntry)
    requires forall d :: d in init ==> EdgeKey(d) != EdgeKey(e)
    ensures |set d | d in init + [e] :: EdgeKey(d)| == |set d | d in init :: EdgeKey(d)| + 1
  {
    var keys, initKeys := set d | d in init + [e] :: EdgeKey(d), set d | d in init :: EdgeKey(d);
    assert keys == initKeys + {EdgeKey(e)};
  }

  /** `edge_labels` has a label for an ordered pair exactly when it is an edge's stored orientation. */
  lemma EdgeLabelsKeys(g: Graph)
    requires Distinct(g.nodes)
    ensures forall u, v :: (u, v) in EdgeLabels(g) <==> Stored(g, u, v)
  {
    var view := EdgeView(g);
    EdgeViewEntries(g);
    EdgeViewDistinct(g);
    LabelsOf(view);
    forall u, v | Stored(g, u, v)
      ensures (u, v) in EdgeLabels(g)
    {
      assert EdgeEntry(u, v, g.weight[PairKey(u, v)]) in view;
    }
  }

  /** Each label carries the weight of its edge. */
  lemma EdgeLabelsWeights(g: Graph)
    requires Distinct(g.nodes)
    ensures forall u, v :: (u, v) in EdgeLabels(g) ==>
      PairKey(u, v) in g.weight && EdgeLabels(g)[(u, v)] == g.weight[PairKey(u, v)]
  {
    var view := EdgeView(g);
    EdgeViewEntries(g);
    EdgeViewDistinct(g);
    LabelsOf(view);
    forall u, v | (u, v) in EdgeLabels(g)
      ensures PairKey(u, v) in g.weight && EdgeLabels(g)[(u, v)] == g.weight[PairKey(u, v)]
    {
      var e :| e in view && (e.source, e.target) == (u, v);
    }
  }

  /** The keys of the reported entries are the edges of a valid graph. */
  lemma EdgeViewKeys(g: Graph)
    requires Valid(g)
    ensures (set e | e in EdgeView(g) :: EdgeKey(e)) == g.weight.Keys
  {
    EdgeViewEntries(g);
    EdgeViewCovers(g);
  }

  /** There is one label per edge: `edge_labels` and the graph have the same number of entries. */
  lemma EdgeLabelsCount(g: Graph)
    requires Valid(g)
    ensures |EdgeLabels(g)| == |g.weight| == |EdgeView(g)|
  {
    EdgeViewDistinct(g);
    LabelsOf(EdgeView(g));
    KeyCount(EdgeView(g));
    EdgeViewKeys(g);
  }

  /** A list without repeats that starts with `p` and holds nothing else is `p`. */
  lemma PrefixHoldingAll(s: seq<Code>, p: seq<Code>)
    requires Distinct(s) && |p| <= |s| && s[..|p|] == p
    requires forall x :: x in s ==> x in p
    ensures s == p
  {
    if |s| > |p| {
      NextIsNew(s, |p|);
      assert false;
    }
    assert s == s[..|p|];
  }

  lemma NextIsNew(s: seq<Code>, n: nat)
    requires Distinct(s) && n < |s|
    ensures s[n] in s && s[n] !in s[..n]
  {
  }

  /** Every pair of distinct nodes is an edge. */
  ghost predicate Complete(g: Graph)
  {
    forall i, j :: 0 <= i < j < |g.nodes| ==> PairKey(g.nodes[i], g.nodes[j]) in g.weight
  }

  ghost predicate NoSelfLoops(g: Graph)
  {
    forall c :: PairKey(c, c) !in g.weight
  }

  lemma {:induction false} CompleteRow(g: Graph, i: nat, j: nat)
    requires Complete(g) && i < j <= |g.nodes|
    ensures |RowFrom(g, i, j)| == |g.nodes| - j
    decreases |g.nodes| - j
  {
    if j < |g.nodes| {
      CompleteRow(g, i, j + 1);
    }
  }

  lemma {:induction false} CompleteRows(g: Graph, i: nat)
    requires Complete(g) && NoSelfLoops(g) && i <= |g.nodes|
    ensures |RowsFrom(g, i)| == Pairs(|g.nodes| - i)
    decreases |g.nodes| - i
  {
    if i < |g.nodes| {
      CompleteRows(g, i + 1);
      CompleteRow(g, i, i + 1);
      DiagonalSkipped(g, i);
      RowsSizeStep(g, i);
      PairsStep(|g.nodes| - i);
    }
  }

  lemma RowsSizeStep(g: Graph, i: nat)
    requires i < |g.nodes|
    ensures |RowsFrom(g, i)| == |RowFrom(g, i, i)| + |RowsFrom(g, i + 1)|
  {
  }

  lemma PairsStep(m: nat)
    requires m > 0
    ensures Pairs(m) == m - 1 + Pairs(m - 1)
  {
  }

  /** Without self-loops, the row of node i starts past the node itself. */
  lemma DiagonalSkipped(g: Graph, i: nat)
    requires NoSelfLoops(g) && i < |g.nodes|
    ensures RowFrom(g, i, i) == RowFrom(g, i, i + 1)
  {
    assert PairKey(g.nodes[i], g.nodes[i]) !in g.weight;
    assert RowFrom(g, i, i) == [] + RowFrom(g, i, i + 1);
  }

  /** The number of two-element subsets of an n-element set, counted row by row. */
  function Pairs(n: nat): nat
  {
    if n == 0 then 0 else n - 1 + Pairs(n - 1)
  }

  lemma {:induction false} PairsFormula(n: nat)
    ensures 2 * Pairs(n) == n * (n - 1)
  {
    if n > 0 {
      PairsFormula(n - 1);
      assert 2 * Pairs(n - 1) == (n - 1) * (n - 2);
      assert (n - 1) * (n - 2) + 2 * (n - 1) == n * (n - 1);
    }
  }

  /** A graph on n nodes where every two distinct nodes are joined, and no node to itself, has n(n-1)/2 edges. */
  lemma CompleteGraphSize(g: Graph)
    requires Valid(g) && Complete(g) && NoSelfLoops(g)
    ensures 2 * |g.weight| == |g.nodes| * (|g.nodes| - 1)
  {
    CompleteRows(g, 0);
    PairsFormula(|g.nodes|);
    EdgeLabelsCount(g);
  }

  /** An entry of an airports dictionary: the code and the airport's display name. */
  type Airport = (Code, string)

  /** The keys of a dictionary given as its entries, in declaration order (the airport codes, a table's sources). */
  function Keys<V>(entries: seq<(Code, V)>): (ks: seq<Code>)
    ensures |ks| == |entries| && forall i :: 0 <= i < |entries| ==> ks[i] == entries[i].0
  {
    seq(|entries|, i requires 0 <= i < |entries| => entries[i].0)
  }

  /**
   * `for code, name in airports.items(): G.add_node(code, ...)`: every code
   * becomes a node, the nodes already there keep their places, and edges are
   * untouched.
   */
  function AddAirports(g: Graph, airports: seq<Airport>): (r: Graph)
    ensures r.weight == g.weight
    ensures |g.nodes| <= |r.nodes| && r.nodes[..|g.nodes|] == g.nodes
    ensures forall c :: c in r.nodes <==> c in g.nodes || c in Keys(airports)
    ensures Valid(g) ==> Valid(r)
    decreases |airports|
  {
    if airports == [] then g
    else
      var init, last := airports[..|airports| - 1], airports[|airports| - 1];
      var h := AddAirports(g, init);
      assert Keys(airports) == Keys(init) + [last.0];
      var r := WithNode(h, last.0);
      assert r.nodes[..|g.nodes|] == r.nodes[..|h.nodes|][..|g.nodes|];
      r
  }

  /** When no code repeats a node, the new nodes follow the old ones in dictionary order. */
  lemma {:induction false} AddAirportsInOrder(g: Graph, airports: seq<Airport>)
    requires Distinct(g.nodes + Keys(airports))
    ensures AddAirports(g, airports).nodes == g.nodes + Keys(airports)
    decreases |airports|
  {
    if airports != [] {
      var init, last := airports[..|airports| - 1], airports[|airports| - 1];
      assert Keys(airports) == Keys(init) + [last.0];
      var full, part := g.nodes + Keys(airports), g.nodes + Keys(init);
      assert full == part + [last.0];
      assert Distinct(part) by {
        assert forall i :: 0 <= i < |part| ==> part[i] == full[i];
      }
      AddAirportsInOrder(g, init);
      assert last.0 !in part by {
        assert full[|full| - 1] == last.0;
        assert forall i :: 0 <= i < |part| ==> part[i] == full[i] != full[|full| - 1];
      }
    }
  }

  /** A mutable `nx.Graph`, as the scripts create it and then call `add_node` and `add_edge` on it. */
  class FlightGraph {
    var nodes: seq<Code>
    var weight: map<Pair, int>

    function Value(): Graph
      reads this
    {
      Graph(nodes, weight)
    }

    /** `nx.Graph()`. */
    constructor ()
      ensures Value() == EmptyGraph()
    {
      nodes, weight := [], map[];
    }

    method AddNode(c: Code)
      modifies this
      ensures Value() == WithNode(old(Value()), c)
    {
      if c !in nodes {
        nodes := nodes + [c];
      }
    }

    method AddEdge(u: Code, v: Code, w: int)
      modifies this
      ensures Value() == WithEdge(old(Value()), u, v, w)
    {
      AddNode(u);
      AddNode(v);
      weight := weight[PairKey(u, v) := w];
    }

    /** `for code, name in airports.items(): G.add_node(code, ...)`. */
    method AddAirportNodes(airports: seq<Airport>)
      modifies this
      ensures Value() == AddAirports(old(Value()), airports)
    {
      ghost var start := Value();
      for i := 0 to |airports|
        invariant Value() == AddAirports(start, airports[..i])
      {
        var (code, name) := airports[i];
        AddNode(code);
        assert airports[..i + 1][..i] == airports[..i];
      }
      assert airports[..|airports|] == airports;
    }
  }
}
