/**
 * The cost accounting of main.py's animation: frame `num` of `update` reveals a
 * prefix of the shortest path, highlights its consecutive pairs and shows as
 * its total the weights of the edges drawn as highlighted.
 */
module Animation {
  import opened Sums
  import opened Graphs

  /** `shortest_path[:num + 1]`: Python clamps the end of a slice to the length. */
  function Revealed(path: seq<Code>, num: nat): (p: seq<Code>)
    ensures |p| <= |path| && p == path[..|p|]
    ensures |p| == num + 1 || (|p| == |path| && |path| <= num + 1)
  {
    if num + 1 <= |path| then path[..num + 1] else path
  }

  /** `[(path[i], path[i + 1]) for i in range(len(path) - 1)]`. */
  function Highlighted(path: seq<Code>): (h: seq<(Code, Code)>)
    ensures |h| == if path == [] then 0 else |path| - 1
    ensures forall i :: 0 <= i < |h| ==> h[i] == (path[i], path[i + 1])
  {
    if path == [] then [] else seq(|path| - 1, i requires 0 <= i < |path| - 1 => (path[i], path[i + 1]))
  }

  /**
   * Which edges of `G.edges(data=True)` a total counts: main.py counts an edge
   * when its reported orientation is a highlighted pair (`AsDrawn`); counting it
   * when either orientation is (`EitherWay`) is what the total is meant to show.
   */
  datatype Rule = AsDrawn | EitherWay

  predicate Counts(rule: Rule, hl: seq<(Code, Code)>, e: EdgeEntry)
  {
    match rule
    case AsDrawn => (e.source, e.target) in hl
    case EitherWay => (e.source, e.target) in hl || (e.target, e.source) in hl
  }

  /** `sum(data['weight'] for source, target, data in view if ...)`. */
  function SumCounted(view: seq<EdgeEntry>, rule: Rule, hl: seq<(Code, Code)>): int
    decreases |view|
  {
    if view == [] then 0
    else
      var e := view[|view| - 1];
      SumCounted(view[..|view| - 1], rule, hl) + if Counts(rule, hl, e) then e.weight else 0
  }

  /** The total shown at frame `num`; `Shown(g, path, num, AsDrawn)` is main.py's `total_cost`. */
  function Shown(g: Graph, path: seq<Code>, num: nat, rule: Rule): int
  {
    SumCounted(EdgeView(g), rule, Highlighted(Revealed(path, num)))
  }

  /** The edges a total counts, as unordered pairs. */
  ghost function CountedKeys(view: seq<EdgeEntry>, rule: Rule, hl: seq<(Code, Code)>): set<Pair>
  {
    set e | e in view && Counts(rule, hl, e) :: EdgeKey(e)
  }

  /** What `nx.shortest_path` promises here: consecutive airports of the path are joined by an edge. */
  ghost predicate IsPath(g: Graph, path: seq<Code>)
  {
    forall i :: 0 <= i < |path| - 1 ==> PairKey(path[i], path[i + 1]) in g.weight
  }

  /** The sum of the weights of the path's legs, one term per leg. */
  function PathCost(g: Graph, path: seq<Code>): int
    requires IsPath(g, path)
    decreases |path|
  {
    if |path| < 2 then 0
    else
      var n := |path|;
      PathCost(g, path[..n - 1]) + g.weight[PairKey(path[n - 2], path[n - 1])]
  }

  /** The legs of the path, as unordered pairs. */
  ghost function PathKeys(path: seq<Code>): set<Pair>
  {
    set i | 0 <= i < |path| - 1 :: LegKey(path, i)
  }

  /** The leg from `path[i]` to `path[i + 1]`, as an unordered pair. */
  function LegKey(path: seq<Code>, i: nat): Pair
    requires i < |path| - 1
  {
    PairKey(path[i], path[i + 1])
  }

  // Frames and highlighting

  /**
   * `FuncAnimation(..., frames=len(shortest_path))` calls `update(num)` for
   * `num` below the path's length: frame `num` reveals the first `num + 1`
   * airports, and the last frame reveals the whole path.
   */
  lemma FrameReveals(path: seq<Code>, num: nat)
    requires num < |path|
    ensures |Revealed(path, num)| == num + 1
    ensures Revealed(path, num) == path[..num + 1]
    ensures num == |path| - 1 ==> Revealed(path, num) == path
  {
  }

  /** Frame `num` highlights the first `num` legs of the whole path. */
  lemma HighlightedFrame(path: seq<Code>, num: nat)
    requires num < |path|
    ensures Highlighted(Revealed(path, num)) == Highlighted(path)[..num]
  {
    var h, p := Highlighted(Revealed(path, num)), Highlighted(path);
    assert |h| == num;
    forall i | 0 <= i < num
      ensures h[i] == p[i]
    {
      assert Revealed(path, num)[i] == path[i] && Revealed(path, num)[i + 1] == path[i + 1];
    }
  }

  /** What frame `k` highlights, frame `k + 1` still highlights, in the same places. */
  lemma HighlightedNested(path: seq<Code>, k: nat)
    ensures |Highlighted(Revealed(path, k))| <= |Highlighted(Revealed(path, k + 1))|
    ensures Highlighted(Revealed(path, k)) == Highlighted(Revealed(path, k + 1))[..|Highlighted(Revealed(path, k))|]
  {
    if k + 1 < |path| {
      HighlightedFrame(path, k);
      HighlightedFrame(path, k + 1);
    } else if k < |path| {
      HighlightedFrame(path, k);
      assert Revealed(path, k + 1) == path;
      assert Highlighted(path)[..|path| - 1] == Highlighted(path);
    }
  }

  /** Frame 0 reveals only the first airport, highlights nothing and shows 0. */
  lemma FirstFrame(g: Graph, path: seq<Code>, rule: Rule)
    ensures Highlighted(Revealed(path, 0)) == []
    ensures Shown(g, path, 0, rule) == 0
  {
    assert Highlighted(Revealed(path, 0)) == [];
    NothingHighlighted(EdgeView(g), rule);
  }

  /** With nothing highlighted, no entry counts. */
  lemma {:induction false} NothingHighlighted(view: seq<EdgeEntry>, rule: Rule)
    ensures SumCounted(view, rule, []) == 0
    decreases |view|
  {
    if view != [] {
      NothingHighlighted(view[..|view| - 1], rule);
    }
  }

  // Totals as sums over sets of edges

  lemma {:induction false} SumCountedKeys(view: seq<EdgeEntry>, rule: Rule, hl: seq<(Code, Code)>, w: map<Pair, int>)
    requires DistinctKeys(view)
    requires forall e :: e in view ==> EdgeKey(e) in w && w[EdgeKey(e)] == e.weight
    ensures CountedKeys(view, rule, hl) <= w.Keys
    ensures SumCounted(view, rule, hl) == SumSet(CountedKeys(view, rule, hl), w)
    decreases |view|
  {
    if view != [] {
      var init := view[..|view| - 1];
      InitOfListing(view);
      SumCountedKeys(init, rule, hl, w);
      SumCountedStep(view, rule, hl, w);
    }
  }

  /** Dropping the last entry of a listing keeps its keys distinct and its entries among the listing's. */
  lemma InitOfListing(view: seq<EdgeEntry>)
    requires view != [] && DistinctKeys(view)
    ensures DistinctKeys(view[..|view| - 1])
    ensures forall x :: x in view[..|view| - 1] ==> x in view
  {
    var init := view[..|view| - 1];
    assert forall a :: 0 <= a < |init| ==> init[a] == view[a];
    assert view == init + [view[|view| - 1]];
  }

  /** One more entry adds its weight to the sum exactly when it counts. */
  lemma SumCountedStep(view: seq<EdgeEntry>, rule: Rule, hl: seq<(Code, Code)>, w: map<Pair, int>)
    requires view != [] && DistinctKeys(view)
    requires forall e :: e in view ==> EdgeKey(e) in w && w[EdgeKey(e)] == e.weight
    requires CountedKeys(view[..|view| - 1], rule, hl) <= w.Keys
    requires SumCounted(view[..|view| - 1], rule, hl) == SumSet(CountedKeys(view[..|view| - 1], rule, hl), w)
    ensures CountedKeys(view, rule, hl) <= w.Keys
    ensures SumCounted(view, rule, hl) == SumSet(CountedKeys(view, rule, hl), w)
  {
    var init, e := view[..|view| - 1], view[|view| - 1];
    var before, after := CountedKeys(init, rule, hl), CountedKeys(view, rule, hl);
    CountedKeysStep(view, rule, hl);
    assert e in view;
    if Counts(rule, hl, e) {
      LastKeyIsNew(view, rule, hl);
      assert after - {EdgeKey(e)} == before;
      SumSetRemove(after, w, EdgeKey(e));
    } else {
      assert after == before;
    }
  }

  /** The pairs counted over a listing are those counted without its last entry, plus that entry's if it counts. */
  lemma CountedKeysStep(view: seq<EdgeEntry>, rule: Rule, hl: seq<(Code, Code)>)
    requires view != []
    ensures CountedKeys(view, rule, hl) ==
      CountedKeys(view[..|view| - 1], rule, hl) + (if Counts(rule, hl, view[|view| - 1]) then {EdgeKey(view[|view| - 1])} else {})
  {
    assert view == view[..|view| - 1] + [view[|view| - 1]];
  }

  /** Without repeated keys, the last entry's pair is not counted before it. */
  lemma LastKeyIsNew(view: seq<EdgeEntry>, rule: Rule, hl: seq<(Code, Code)>)
    requires view != [] && DistinctKeys(view)
    ensures EdgeKey(view[|view| - 1]) !in CountedKeys(view[..|view| - 1], rule, hl)
  {
    var init, e := view[..|view| - 1], view[|view| - 1];
    forall x | x in init
      ensures EdgeKey(x) != EdgeKey(e)
    {
      var a :| 0 <= a < |init| && init[a] == x;
      assert view[a] == x;
    }
  }

  /**
   * Each edge is reported once, so a total is the sum of the weights of the
   * set of edges it counts, in no particular order.
   */
  lemma TotalIsSum(g: Graph, rule: Rule, hl: seq<(Code, Code)>)
    requires Valid(g)
    ensures CountedKeys(EdgeView(g), rule, hl) <= g.weight.Keys
    ensures SumCounted(EdgeView(g), rule, hl) == SumSet(CountedKeys(EdgeView(g), rule, hl), g.weight)
  {
    EdgeViewDistinct(g);
    EdgeViewEntries(g);
    SumCountedKeys(EdgeView(g), rule, hl, g.weight);
  }

  /** With non-negative weights, highlighting more pairs never lowers a total. */
  lemma TotalMonotone(g: Graph, rule: Rule, hl1: seq<(Code, Code)>, hl2: seq<(Code, Code)>)
    requires Valid(g) && NonNegative(g.weight)
    requires forall p :: p in hl1 ==> p in hl2
    ensures SumCounted(EdgeView(g), rule, hl1) <= SumCounted(EdgeView(g), rule, hl2)
  {
    var view := EdgeView(g);
    TotalIsSum(g, rule, hl1);
    TotalIsSum(g, rule, hl2);
    CountedKeysMonotone(view, rule, hl1, hl2);
    SumSetSubset(CountedKeys(view, rule, hl1), CountedKeys(view, rule, hl2), g.weight);
  }

  lemma CountedKeysMonotone(view: seq<EdgeEntry>, rule: Rule, hl1: seq<(Code, Code)>, hl2: seq<(Code, Code)>)
    requires forall p :: p in hl1 ==> p in hl2
    ensures CountedKeys(view, rule, hl1) <= CountedKeys(view, rule, hl2)
  {
    forall e | e in view && Counts(rule, hl1, e)
      ensures Counts(rule, hl2, e)
    {
    }
  }

  /** With non-negative weights the total shown never decreases from one frame to the next. */
  lemma ShownMonotone(g: Graph, path: seq<Code>, k: nat, rule: Rule)
    requires Valid(g) && NonNegative(g.weight)
    ensures Shown(g, path, k, rule) <= Shown(g, path, k + 1, rule)
  {
    var h1, h2 := Highlighted(Revealed(path, k)), Highlighted(Revealed(path, k + 1));
    HighlightedNested(path, k);
    forall p | p in h1
      ensures p in h2
    {
      var i :| 0 <= i < |h1| && h1[i] == p;
      assert h2[i] == p;
    }
    TotalMonotone(g, rule, h1, h2);
  }

  // Path cost

  lemma {:induction false} PathKeysStep(path: seq<Code>)
    requires |path| >= 2
    ensures PathKeys(path) == PathKeys(path[..|path| - 1]) + {PairKey(path[|path| - 2], path[|path| - 1])}
  {
    var init := path[..|path| - 1];
    assert LegKey(path, |path| - 2) in PathKeys(path);
    forall k | k in PathKeys(path)
      ensures k in PathKeys(init) + {PairKey(path[|path| - 2], path[|path| - 1])}
    {
      var i :| 0 <= i < |path| - 1 && k == LegKey(path, i);
      if i < |path| - 2 {
        assert init[i] == path[i] && init[i + 1] == path[i + 1];
        assert k == LegKey(init, i);
      }
    }
    forall k | k in PathKeys(init)
      ensures k in PathKeys(path)
    {
      var i :| 0 <= i < |init| - 1 && k == LegKey(init, i);
      assert init[i] == path[i] && init[i + 1] == path[i + 1];
      assert k == LegKey(path, i);
    }
  }

  /** A leg of a simple path is a different edge from every earlier leg. */
  lemma LastLegIsNew(path: seq<Code>)
    requires Distinct(path) && |path| >= 2
    ensures PairKey(path[|path| - 2], path[|path| - 1]) !in PathKeys(path[..|path| - 1])
  {
    var n := |path|;
    var init := path[..n - 1];
    if PairKey(path[n - 2], path[n - 1]) in PathKeys(init) {
      var i :| 0 <= i < |init| - 1 && PairKey(path[n - 2], path[n - 1]) == PairKey(init[i], init[i + 1]);
      assert init[i] == path[i] && init[i + 1] == path[i + 1];
      PairKeyCases(path[n - 2], path[n - 1], path[i], path[i + 1]);
      assert false;
    }
  }

  lemma PathKeysAreEdges(g: Graph, path: seq<Code>)
    requires IsPath(g, path)
    ensures PathKeys(path) <= g.weight.Keys
  {
  }

  /** Dropping the last airport of a path leaves a path; without repeats before, none after. */
  lemma PathInit(g: Graph, path: seq<Code>)
    requires IsPath(g, path) && |path| >= 1
    ensures IsPath(g, path[..|path| - 1])
    ensures Distinct(path) ==> Distinct(path[..|path| - 1])
  {
    var init := path[..|path| - 1];
    assert forall i :: 0 <= i < |init| ==> init[i] == path[i];
  }

  /**
   * The legs of a path, counted once each, weigh at most the path's cost, and
   * exactly its cost when the path never repeats an airport (as a shortest
   * path does not).
   */
  lemma {:induction false} PathKeysSum(g: Graph, path: seq<Code>)
    requires IsPath(g, path) && NonNegative(g.weight)
    ensures PathKeys(path) <= g.weight.Keys
    ensures SumSet(PathKeys(path), g.weight) <= PathCost(g, path)
    ensures Distinct(path) ==> SumSet(PathKeys(path), g.weight) == PathCost(g, path)
    decreases |path|
  {
    PathKeysAreEdges(g, path);
    if |path| < 2 {
      assert PathKeys(path) == {};
    } else {
      var n := |path|;
      var init := path[..n - 1];
      var k := PairKey(path[n - 2], path[n - 1]);
      PathInit(g, path);
      PathKeysSum(g, init);
      PathKeysStep(path);
      SumSetRemove(PathKeys(path), g.weight, k);
      SumSetSubset(PathKeys(path) - {k}, PathKeys(init), g.weight);
    }
    if Distinct(path) {
      SimplePathKeysSum(g, path);
    }
  }

  /** The legs of a path that repeats no airport weigh exactly the path's cost, whatever the signs of the weights. */
  lemma {:induction false} SimplePathKeysSum(g: Graph, path: seq<Code>)
    requires IsPath(g, path) && Distinct(path)
    ensures PathKeys(path) <= g.weight.Keys
    ensures SumSet(PathKeys(path), g.weight) == PathCost(g, path)
    decreases |path|
  {
    PathKeysAreEdges(g, path);
    if |path| < 2 {
      assert PathKeys(path) == {};
    } else {
      var n := |path|;
      var init := path[..n - 1];
      var k := PairKey(path[n - 2], path[n - 1]);
      PathInit(g, path);
      SimplePathKeysSum(g, init);
      PathKeysStep(path);
      LastLegIsNew(path);
      SumSetRemove(PathKeys(path), g.weight, k);
      assert PathKeys(path) - {k} == PathKeys(init);
    }
  }

  // The intended total and main.py's total

  /** Every edge counted either way is a leg of the path. */
  lemma EitherWayKeysAreLegs(g: Graph, path: seq<Code>)
    ensures CountedKeys(EdgeView(g), EitherWay, Highlighted(path)) <= PathKeys(path)
  {
    var view, hl := EdgeView(g), Highlighted(path);
    forall k | k in CountedKeys(view, EitherWay, hl)
      ensures k in PathKeys(path)
    {
      var e :| e in view && Counts(EitherWay, hl, e) && k == EdgeKey(e);
      if (e.source, e.target) in hl {
        var i :| 0 <= i < |hl| && hl[i] == (e.source, e.target);
        assert k == LegKey(path, i);
      } else {
        var i :| 0 <= i < |hl| && hl[i] == (e.target, e.source);
        assert k == LegKey(path, i);
      }
    }
  }

  /** Every leg of a path is counted either way. */
  lemma LegsAreEitherWayKeys(g: Graph, path: seq<Code>)
    requires Valid(g) && IsPath(g, path)
    ensures PathKeys(path) <= CountedKeys(EdgeView(g), EitherWay, Highlighted(path))
  {
    var view, hl := EdgeView(g), Highlighted(path);
    EdgeViewCovers(g);
    forall k | k in PathKeys(path)
      ensures k in CountedKeys(view, EitherWay, hl)
    {
      var i :| 0 <= i < |path| - 1 && k == LegKey(path, i);
      var e :| e in view && EdgeKey(e) == k;
      assert hl[i] == (path[i], path[i + 1]);
      PairKeyCases(e.source, e.target, path[i], path[i + 1]);
      assert Counts(EitherWay, hl, e);
    }
  }

  /** Counting both orientations counts exactly the legs of the path. */
  lemma EitherWayKeys(g: Graph, path: seq<Code>)
    requires Valid(g) && IsPath(g, path)
    ensures CountedKeys(EdgeView(g), EitherWay, Highlighted(path)) == PathKeys(path)
  {
    EitherWayKeysAreLegs(g, path);
    LegsAreEitherWayKeys(g, path);
  }

  /**
   * Counting an edge in either orientation, frame `num` shows the cost of the
   * path revealed so far; the last frame shows the cost of the whole path.
   */
  lemma EitherWayShowsPathCost(g: Graph, path: seq<Code>, num: nat)
    requires Valid(g) && IsPath(g, path) && Distinct(path)
    ensures IsPath(g, Revealed(path, num))
    ensures Shown(g, path, num, EitherWay) == PathCost(g, Revealed(path, num))
    ensures num == |path| - 1 ==> Shown(g, path, num, EitherWay) == PathCost(g, path)
  {
    var p := Revealed(path, num);
    assert IsPath(g, p) && Distinct(p) by {
      assert forall i :: 0 <= i < |p| ==> p[i] == path[i];
    }
    TotalIsSum(g, EitherWay, Highlighted(p));
    EitherWayKeys(g, p);
    SimplePathKeysSum(g, p);
    if num == |path| - 1 {
      assert p == path;
    }
  }

  /** An edge counted as drawn is counted either way. */
  lemma AsDrawnWithinEitherWay(g: Graph, hl: seq<(Code, Code)>)
    requires Valid(g) && NonNegative(g.weight)
    ensures CountedKeys(EdgeView(g), AsDrawn, hl) <= CountedKeys(EdgeView(g), EitherWay, hl)
    ensures SumCounted(EdgeView(g), AsDrawn, hl) <= SumCounted(EdgeView(g), EitherWay, hl)
  {
    TotalIsSum(g, AsDrawn, hl);
    TotalIsSum(g, EitherWay, hl);
    SumSetSubset(CountedKeys(EdgeView(g), AsDrawn, hl), CountedKeys(EdgeView(g), EitherWay, hl), g.weight);
  }

  /** main.py's total never exceeds the cost of the path's legs. */
  lemma AsDrawnAtMostPathCost(g: Graph, path: seq<Code>)
    requires Valid(g) && NonNegative(g.weight) && IsPath(g, path)
    ensures SumCounted(EdgeView(g), AsDrawn, Highlighted(path)) <= PathCost(g, path)
  {
    AsDrawnWithinEitherWay(g, Highlighted(path));
    TotalIsSum(g, EitherWay, Highlighted(path));
    EitherWayKeys(g, path);
    PathKeysSum(g, path);
  }

  /**
   * main.py's total is the path's cost when every leg is travelled in the
   * orientation `G.edges` reports it in.
   */
  lemma AsDrawnExactWhenStored(g: Graph, path: seq<Code>)
    requires Valid(g) && IsPath(g, path) && Distinct(path)
    requires forall i :: 0 <= i < |path| - 1 ==> Stored(g, path[i], path[i + 1])
    ensures SumCounted(EdgeView(g), AsDrawn, Highlighted(path)) == PathCost(g, path)
  {
    var hl := Highlighted(path);
    StoredLegsCountAsDrawn(g, path);
    TotalIsSum(g, AsDrawn, hl);
    TotalIsSum(g, EitherWay, hl);
    EitherWayKeys(g, path);
    SimplePathKeysSum(g, path);
  }

  /** When every leg runs in its reported orientation, both rules count the same edges. */
  lemma StoredLegsCountAsDrawn(g: Graph, path: seq<Code>)
    requires Valid(g)
    requires forall i :: 0 <= i < |path| - 1 ==> Stored(g, path[i], path[i + 1])
    ensures CountedKeys(EdgeView(g), AsDrawn, Highlighted(path)) == CountedKeys(EdgeView(g), EitherWay, Highlighted(path))
  {
    var view, hl := EdgeView(g), Highlighted(path);
    forall e | e in view && Counts(EitherWay, hl, e)
      ensures Counts(AsDrawn, hl, e)
    {
      if e.source != e.target {
        InEdgeView(g, e);
        StoredNotReversed(g, path, e.source, e.target);
      }
    }
  }

  /** A path whose legs all run in their reported orientation never travels a reported edge backwards. */
  lemma StoredNotReversed(g: Graph, path: seq<Code>, s: Code, t: Code)
    requires Distinct(g.nodes) && Stored(g, s, t) && s != t
    requires forall i :: 0 <= i < |path| - 1 ==> Stored(g, path[i], path[i + 1])
    ensures (t, s) !in Highlighted(path)
  {
    var hl := Highlighted(path);
    IdxOfDistinct(g.nodes);
    forall j | 0 <= j < |hl|
      ensures hl[j] != (t, s)
    {
      assert hl[j] == (path[j], path[j + 1]);
      assert Stored(g, path[j], path[j + 1]);
    }
  }

  /** A leg of a simple path travelled against its reported orientation is not counted as drawn. */
  lemma ReversedLegNotCounted(g: Graph, path: seq<Code>, i: nat)
    requires Valid(g) && Distinct(path)
    requires i < |path| - 1 && Stored(g, path[i + 1], path[i])
    ensures PairKey(path[i], path[i + 1]) !in CountedKeys(EdgeView(g), AsDrawn, Highlighted(path))
  {
    var view, hl := EdgeView(g), Highlighted(path);
    forall e | e in view && EdgeKey(e) == PairKey(path[i], path[i + 1])
      ensures !Counts(AsDrawn, hl, e)
    {
      ReversedEntryNotCounted(g, path, i, e);
    }
  }

  lemma ReversedEntryNotCounted(g: Graph, path: seq<Code>, i: nat, e: EdgeEntry)
    requires Distinct(g.nodes) && Distinct(path)
    requires i < |path| - 1 && Stored(g, path[i + 1], path[i])
    requires e in EdgeView(g) && EdgeKey(e) == PairKey(path[i], path[i + 1])
    ensures !Counts(AsDrawn, Highlighted(path), e)
  {
    assert e.source == path[i + 1] && e.target == path[i] by {
      InEdgeView(g, e);
      assert PairKey(path[i + 1], path[i]) == EdgeKey(e);
      StoredKeysEqual(g, e.source, e.target, path[i + 1], path[i]);
    }
    ReversedPairNotHighlighted(path, i);
  }

  /** A simple path never travels a leg back: no reversed leg is highlighted. */
  lemma ReversedPairNotHighlighted(path: seq<Code>, i: nat)
    requires Distinct(path) && i < |path| - 1
    ensures (path[i + 1], path[i]) !in Highlighted(path)
  {
    var hl := Highlighted(path);
    forall j | 0 <= j < |hl|
      ensures hl[j] != (path[i + 1], path[i])
    {
      assert hl[j] == (path[j], path[j + 1]);
    }
  }

  /**
   * The discrepancy in main.py's total: a leg of a simple path travelled
   * against the orientation `G.edges` reports is left out of the total, so
   * with a positive weight on that leg the total falls short of the path's cost.
   */
  lemma AsDrawnMissesReversedLeg(g: Graph, path: seq<Code>, i: nat)
    requires Valid(g) && NonNegative(g.weight) && IsPath(g, path) && Distinct(path)
    requires i < |path| - 1 && Stored(g, path[i + 1], path[i])
    requires g.weight[PairKey(path[i], path[i + 1])] > 0
    ensures SumCounted(EdgeView(g), AsDrawn, Highlighted(path)) < PathCost(g, path)
  {
    var view, hl := EdgeView(g), Highlighted(path);
    var k := PairKey(path[i], path[i + 1]);
    var drawn, either := CountedKeys(view, AsDrawn, hl), CountedKeys(view, EitherWay, hl);
    TotalIsSum(g, AsDrawn, hl);
    TotalIsSum(g, EitherWay, hl);
    EitherWayKeys(g, path);
    PathKeysSum(g, path);
    AsDrawnWithinEitherWay(g, hl);
    ReversedLegNotCounted(g, path, i);
    assert k == LegKey(path, i) && k in either;
    SumSetRemove(either, g.weight, k);
    SumSetSubset(drawn, either - {k}, g.weight);
  }

  /** When every leg is travelled against its reported orientation, main.py shows a total of 0. */
  lemma AsDrawnZeroWhenAllReversed(g: Graph, path: seq<Code>)
    requires Valid(g)
    requires forall i :: 0 <= i < |path| - 1 ==> !Stored(g, path[i], path[i + 1])
    ensures SumCounted(EdgeView(g), AsDrawn, Highlighted(path)) == 0
  {
    var view, hl := EdgeView(g), Highlighted(path);
    assert CountedKeys(view, AsDrawn, hl) == {} by {
      forall e | e in view
        ensures !Counts(AsDrawn, hl, e)
      {
        InEdgeView(g, e);
        forall j | 0 <= j < |hl|
          ensures hl[j] != (e.source, e.target)
        {
          assert hl[j] == (path[j], path[j + 1]);
        }
      }
    }
    TotalIsSum(g, AsDrawn, hl);
  }
}
