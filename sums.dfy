/** Sums of integer weights over finite sets of keys, independent of any order. */
module Sums {

  /** A fixed element of a non-empty set; every use of the same set picks the same one. */
  ghost function Pick<K>(s: set<K>): (k: K)
    requires s != {}
    ensures k in s
  {
    var k :| k in s; k
  }

  /** The sum of `w[k]` over the keys `k` of `s`. */
  ghost function SumSet<K>(s: set<K>, w: map<K, int>): int
    requires s <= w.Keys
    decreases s
  {
    if s == {} then 0 else var k := Pick(s); w[k] + SumSet(s - {k}, w)
  }

  ghost predicate NonNegative<K>(w: map<K, int>)
  {
    forall k :: k in w ==> w[k] >= 0
  }

  /** Any key may be taken out first: the sum does not depend on the order of summation. */
  lemma {:induction false} SumSetRemove<K>(s: set<K>, w: map<K, int>, k: K)
    requires s <= w.Keys && k in s
    ensures SumSet(s, w) == w[k] + SumSet(s - {k}, w)
    decreases s
  {
    var p := Pick(s);
    if p != k {
      SumSetRemove(s - {p}, w, k);
      SumSetRemove(s - {k}, w, p);
      assert s - {p} - {k} == s - {k} - {p};
    }
  }

  lemma {:induction false} SumSetNonNegative<K>(s: set<K>, w: map<K, int>)
    requires s <= w.Keys && NonNegative(w)
    ensures SumSet(s, w) >= 0
    decreases s
  {
    if s != {} {
      SumSetNonNegative(s - {Pick(s)}, w);
    }
  }

  /** With non-negative weights, a smaller set of keys never sums to more. */
  lemma {:induction false} SumSetSubset<K>(s: set<K>, t: set<K>, w: map<K, int>)
    requires s <= t <= w.Keys && NonNegative(w)
    ensures SumSet(s, w) <= SumSet(t, w)
    decreases s
  {
    if s == {} {
      SumSetNonNegative(t, w);
    } else {
      var k := Pick(s);
      SumSetRemove(t, w, k);
      SumSetSubset(s - {k}, t - {k}, w);
    }
  }
}
