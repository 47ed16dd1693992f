/** The predictive-covariance cache protocol of a sum operator. The cache is
    built child by child, pairing each child with the matching child of a
    test-train sum, and the root term adds up what every child makes of its
    own cache entry. Cache entries are opaque: a child's cache builder and
    its cache consumer are parameters. Pairing follows Python's `zip`, which
    stops at the shortest of its arguments. */
module PredictiveCache {
  import opened Common
  import opened Tensors
  import opened SumOperators

  /** `zip(children, tests)` mapped through the child's cache builder. */
  function ZipBuild<Op, C>(children: seq<Op>, trainInvRoot: Vec, tests: seq<Op>,
                           childBuild: (Op, Vec, Op) -> C): (cache: seq<C>)
    ensures |cache| == Min(|children|, |tests|)
    ensures forall k :: 0 <= k < |cache| ==>
      cache[k] == childBuild(children[k], trainInvRoot, tests[k])
  {
    if |children| == 0 || |tests| == 0 then []
    else [childBuild(children[0], trainInvRoot, tests[0])]
         + ZipBuild(children[1..], trainInvRoot, tests[1..], childBuild)
  }

  /** `_exact_predictive_covar_inv_quad_form_cache`: one cache entry per
      pair of a child and the matching test-train child, all built from the
      same training inverse root. */
  function BuildCache<Op, C>(s: SumOperator<Op>, trainInvRoot: Vec, test: SumOperator<Op>,
                             childBuild: (Op, Vec, Op) -> C): (cache: seq<C>)
    ensures |cache| == Min(|s.children|, |test.children|)
    ensures forall k :: 0 <= k < |cache| ==>
      cache[k] == childBuild(s.children[k], trainInvRoot, test.children[k])
  {
    ZipBuild(s.children, trainInvRoot, test.children, childBuild)
  }

  /** `zip(children, cache, tests)` mapped through the child's cache consumer. */
  function ZipRoots<Op, C>(children: seq<Op>, cache: seq<C>, tests: seq<Op>,
                           childRoot: (Op, C, Op) -> Vec): (vs: seq<Vec>)
    ensures |vs| == Min(Min(|children|, |cache|), |tests|)
    ensures forall k :: 0 <= k < |vs| ==>
      vs[k] == childRoot(children[k], cache[k], tests[k])
  {
    if |children| == 0 || |cache| == 0 || |tests| == 0 then []
    else [childRoot(children[0], cache[0], tests[0])]
         + ZipRoots(children[1..], cache[1..], tests[1..], childRoot)
  }

  /** `_exact_predictive_covar_inv_quad_form_root`: the sum of every child's
      root term for its own cache entry and test-train child. */
  function ApplyCache<Op, C>(s: SumOperator<Op>, cache: seq<C>, test: SumOperator<Op>,
                             childRoot: (Op, C, Op) -> Vec): (r: Result<Tensor>)
    ensures IsSumOf(ZipRoots(s.children, cache, test.children, childRoot), r)
  {
    SumVecsIsSumOf(ZipRoots(s.children, cache, test.children, childRoot));
    SumVecs(ZipRoots(s.children, cache, test.children, childRoot))
  }

  /** Building the cache and applying it adds up, child by child, what each
      child computes from its own cache: the cache lines up with the
      children it was built for. */
  lemma CachePairing<Op, C>(s: SumOperator<Op>, trainInvRoot: Vec, test: SumOperator<Op>,
                            childBuild: (Op, Vec, Op) -> C, childRoot: (Op, C, Op) -> Vec)
    ensures var n := Min(|s.children|, |test.children|);
      IsSumOf(seq(n, k requires 0 <= k < n =>
                childRoot(s.children[k], childBuild(s.children[k], trainInvRoot, test.children[k]), test.children[k])),
              ApplyCache(s, BuildCache(s, trainInvRoot, test, childBuild), test, childRoot))
  {
    var n := Min(|s.children|, |test.children|);
    var cache := BuildCache(s, trainInvRoot, test, childBuild);
    var vs := ZipRoots(s.children, cache, test.children, childRoot);
    assert vs == seq(n, k requires 0 <= k < n =>
      childRoot(s.children[k], childBuild(s.children[k], trainInvRoot, test.children[k]), test.children[k]));
  }

  /** The cache of a sum of sums is the two caches one after the other, when
      the test-train sums are joined the same way. */
  lemma CacheOfAddedSums<Op, C>(s: SumOperator<Op>, t: SumOperator<Op>, trainInvRoot: Vec,
                                ts: SumOperator<Op>, tt: SumOperator<Op>, childBuild: (Op, Vec, Op) -> C)
    requires |ts.children| == |s.children|
    ensures Add(s, SumAddend(t)).Success? && Add(ts, SumAddend(tt)).Success?
    ensures BuildCache(Add(s, SumAddend(t)).value, trainInvRoot, Add(ts, SumAddend(tt)).value, childBuild)
         == BuildCache(s, trainInvRoot, ts, childBuild) + BuildCache(t, trainInvRoot, tt, childBuild)
  {
    ZipBuildAppend(s.children, t.children, trainInvRoot, ts.children, tt.children, childBuild);
  }

  lemma {:induction false} ZipBuildAppend<Op, C>(xs: seq<Op>, ys: seq<Op>, trainInvRoot: Vec,
                                               txs: seq<Op>, tys: seq<Op>, childBuild: (Op, Vec, Op) -> C)
    requires |txs| == |xs|
    ensures ZipBuild(xs + ys, trainInvRoot, txs + tys, childBuild)
         == ZipBuild(xs, trainInvRoot, txs, childBuild) + ZipBuild(ys, trainInvRoot, tys, childBuild)
  {
    if |xs| == 0 {
      assert xs + ys == ys && txs + tys == tys;
    } else {
      ZipBuildAppend(xs[1..], ys, trainInvRoot, txs[1..], tys, childBuild);
      DropFirstOfAppend(xs, ys);
      DropFirstOfAppend(txs, tys);
    }
  }

  /** The root term of a sum of sums is the sum of the two root terms, when
      cache and test-train sums are joined the same way. */
  lemma RootOfAddedSums<Op, C>(s: SumOperator<Op>, t: SumOperator<Op>, cs: seq<C>, ct: seq<C>,
                               ts: SumOperator<Op>, tt: SumOperator<Op>, childRoot: (Op, C, Op) -> Vec)
    requires |cs| == |s.children| && |ts.children| == |s.children|
    ensures Add(s, SumAddend(t)).Success? && Add(ts, SumAddend(tt)).Success?
    ensures ApplyCache(Add(s, SumAddend(t)).value, cs + ct, Add(ts, SumAddend(tt)).value, childRoot)
         == PlusResults(ApplyCache(s, cs, ts, childRoot), ApplyCache(t, ct, tt, childRoot))
  {
    ZipRootsAppend(s.children, t.children, cs, ct, ts.children, tt.children, childRoot);
    SumVecsAppend(ZipRoots(s.children, cs, ts.children, childRoot), ZipRoots(t.children, ct, tt.children, childRoot));
  }

  lemma {:induction false} ZipRootsAppend<Op, C>(xs: seq<Op>, ys: seq<Op>, cs: seq<C>, ct: seq<C>,
                                               txs: seq<Op>, tys: seq<Op>, childRoot: (Op, C, Op) -> Vec)
    requires |cs| == |xs| && |txs| == |xs|
    ensures ZipRoots(xs + ys, cs + ct, txs + tys, childRoot)
         == ZipRoots(xs, cs, txs, childRoot) + ZipRoots(ys, ct, tys, childRoot)
  {
    if |xs| == 0 {
      assert xs + ys == ys && cs + ct == ct && txs + tys == tys;
    } else {
      ZipRootsAppend(xs[1..], ys, cs[1..], ct, txs[1..], tys, childRoot);
      DropFirstOfAppend(xs, ys);
      DropFirstOfAppend(cs, ct);
      DropFirstOfAppend(txs, tys);
    }
  }

  /** The head of `a + b` is the head of `a`, and its tail is the tail of
      `a` followed by `b`. */
  lemma DropFirstOfAppend<T>(a: seq<T>, b: seq<T>)
    requires 0 < |a|
    ensures (a + b)[0] == a[0] && (a + b)[1..] == a[1..] + b
  {
  }
}
