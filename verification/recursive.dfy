/** optimizeRecursive: depth-first enumeration with a shared scratch combination. */
module RecursiveOptimizer {
  import opened Wrappers
  import opened Artifacts
  import opened Scoring
  import opened BestSoFar
  import opened Combinations
  import opened Equivalence

  /** The state optimizeRecursiveHelper shares by reference across its calls: the scratch
      vector currentCombination and the in-out pair bestScore / bestCombination. */
  class Search {
    var currentCombination: seq<Artifact>
    var bestScore: Option<real>
    var bestCombination: seq<Artifact>
    /** How many leaves have been scored so far. */
    ghost var leaves: nat

    function State(): Best
      reads this
    {
      Best(bestScore, bestCombination)
    }

    /** Empty scratch vector, no best yet (score negative infinity, empty combination). */
    constructor ()
      ensures currentCombination == [] && State() == Initial && leaves == 0
    {
      currentCombination := [];
      bestScore := None;
      bestCombination := [];
      leaves := 0;
    }

    /** optimizeRecursiveHelper at `depth`: scores every completion of the scratch
        combination by the pools from `depth` on, in depth-first order, and leaves the
        scratch combination as it found it. */
    method Helper(pools: Pools, depth: nat)
      requires depth <= |pools|
      requires |currentCombination| == depth
      requires forall i :: 0 <= i < depth ==> currentCombination[i] in pools[i]
      modifies this
      decreases |pools| - depth
      ensures currentCombination == old(currentCombination)
      ensures leaves == old(leaves) + |DepthFirst(pools[depth..])|
      ensures State() == Scan(old(State()), Extend(old(currentCombination), DepthFirst(pools[depth..])))
    {
      if depth == |pools| {
        assert IsCombination(pools, currentCombination);
        var score := EvaluateCombination(currentCombination);
        if bestScore.None? || score > bestScore.value {
          bestScore := Some(score);
          bestCombination := currentCombination;
        }
        leaves := leaves + 1;
        assert pools[depth..] == [];
        LeafOrder(currentCombination);
        return;
      }

      ghost var prefix, start, before := currentCombination, State(), leaves;
      ghost var pool := pools[depth];
      ghost var tails := DepthFirst(pools[depth + 1..]);
      assert DepthFirst(pools[depth..]) == PrependAll(pool, tails) by {
        assert pools[depth..][1..] == pools[depth + 1..];
      }

      ghost var done: seq<seq<Artifact>> := [];
      for k := 0 to |pools[depth]|
        invariant currentCombination == prefix
        invariant done == Extend(prefix, PrependAll(pool[..k], tails))
        invariant leaves == before + |done|
        invariant State() == Scan(start, done)
      {
        var artifact := pools[depth][k];
        currentCombination := currentCombination + [artifact];
        Helper(pools, depth + 1);
        currentCombination := currentCombination[..|currentCombination| - 1];
        ghost var block := Extend(prefix + [artifact], tails);
        assert done + block == Extend(prefix, PrependAll(pool[..k + 1], tails)) by {
          ExtendStep(prefix, pool, k, tails);
        }
        assert State() == Scan(start, done + block) by {
          ScanAppend(start, done, block);
        }
        done := done + block;
      }
      assert pool[..|pool|] == pool;
    }
  }

  /** A scratch combination with no slot left to fill is itself the one leaf. */
  lemma LeafOrder(c: seq<Artifact>)
    ensures Extend(c, DepthFirst([])) == [c]
  {
    assert Extend(c, [[]])[0] == c + [] == c;
  }

  /** Scoring the completions after head k is the next block of the depth-first order. */
  lemma ExtendStep(prefix: seq<Artifact>, pool: seq<Artifact>, k: nat, tails: seq<seq<Artifact>>)
    requires k < |pool|
    ensures Extend(prefix, PrependAll(pool[..k + 1], tails))
         == Extend(prefix, PrependAll(pool[..k], tails)) + Extend(prefix + [pool[k]], tails)
  {
    assert pool[..k + 1][..k] == pool[..k];
    var xs, ys := PrependAll(pool[..k], tails), Extend([pool[k]], tails);
    assert PrependAll(pool[..k + 1], tails) == xs + ys;
    assert Extend(prefix, xs + ys) == Extend(prefix, xs) + Extend(prefix + [pool[k]], tails) by {
      forall i | 0 <= i < |tails|
        ensures prefix + ys[i] == (prefix + [pool[k]]) + tails[i]
      {
        assert ys[i] == [pool[k]] + tails[i];
      }
    }
  }

  /** optimizeRecursive: the best combination, or the empty one when some pool is empty.
      `leaves` counts the combinations scored: one per element of the product. */
  method OptimizeRecursive(pools: Pools) returns (bestCombination: seq<Artifact>, ghost leaves: nat)
    ensures leaves == Count(pools)
    ensures bestCombination == Scan(Initial, DepthFirst(pools)).combination
    ensures (exists i :: 0 <= i < |pools| && pools[i] == []) ==> bestCombination == [] && leaves == 0
    ensures (forall i :: 0 <= i < |pools| ==> pools[i] != []) ==>
              IsCombination(pools, bestCombination)
              && forall c :: IsCombination(pools, c) ==> Score(c) <= Score(bestCombination)
  {
    var search := new Search();
    search.Helper(pools, 0);
    bestCombination := search.bestCombination;
    leaves := search.leaves;
    assert pools[0..] == pools;
    assert Extend([], DepthFirst(pools)) == DepthFirst(pools) by {
      forall i | 0 <= i < |DepthFirst(pools)|
        ensures Extend([], DepthFirst(pools))[i] == DepthFirst(pools)[i]
      {
        assert [] + DepthFirst(pools)[i] == DepthFirst(pools)[i];
      }
    }
    DepthFirstLength(pools);
    CountPositive(pools);
    if forall i :: 0 <= i < |pools| ==> pools[i] != [] {
      DepthFirstBestIsOptimal(pools);
    }
  }
}
