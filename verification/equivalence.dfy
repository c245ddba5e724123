/** Why the two optimizers agree: the score adds up slot by slot, so in both visiting
    orders the first maximum is the combination made of every pool's first best artifact. */
module Equivalence {
  import opened Wrappers
  import opened Artifacts
  import opened Scoring
  import opened BestSoFar
  import opened Combinations

  function PoolScores(pool: seq<Artifact>): (r: seq<real>)
    ensures |r| == |pool|
  {
    seq(|pool|, i requires 0 <= i < |pool| => ArtifactScore(pool[i]))
  }

  /** The first artifact of a non-empty pool with the largest artifact score. */
  function FirstBest(pool: seq<Artifact>): Artifact
    requires |pool| > 0
  {
    pool[FirstMax(PoolScores(pool))]
  }

  /** The per-slot choice: every pool's first best artifact, in slot order. */
  function Greedy(pools: Pools): seq<Artifact>
    requires forall i :: 0 <= i < |pools| ==> pools[i] != []
  {
    seq(|pools|, i requires 0 <= i < |pools| => FirstBest(pools[i]))
  }

  /** A best whose combination gains the head `a`, and whose score gains a's score. */
  function Shift(a: Artifact, b: Best): Best
    requires b.score.Some?
  {
    Best(Some(ArtifactScore(a) + b.score.value), [a] + b.combination)
  }

  lemma {:induction false} ScanExtend(a: Artifact, ts: seq<seq<Artifact>>)
    requires |ts| > 0
    ensures Scan(Initial, ts).score.Some?
    ensures Scan(Initial, Extend([a], ts)) == Shift(a, Scan(Initial, ts))
    decreases |ts|
  {
    var init, t := ts[..|ts| - 1], ts[|ts| - 1];
    ScoreCons(a, t);
    if |init| > 0 {
      ScanExtend(a, init);
      assert Extend([a], ts)[..|ts| - 1] == Extend([a], init);
    }
  }

  lemma FirstBestStep(heads: seq<Artifact>)
    requires |heads| > 1
    ensures FirstBest(heads)
         == (var init, h := heads[..|heads| - 1], heads[|heads| - 1];
             if ArtifactScore(h) > ArtifactScore(FirstBest(init)) then h else FirstBest(init))
  {
    assert PoolScores(heads)[..|heads| - 1] == PoolScores(heads[..|heads| - 1]);
  }

  lemma {:induction false} ScanPrependAll(heads: seq<Artifact>, ts: seq<seq<Artifact>>)
    requires |heads| > 0 && |ts| > 0
    ensures Scan(Initial, ts).score.Some?
    ensures Scan(Initial, PrependAll(heads, ts)) == Shift(FirstBest(heads), Scan(Initial, ts))
    decreases |heads|
  {
    var init, h := heads[..|heads| - 1], heads[|heads| - 1];
    ScanExtend(h, ts);
    if |init| == 0 {
      assert PrependAll(heads, ts) == Extend([h], ts);
    } else {
      ScanPrependAll(init, ts);
      ScanConcat(PrependAll(init, ts), Extend([h], ts));
      FirstBestStep(heads);
    }
  }

  lemma {:induction false} ScanSpread(heads: seq<Artifact>, t: seq<Artifact>)
    requires |heads| > 0
    ensures Scan(Initial, Spread(heads, t)) == Shift(FirstBest(heads), Best(Some(Score(t)), t))
    decreases |heads|
  {
    var init, h := heads[..|heads| - 1], heads[|heads| - 1];
    ScoreCons(h, t);
    if |init| > 0 {
      ScanSpread(init, t);
      assert Spread(heads, t)[..|heads| - 1] == Spread(init, t);
      FirstBestStep(heads);
    }
  }

  lemma {:induction false} ScanSpreadAll(heads: seq<Artifact>, ts: seq<seq<Artifact>>)
    requires |heads| > 0 && |ts| > 0
    ensures Scan(Initial, ts).score.Some?
    ensures Scan(Initial, SpreadAll(heads, ts)) == Shift(FirstBest(heads), Scan(Initial, ts))
    decreases |ts|
  {
    var init, t := ts[..|ts| - 1], ts[|ts| - 1];
    ScanSpread(heads, t);
    if |init| == 0 {
      assert SpreadAll(heads, ts) == Spread(heads, t);
    } else {
      ScanSpreadAll(heads, init);
      ScanConcat(SpreadAll(heads, init), Spread(heads, t));
    }
  }

  lemma GreedyCons(pools: Pools)
    requires pools != [] && forall i :: 0 <= i < |pools| ==> pools[i] != []
    ensures forall i :: 0 <= i < |pools| - 1 ==> pools[1..][i] != []
    ensures Greedy(pools) == [FirstBest(pools[0])] + Greedy(pools[1..])
  {
    assert forall i :: 0 <= i < |pools| - 1 ==> pools[1..][i] == pools[i + 1];
  }

  /** The recursive optimizer's best-so-far ends as the per-slot choice. */
  lemma {:induction false} DepthFirstPicksGreedy(pools: Pools)
    requires forall i :: 0 <= i < |pools| ==> pools[i] != []
    ensures Scan(Initial, DepthFirst(pools)) == Best(Some(Score(Greedy(pools))), Greedy(pools))
    decreases |pools|
  {
    if pools == [] {
      var none: seq<seq<Artifact>> := [[]];
      assert none[..0] == [];
      assert Greedy(pools) == [];
    } else {
      var rest := pools[1..];
      GreedyCons(pools);
      DepthFirstPicksGreedy(rest);
      assert |DepthFirst(rest)| > 0 by {
        CountPositive(rest);
        DepthFirstLength(rest);
      }
      assert DepthFirst(pools) == PrependAll(pools[0], DepthFirst(rest));
      ScanPrependAll(pools[0], DepthFirst(rest));
      var fb, g := FirstBest(pools[0]), Greedy(rest);
      ScoreCons(fb, g);
      assert Scan(Initial, DepthFirst(pools)) == Shift(fb, Best(Some(Score(g)), g));
      assert Greedy(pools) == [fb] + g;
      assert Score(Greedy(pools)) == ArtifactScore(fb) + Score(g);
    }
  }

  /** The iterative optimizer's best-so-far ends as the per-slot choice. */
  lemma {:induction false} OdometerPicksGreedy(pools: Pools)
    requires forall i :: 0 <= i < |pools| ==> pools[i] != []
    ensures Scan(Initial, Odometer(pools)) == Best(Some(Score(Greedy(pools))), Greedy(pools))
    decreases |pools|
  {
    if pools == [] {
      var none: seq<seq<Artifact>> := [[]];
      assert none[..0] == [];
      assert Greedy(pools) == [];
    } else {
      var rest := pools[1..];
      GreedyCons(pools);
      OdometerPicksGreedy(rest);
      assert |Odometer(rest)| > 0 by {
        CountPositive(rest);
        OdometerLength(rest);
      }
      assert Odometer(pools) == SpreadAll(pools[0], Odometer(rest));
      ScanSpreadAll(pools[0], Odometer(rest));
      var fb, g := FirstBest(pools[0]), Greedy(rest);
      ScoreCons(fb, g);
      assert Scan(Initial, Odometer(pools)) == Shift(fb, Best(Some(Score(g)), g));
      assert Greedy(pools) == [fb] + g;
      assert Score(Greedy(pools)) == ArtifactScore(fb) + Score(g);
    }
  }

  /** Both visiting orders end with the same best score and the same best combination,
      ties included; with an empty pool both end with no best at all. */
  lemma StrategiesAgree(pools: Pools)
    ensures Scan(Initial, DepthFirst(pools)) == Scan(Initial, Odometer(pools))
    ensures (exists i :: 0 <= i < |pools| && pools[i] == []) ==> Scan(Initial, Odometer(pools)) == Initial
  {
    CountPositive(pools);
    if forall i :: 0 <= i < |pools| ==> pools[i] != [] {
      DepthFirstPicksGreedy(pools);
      OdometerPicksGreedy(pools);
    } else {
      DepthFirstLength(pools);
      OdometerLength(pools);
    }
  }

  /** With every pool non-empty the recursive optimizer's result is a combination of the
      product and no combination of the product scores higher. */
  lemma DepthFirstBestIsOptimal(pools: Pools)
    requires forall i :: 0 <= i < |pools| ==> pools[i] != []
    ensures IsCombination(pools, Scan(Initial, DepthFirst(pools)).combination)
    ensures forall c :: IsCombination(pools, c) ==> Score(c) <= Score(Scan(Initial, DepthFirst(pools)).combination)
  {
    var best := Scan(Initial, DepthFirst(pools)).combination;
    CountPositive(pools);
    DepthFirstLength(pools);
    ScanOptimal(DepthFirst(pools));
    DepthFirstMembers(pools, best);
    forall c | IsCombination(pools, c)
      ensures Score(c) <= Score(best)
    {
      DepthFirstMembers(pools, c);
    }
  }

  /** The same for the iterative optimizer. */
  lemma OdometerBestIsOptimal(pools: Pools)
    requires forall i :: 0 <= i < |pools| ==> pools[i] != []
    ensures IsCombination(pools, Scan(Initial, Odometer(pools)).combination)
    ensures forall c :: IsCombination(pools, c) ==> Score(c) <= Score(Scan(Initial, Odometer(pools)).combination)
  {
    var best := Scan(Initial, Odometer(pools)).combination;
    CountPositive(pools);
    OdometerLength(pools);
    ScanOptimal(Odometer(pools));
    OdometerMembers(pools, best);
    forall c | IsCombination(pools, c)
      ensures Score(c) <= Score(best)
    {
      OdometerMembers(pools, c);
    }
  }

  lemma OneSlot(u: Artifact, v: Artifact)
    ensures DepthFirst([[u, v]]) == [[u], [v]]
    ensures Odometer([[u, v]]) == [[u], [v]]
  {
    var none: seq<seq<Artifact>> := [[]];
    assert [[u, v]][1..] == [];
    assert DepthFirst([[u, v]]) == PrependAll([u, v], none);
    assert Odometer([[u, v]]) == SpreadAll([u, v], none);
    assert PrependAll([u, v], none) == [[u], [v]] by {
      assert [u, v][..1] == [u] && [u][..0] == [];
      assert Extend([u], none)[0] == [u] + [] == [u];
      assert Extend([v], none)[0] == [v] + [] == [v];
      assert PrependAll([u], none) == [] + Extend([u], none);
    }
    assert SpreadAll([u, v], none) == [[u], [v]] by {
      assert none[..0] == [];
      assert Spread([u, v], [])[0] == [u] + [] == [u];
      assert Spread([u, v], [])[1] == [v] + [] == [v];
    }
  }

  /** The visiting orders themselves differ: on two slots of two artifacts each the
      recursion varies the last slot fastest, the odometer the first. */
  lemma VisitingOrders(x: Artifact, y: Artifact, u: Artifact, v: Artifact)
    ensures DepthFirst([[x, y], [u, v]]) == [[x, u], [x, v], [y, u], [y, v]]
    ensures Odometer([[x, y], [u, v]]) == [[x, u], [y, u], [x, v], [y, v]]
    ensures x != y ==> DepthFirst([[x, y], [u, v]]) != Odometer([[x, y], [u, v]])
  {
    var tails: seq<seq<Artifact>> := [[u], [v]];
    assert [[x, y], [u, v]][1..] == [[u, v]];
    OneSlot(u, v);
    assert DepthFirst([[x, y], [u, v]]) == PrependAll([x, y], tails);
    assert Odometer([[x, y], [u, v]]) == SpreadAll([x, y], tails);
    assert PrependAll([x, y], tails) == [[x, u], [x, v], [y, u], [y, v]] by {
      assert [x, y][..1] == [x] && [x][..0] == [];
      assert Extend([x], tails) == [[x, u], [x, v]] by {
        assert Extend([x], tails)[0] == [x] + [u] == [x, u];
        assert Extend([x], tails)[1] == [x] + [v] == [x, v];
      }
      assert Extend([y], tails) == [[y, u], [y, v]] by {
        assert Extend([y], tails)[0] == [y] + [u] == [y, u];
        assert Extend([y], tails)[1] == [y] + [v] == [y, v];
      }
      assert PrependAll([x], tails) == [] + Extend([x], tails);
    }
    assert SpreadAll([x, y], tails) == [[x, u], [y, u], [x, v], [y, v]] by {
      assert tails[..1] == [[u]] && [[u]][..0] == [];
      assert Spread([x, y], [u]) == [[x, u], [y, u]] by {
        assert Spread([x, y], [u])[0] == [x] + [u] == [x, u];
        assert Spread([x, y], [u])[1] == [y] + [u] == [y, u];
      }
      assert Spread([x, y], [v]) == [[x, v], [y, v]] by {
        assert Spread([x, y], [v])[0] == [x] + [v] == [x, v];
        assert Spread([x, y], [v])[1] == [y] + [v] == [y, v];
      }
      assert SpreadAll([x, y], [[u]]) == [] + Spread([x, y], [u]);
    }
    if x != y {
      assert DepthFirst([[x, y], [u, v]])[1][0] == x;
      assert Odometer([[x, y], [u, v]])[1][0] == y;
    }
  }
}
