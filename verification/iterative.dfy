/** optimizeIterative: an odometer over an index vector, slot 0 the fastest digit. */
module IterativeOptimizer {
  import opened Wrappers
  import opened Artifacts
  import opened Scoring
  import opened BestSoFar
  import opened Combinations
  import opened Equivalence

  /** Every index vector in `visited` is in bounds and the k-th has rank k: the vectors
      come in the order of the odometer, slot 0 varying fastest. */
  ghost predicate RanksInOrder(pools: Pools, visited: seq<seq<nat>>)
  {
    forall k :: 0 <= k < |visited| ==> InBounds(pools, visited[k]) && Rank(pools, visited[k]) == k
  }

  lemma RanksInOrderSnoc(pools: Pools, visited: seq<seq<nat>>, idx: seq<nat>)
    requires RanksInOrder(pools, visited)
    requires InBounds(pools, idx) && Rank(pools, idx) == |visited|
    ensures RanksInOrder(pools, visited + [idx])
  {
  }

  /** optimizeIterative: the best combination, or the empty one when some pool is empty.
      `visited` is the index vector of every combination scored, in order: each lies in
      bounds and the k-th has rank k, so the loop steps through the ranks 0, 1, ... of
      the product with slot 0 varying fastest. */
  method OptimizeIterative(pools: Pools) returns (bestCombination: seq<Artifact>, ghost visited: seq<seq<nat>>)
    ensures bestCombination == Scan(Initial, Odometer(pools)).combination
    ensures (exists i :: 0 <= i < |pools| && pools[i] == []) ==> bestCombination == [] && visited == []
    ensures (forall i :: 0 <= i < |pools| ==> pools[i] != []) ==>
              |visited| == Count(pools)
              && RanksInOrder(pools, visited)
    ensures (forall i :: 0 <= i < |pools| ==> pools[i] != []) ==>
              IsCombination(pools, bestCombination)
              && forall c :: IsCombination(pools, c) ==> Score(c) <= Score(bestCombination)
  {
    bestCombination := [];
    var bestScore: Option<real> := None;
    var numSlots := |pools|;
    var indices := new nat[numSlots](_ => 0);
    visited := [];

    for s := 0 to numSlots
      invariant forall j :: 0 <= j < s ==> pools[j] != []
    {
      if pools[s] == [] {
        assert Odometer(pools) == [] by {
          CountPositive(pools);
          OdometerLength(pools);
        }
        return;
      }
    }

    RankZero(pools, indices[..]);
    ghost var order := Odometer(pools);
    OdometerLength(pools);
    assert Count(pools) > 0 by {
      CountPositive(pools);
    }
    // The source loops with `while (true)` and leaves by `break` once the carry runs
    // off the last slot; `done` records that exit.
    var done := false;
    while !done
      invariant indices.Length == numSlots
      invariant |order| == Count(pools) && |visited| <= Count(pools)
      invariant !done ==> InBounds(pools, indices[..]) && Rank(pools, indices[..]) == |visited| < Count(pools)
      invariant done ==> |visited| == Count(pools)
      invariant RanksInOrder(pools, visited)
      invariant Best(bestScore, bestCombination) == Scan(Initial, order[..|visited|])
      decreases Count(pools) - |visited|
    {
      bestScore, bestCombination := Visit(pools, indices, bestScore, bestCombination);
      assert Best(bestScore, bestCombination) == Scan(Initial, order[..|visited| + 1]) by {
        OdometerAt(pools, indices[..]);
        ScanStep(order, |visited|);
      }
      RanksInOrderSnoc(pools, visited, indices[..]);
      visited := visited + [indices[..]];

      var slot := Advance(pools, indices);
      done := slot == numSlots;
      if !done {
        RankBound(pools, indices[..]);
      }
    }
    assert order[..|visited|] == order;
    OdometerBestIsOptimal(pools);
  }

  /** One pass of the loop body of optimizeIterative before the carry: builds the
      combination the index vector addresses, scores it, and keeps it as the best only if
      its score is strictly greater. */
  method Visit(pools: Pools, indices: array<nat>, bestScore: Option<real>, bestCombination: seq<Artifact>)
    returns (newScore: Option<real>, newCombination: seq<Artifact>)
    requires InBounds(pools, indices[..])
    ensures Best(newScore, newCombination) == Offer(Best(bestScore, bestCombination), Tuple(pools, indices[..]))
  {
    var currentCombination := [];
    for i := 0 to indices.Length
      invariant |currentCombination| == i
      invariant forall j :: 0 <= j < i ==> currentCombination[j] == pools[j][indices[j]]
    {
      currentCombination := currentCombination + [pools[i][indices[i]]];
    }
    assert currentCombination == Tuple(pools, indices[..]);

    var score := EvaluateCombination(currentCombination);
    newScore, newCombination := bestScore, bestCombination;
    if bestScore.None? || score > bestScore.value {
      newScore := Some(score);
      newCombination := currentCombination;
    }
  }

  /** The carry loop of optimizeIterative: adds one to the index vector read as a mixed-radix
      number with slot 0 the least significant digit. It returns the slot the carry stopped
      at; |pools| means the carry ran off the last slot, the vector was the last one of the
      product and is back at all zeros. */
  method Advance(pools: Pools, indices: array<nat>) returns (slot: nat)
    requires InBounds(pools, indices[..])
    modifies indices
    ensures InBounds(pools, indices[..])
    ensures slot <= |pools|
    ensures slot < |pools| ==> Rank(pools, indices[..]) == Rank(pools, old(indices[..])) + 1
    ensures slot == |pools| ==> Rank(pools, old(indices[..])) + 1 == Count(pools)
    ensures slot == |pools| ==> forall j :: 0 <= j < indices.Length ==> indices[j] == 0
  {
    ghost var before := indices[..];
    slot := 0;
    while slot < indices.Length
      invariant 0 <= slot <= indices.Length
      invariant forall j :: 0 <= j < slot ==> indices[j] == 0 && before[j] + 1 == |pools[j]|
      invariant forall j :: slot <= j < indices.Length ==> indices[j] == before[j]
    {
      indices[slot] := indices[slot] + 1;
      if indices[slot] < |pools[slot]| {
        RankIncrement(pools, before, indices[..], slot);
        return;
      }
      indices[slot] := 0;
      slot := slot + 1;
    }
    RankLast(pools, before);
  }

  /** Each in-bounds index vector is visited exactly once: at the position of its rank. */
  lemma VisitsEachOnce(pools: Pools, visited: seq<seq<nat>>, idx: seq<nat>)
    requires |visited| == Count(pools)
    requires RanksInOrder(pools, visited)
    requires InBounds(pools, idx)
    ensures Rank(pools, idx) < |visited| && visited[Rank(pools, idx)] == idx
    ensures forall k :: 0 <= k < |visited| && visited[k] == idx ==> k == Rank(pools, idx)
  {
    RankBound(pools, idx);
    RankInjective(pools, visited[Rank(pools, idx)], idx);
  }
}
