/** The cartesian product of the slot pools, in the two visiting orders of the optimizers. */
module Combinations {
  import opened Artifacts

  /** One artifact per slot, in slot order, each drawn from that slot's pool. */
  ghost predicate IsCombination(pools: Pools, c: seq<Artifact>)
  {
    |c| == |pools| && forall i :: 0 <= i < |c| ==> c[i] in pools[i]
  }

  /** The product of the pool sizes. */
  function Count(pools: Pools): nat
  {
    if pools == [] then 1 else |pools[0]| * Count(pools[1..])
  }

  /** Every tail in `ts`, with `prefix` in front of it. */
  function Extend(prefix: seq<Artifact>, ts: seq<seq<Artifact>>): seq<seq<Artifact>>
  {
    seq(|ts|, i requires 0 <= i < |ts| => prefix + ts[i])
  }

  /** The pairs of `heads` x `ts`, the head outermost: all of ts behind heads[0], then behind heads[1], ... */
  function PrependAll(heads: seq<Artifact>, ts: seq<seq<Artifact>>): seq<seq<Artifact>>
  {
    if heads == [] then [] else PrependAll(heads[..|heads| - 1], ts) + Extend([heads[|heads| - 1]], ts)
  }

  /** Depth-first order of the recursive optimizer: slot 0 outermost, the last slot varies fastest. */
  function DepthFirst(pools: Pools): seq<seq<Artifact>>
  {
    if pools == [] then [[]] else PrependAll(pools[0], DepthFirst(pools[1..]))
  }

  /** Every head in `heads` in front of the one tail `t`. */
  function Spread(heads: seq<Artifact>, t: seq<Artifact>): seq<seq<Artifact>>
  {
    seq(|heads|, i requires 0 <= i < |heads| => [heads[i]] + t)
  }

  /** The pairs of `heads` x `ts`, the head innermost: all of heads before ts[0], then before ts[1], ... */
  function SpreadAll(heads: seq<Artifact>, ts: seq<seq<Artifact>>): seq<seq<Artifact>>
  {
    if ts == [] then [] else SpreadAll(heads, ts[..|ts| - 1]) + Spread(heads, ts[|ts| - 1])
  }

  /** Odometer order of the iterative optimizer: slot 0 varies fastest, carries go towards the last slot. */
  function Odometer(pools: Pools): seq<seq<Artifact>>
  {
    if pools == [] then [[]] else SpreadAll(pools[0], Odometer(pools[1..]))
  }

  /** An index vector that addresses one artifact in every pool. */
  ghost predicate InBounds(pools: Pools, idx: seq<nat>)
  {
    |idx| == |pools| && forall i :: 0 <= i < |idx| ==> idx[i] < |pools[i]|
  }

  /** The combination an index vector addresses. */
  function Tuple(pools: Pools, idx: seq<nat>): seq<Artifact>
    requires |idx| == |pools| && forall i :: 0 <= i < |idx| ==> idx[i] < |pools[i]|
  {
    seq(|pools|, i requires 0 <= i < |pools| => pools[i][idx[i]])
  }

  /** The value of the index vector read as a mixed-radix number, slot 0 the least significant digit. */
  function Rank(pools: Pools, idx: seq<nat>): nat
    requires |idx| == |pools|
  {
    if pools == [] then 0 else idx[0] + |pools[0]| * Rank(pools[1..], idx[1..])
  }

  /** The same with the last slot the least significant digit. */
  function DepthFirstRank(pools: Pools, idx: seq<nat>): nat
    requires |idx| == |pools|
  {
    if pools == [] then 0 else idx[0] * Count(pools[1..]) + DepthFirstRank(pools[1..], idx[1..])
  }

  /** Every pool is non-empty exactly when the product is. */
  lemma {:induction false} CountPositive(pools: Pools)
    ensures Count(pools) > 0 <==> forall i :: 0 <= i < |pools| ==> pools[i] != []
    decreases |pools|
  {
    if pools != [] {
      CountPositive(pools[1..]);
      if Count(pools) > 0 {
        forall i | 0 <= i < |pools| ensures pools[i] != [] {
          if i > 0 { assert pools[i] == pools[1..][i - 1]; }
        }
      }
      if forall i :: 0 <= i < |pools| ==> pools[i] != [] {
        assert forall i :: 0 <= i < |pools| - 1 ==> pools[1..][i] == pools[i + 1];
      }
    }
  }

  lemma {:induction false} PrependAllLength(heads: seq<Artifact>, ts: seq<seq<Artifact>>)
    ensures |PrependAll(heads, ts)| == |heads| * |ts|
    decreases |heads|
  {
    if heads != [] {
      PrependAllLength(heads[..|heads| - 1], ts);
      assert |heads| * |ts| == (|heads| - 1) * |ts| + |ts|;
    }
  }

  lemma {:induction false} SpreadAllLength(heads: seq<Artifact>, ts: seq<seq<Artifact>>)
    ensures |SpreadAll(heads, ts)| == |ts| * |heads|
    decreases |ts|
  {
    if ts != [] {
      SpreadAllLength(heads, ts[..|ts| - 1]);
      assert |ts| * |heads| == (|ts| - 1) * |heads| + |heads|;
    }
  }

  /** The recursive optimizer reaches exactly the product of the pool sizes many leaves. */
  lemma {:induction false} DepthFirstLength(pools: Pools)
    ensures |DepthFirst(pools)| == Count(pools)
    decreases |pools|
  {
    if pools != [] {
      DepthFirstLength(pools[1..]);
      PrependAllLength(pools[0], DepthFirst(pools[1..]));
    }
  }

  /** The iterative optimizer's loop runs exactly the product of the pool sizes many times. */
  lemma {:induction false} OdometerLength(pools: Pools)
    ensures |Odometer(pools)| == Count(pools)
    decreases |pools|
  {
    if pools != [] {
      OdometerLength(pools[1..]);
      SpreadAllLength(pools[0], Odometer(pools[1..]));
    }
  }

  lemma {:induction false} PrependAllMembers(heads: seq<Artifact>, ts: seq<seq<Artifact>>, c: seq<Artifact>)
    ensures c in PrependAll(heads, ts) <==> |c| > 0 && c[0] in heads && c[1..] in ts
    decreases |heads|
  {
    if heads != [] {
      var init, last := heads[..|heads| - 1], heads[|heads| - 1];
      PrependAllMembers(init, ts, c);
      assert c in Extend([last], ts) <==> |c| > 0 && c[0] == last && c[1..] in ts by {
        if c in Extend([last], ts) {
          var j :| 0 <= j < |ts| && Extend([last], ts)[j] == c;
          assert c[1..] == ts[j];
        }
        if |c| > 0 && c[0] == last && c[1..] in ts {
          var j :| 0 <= j < |ts| && ts[j] == c[1..];
          assert Extend([last], ts)[j] == c;
        }
      }
      assert |c| > 0 ==> (c[0] in heads <==> c[0] in init || c[0] == last) by {
        assert heads == init + [last];
      }
    }
  }

  lemma {:induction false} SpreadAllMembers(heads: seq<Artifact>, ts: seq<seq<Artifact>>, c: seq<Artifact>)
    ensures c in SpreadAll(heads, ts) <==> |c| > 0 && c[0] in heads && c[1..] in ts
    decreases |ts|
  {
    if ts != [] {
      var init, last := ts[..|ts| - 1], ts[|ts| - 1];
      SpreadAllMembers(heads, init, c);
      assert c in Spread(heads, last) <==> |c| > 0 && c[0] in heads && c[1..] == last by {
        if c in Spread(heads, last) {
          var j :| 0 <= j < |heads| && Spread(heads, last)[j] == c;
          assert c[1..] == last;
        }
        if |c| > 0 && c[0] in heads && c[1..] == last {
          var j :| 0 <= j < |heads| && heads[j] == c[0];
          assert Spread(heads, last)[j] == c;
        }
      }
      assert |c| > 0 ==> (c[1..] in ts <==> c[1..] in init || c[1..] == last) by {
        assert ts == init + [last];
      }
    }
  }

  lemma IsCombinationCons(pools: Pools, c: seq<Artifact>)
    requires pools != []
    ensures IsCombination(pools, c) <==> |c| > 0 && c[0] in pools[0] && IsCombination(pools[1..], c[1..])
  {
    if |c| > 0 && c[0] in pools[0] && IsCombination(pools[1..], c[1..]) {
      forall i | 0 <= i < |c| ensures c[i] in pools[i] {
        if i > 0 { assert c[i] == c[1..][i - 1]; }
      }
    }
  }

  /** The depth-first order holds every combination of the product and nothing else. */
  lemma {:induction false} DepthFirstMembers(pools: Pools, c: seq<Artifact>)
    ensures c in DepthFirst(pools) <==> IsCombination(pools, c)
    decreases |pools|
  {
    if pools == [] {
    } else {
      PrependAllMembers(pools[0], DepthFirst(pools[1..]), c);
      IsCombinationCons(pools, c);
      if |c| > 0 {
        DepthFirstMembers(pools[1..], c[1..]);
      }
    }
  }

  /** The odometer order holds every combination of the product and nothing else. */
  lemma {:induction false} OdometerMembers(pools: Pools, c: seq<Artifact>)
    ensures c in Odometer(pools) <==> IsCombination(pools, c)
    decreases |pools|
  {
    if pools == [] {
    } else {
      SpreadAllMembers(pools[0], Odometer(pools[1..]), c);
      IsCombinationCons(pools, c);
      if |c| > 0 {
        OdometerMembers(pools[1..], c[1..]);
      }
    }
  }

  /** A mixed-radix number with digit d < m and higher part r < c is below m * c. */
  lemma DigitBound(m: nat, d: nat, r: nat, c: nat)
    requires d < m && r < c
    ensures d + m * r < m * c
  {
    var k := c - r - 1;
    assert m * c == m * r + m * (k + 1) by {
      assert c == r + (k + 1);
    }
    assert m * (k + 1) == m * k + m;
  }

  /** Mixed-radix digits are unique. */
  lemma DigitsUnique(m: nat, x: nat, r0: nat, y: nat, r1: nat)
    requires x < m && y < m
    requires x + m * r0 == y + m * r1
    ensures x == y && r0 == r1
  {
    if r0 < r1 {
      DigitBound(m, x, r0, r1);
    } else if r1 < r0 {
      DigitBound(m, y, r1, r0);
    }
  }

  lemma TupleCons(pools: Pools, idx: seq<nat>)
    requires pools != [] && InBounds(pools, idx)
    ensures InBounds(pools[1..], idx[1..])
    ensures Tuple(pools, idx) == [pools[0][idx[0]]] + Tuple(pools[1..], idx[1..])
  {
    assert forall i :: 0 <= i < |idx| - 1 ==> idx[1..][i] == idx[i + 1] && pools[1..][i] == pools[i + 1];
  }

  /** A rank addresses a position inside the product. */
  lemma {:induction false} RankBound(pools: Pools, idx: seq<nat>)
    requires InBounds(pools, idx)
    ensures Rank(pools, idx) < Count(pools)
    decreases |pools|
  {
    if pools != [] {
      TupleCons(pools, idx);
      RankBound(pools[1..], idx[1..]);
      DigitBound(|pools[0]|, idx[0], Rank(pools[1..], idx[1..]), Count(pools[1..]));
    }
  }

  lemma {:induction false} SpreadAllAt(heads: seq<Artifact>, ts: seq<seq<Artifact>>, q: nat, i: nat)
    requires q < |ts| && i < |heads|
    ensures q * |heads| + i < |SpreadAll(heads, ts)|
    ensures SpreadAll(heads, ts)[q * |heads| + i] == [heads[i]] + ts[q]
    decreases |ts|
  {
    SpreadAllLength(heads, ts);
    var init, m := ts[..|ts| - 1], |heads|;
    SpreadAllLength(heads, init);
    if q < |ts| - 1 {
      SpreadAllAt(heads, init, q, i);
    } else {
      assert q * m == (|ts| - 1) * m;
    }
    assert (q + 1) * m <= |ts| * m;
  }

  lemma {:induction false} PrependAllAt(heads: seq<Artifact>, ts: seq<seq<Artifact>>, q: nat, j: nat)
    requires q < |heads| && j < |ts|
    ensures q * |ts| + j < |PrependAll(heads, ts)|
    ensures PrependAll(heads, ts)[q * |ts| + j] == [heads[q]] + ts[j]
    decreases |heads|
  {
    PrependAllLength(heads, ts);
    var init, m := heads[..|heads| - 1], |ts|;
    PrependAllLength(init, ts);
    if q < |heads| - 1 {
      PrependAllAt(init, ts, q, j);
    } else {
      assert q * m == (|heads| - 1) * m;
    }
    assert (q + 1) * m <= |heads| * m;
  }

  /** The odometer order visits the combination of an index vector at position Rank:
      slot 0 varies fastest. */
  lemma {:induction false} OdometerAt(pools: Pools, idx: seq<nat>)
    requires InBounds(pools, idx)
    ensures Rank(pools, idx) < |Odometer(pools)|
    ensures Odometer(pools)[Rank(pools, idx)] == Tuple(pools, idx)
    decreases |pools|
  {
    if pools != [] {
      TupleCons(pools, idx);
      OdometerAt(pools[1..], idx[1..]);
      var r := Rank(pools[1..], idx[1..]);
      assert Rank(pools, idx) == r * |pools[0]| + idx[0];
      SpreadAllAt(pools[0], Odometer(pools[1..]), r, idx[0]);
    }
  }

  /** The depth-first order visits the combination of an index vector at position
      DepthFirstRank: the last slot varies fastest. */
  lemma {:induction false} DepthFirstAt(pools: Pools, idx: seq<nat>)
    requires InBounds(pools, idx)
    ensures DepthFirstRank(pools, idx) < |DepthFirst(pools)|
    ensures DepthFirst(pools)[DepthFirstRank(pools, idx)] == Tuple(pools, idx)
    decreases |pools|
  {
    if pools != [] {
      TupleCons(pools, idx);
      DepthFirstAt(pools[1..], idx[1..]);
      DepthFirstLength(pools[1..]);
      PrependAllAt(pools[0], DepthFirst(pools[1..]), idx[0], DepthFirstRank(pools[1..], idx[1..]));
    }
  }

  /** The all-zero index vector, where the odometer starts and ends, has rank 0. */
  lemma {:induction false} RankZero(pools: Pools, idx: seq<nat>)
    requires |idx| == |pools|
    requires forall j :: 0 <= j < |idx| ==> idx[j] == 0
    ensures Rank(pools, idx) == 0
    decreases |pools|
  {
    if pools != [] {
      RankZero(pools[1..], idx[1..]);
    }
  }

  /** One step of the carry loop adds one to the rank: digits below `slot` were at
      their maximum and wrap to 0, digit `slot` goes up by one, the rest stay. */
  lemma {:induction false} RankIncrement(pools: Pools, before: seq<nat>, after: seq<nat>, slot: nat)
    requires |before| == |pools| && |after| == |pools| && slot < |pools|
    requires forall j :: 0 <= j < slot ==> before[j] + 1 == |pools[j]| && after[j] == 0
    requires after[slot] == before[slot] + 1
    requires forall j :: slot < j < |pools| ==> after[j] == before[j]
    ensures Rank(pools, after) == Rank(pools, before) + 1
    decreases slot
  {
    var rest := pools[1..];
    if slot == 0 {
      assert after[1..] == before[1..];
    } else {
      RankIncrement(rest, before[1..], after[1..], slot - 1);
      var m, r := |pools[0]|, Rank(rest, before[1..]);
      assert m * (r + 1) == m * r + m;
    }
  }

  /** When every digit is at its maximum the rank is the last position of the product. */
  lemma {:induction false} RankLast(pools: Pools, idx: seq<nat>)
    requires |idx| == |pools|
    requires forall j :: 0 <= j < |pools| ==> idx[j] + 1 == |pools[j]|
    ensures Rank(pools, idx) + 1 == Count(pools)
    decreases |pools|
  {
    if pools != [] {
      RankLast(pools[1..], idx[1..]);
      var m, r := |pools[0]|, Rank(pools[1..], idx[1..]);
      assert m * (r + 1) == m * r + m;
    }
  }

  /** Distinct index vectors have distinct ranks. */
  lemma {:induction false} RankInjective(pools: Pools, a: seq<nat>, b: seq<nat>)
    requires InBounds(pools, a) && InBounds(pools, b)
    requires Rank(pools, a) == Rank(pools, b)
    ensures a == b
    decreases |pools|
  {
    if pools != [] {
      TupleCons(pools, a);
      TupleCons(pools, b);
      DigitsUnique(|pools[0]|, a[0], Rank(pools[1..], a[1..]), b[0], Rank(pools[1..], b[1..]));
      RankInjective(pools[1..], a[1..], b[1..]);
      assert a == [a[0]] + a[1..] && b == [b[0]] + b[1..];
    }
  }
}
