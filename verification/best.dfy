/** The best-so-far pair (bestScore, bestCombination) and its strictly-greater update rule,
    shared by both optimizers. */
module BestSoFar {
  import opened Wrappers
  import opened Artifacts
  import opened Scoring

  /** bestScore and bestCombination. A `None` score stands for the initial
      negative infinity: every real score is strictly greater than it. */
  datatype Best = Best(score: Option<real>, combination: seq<Artifact>)

  /** The state before any combination is scored. */
  const Initial := Best(None, [])

  /** True when `s` is strictly greater than the best score of `b`. */
  predicate Beats(s: real, b: Best)
  {
    b.score.None? || s > b.score.value
  }

  /** Scoring one combination `c` and keeping it only if its score is strictly greater. */
  function Offer(b: Best, c: seq<Artifact>): (r: Best)
    ensures r.score.Some? && r.score.value >= Score(c)
    ensures b.score.Some? ==> r.score.value >= b.score.value
    ensures r == b || r == Best(Some(Score(c)), c)
    ensures b.score.Some? && Score(c) <= b.score.value ==> r == b
  {
    if Beats(Score(c), b) then Best(Some(Score(c)), c) else b
  }

  /** The best-so-far after scoring `cs` one by one, in order, starting from `b`. */
  function Scan(b: Best, cs: seq<seq<Artifact>>): Best
  {
    if cs == [] then b else Offer(Scan(b, cs[..|cs| - 1]), cs[|cs| - 1])
  }

  /** Merging the best of an earlier run `b1` with the best of a later run `b2`:
      the later one wins only with a strictly greater score. */
  function Join(b1: Best, b2: Best): Best
  {
    if b2.score.Some? && Beats(b2.score.value, b1) then b2 else b1
  }

  /** The scores of a sequence of combinations. */
  function Scores(cs: seq<seq<Artifact>>): (r: seq<real>)
    ensures |r| == |cs|
  {
    seq(|cs|, i requires 0 <= i < |cs| => Score(cs[i]))
  }

  /** Position of the first maximum of `xs`. */
  function FirstMax(xs: seq<real>): (k: nat)
    requires |xs| > 0
    ensures k < |xs|
    ensures forall j :: 0 <= j < |xs| ==> xs[j] <= xs[k]
    ensures forall j :: 0 <= j < k ==> xs[j] < xs[k]
  {
    if |xs| == 1 then 0
    else
      var k := FirstMax(xs[..|xs| - 1]);
      if xs[|xs| - 1] > xs[k] then |xs| - 1 else k
  }

  /** Scoring `xs` then `ys` is scoring `xs + ys`. */
  lemma {:induction false} ScanAppend(b: Best, xs: seq<seq<Artifact>>, ys: seq<seq<Artifact>>)
    ensures Scan(b, xs + ys) == Scan(Scan(b, xs), ys)
    decreases |ys|
  {
    if ys == [] {
      assert xs + ys == xs;
    } else {
      var init := ys[..|ys| - 1];
      assert (xs + ys)[..|xs + ys| - 1] == xs + init;
      ScanAppend(b, xs, init);
    }
  }

  /** Scoring one more combination of `cs`. */
  lemma ScanStep(cs: seq<seq<Artifact>>, k: nat)
    requires k < |cs|
    ensures Scan(Initial, cs[..k + 1]) == Offer(Scan(Initial, cs[..k]), cs[k])
  {
    assert cs[..k + 1][..k] == cs[..k];
  }

  /** bestScore never decreases, and once set it stays set. */
  lemma {:induction false} ScanMonotone(b: Best, cs: seq<seq<Artifact>>)
    requires b.score.Some?
    ensures Scan(b, cs).score.Some? && Scan(b, cs).score.value >= b.score.value
    decreases |cs|
  {
    if cs != [] {
      ScanMonotone(b, cs[..|cs| - 1]);
    }
  }

  /** Starting from an earlier best `b` is the same as scanning from scratch and
      then merging with `b`. */
  lemma {:induction false} ScanFrom(b: Best, cs: seq<seq<Artifact>>)
    ensures Scan(b, cs) == Join(b, Scan(Initial, cs))
    decreases |cs|
  {
    if cs != [] {
      ScanFrom(b, cs[..|cs| - 1]);
    }
  }

  /** The best of a concatenation is the merge of the bests of its parts. */
  lemma ScanConcat(xs: seq<seq<Artifact>>, ys: seq<seq<Artifact>>)
    ensures Scan(Initial, xs + ys) == Join(Scan(Initial, xs), Scan(Initial, ys))
  {
    ScanAppend(Initial, xs, ys);
    ScanFrom(Scan(Initial, xs), ys);
  }

  /** With the strictly-greater rule the first maximum in visiting order is kept:
      the result is cs[k], k the first position of the largest score. */
  lemma {:induction false} ScanFirstMax(cs: seq<seq<Artifact>>)
    requires |cs| > 0
    ensures Scan(Initial, cs) == Best(Some(Score(cs[FirstMax(Scores(cs))])), cs[FirstMax(Scores(cs))])
    decreases |cs|
  {
    if |cs| > 1 {
      var init := cs[..|cs| - 1];
      assert Scores(cs)[..|cs| - 1] == Scores(init);
      ScanFirstMax(init);
    }
  }

  /** The result of a non-empty run is one of the scored combinations, its score is
      recorded with it, and no scored combination has a greater score. */
  lemma ScanOptimal(cs: seq<seq<Artifact>>)
    requires |cs| > 0
    ensures Scan(Initial, cs).combination in cs
    ensures Scan(Initial, cs).score == Some(Score(Scan(Initial, cs).combination))
    ensures forall c :: c in cs ==> Score(c) <= Score(Scan(Initial, cs).combination)
  {
    ScanFirstMax(cs);
    var k := FirstMax(Scores(cs));
    forall c | c in cs
      ensures Score(c) <= Score(cs[k])
    {
      var j :| 0 <= j < |cs| && cs[j] == c;
      assert Scores(cs)[j] <= Scores(cs)[k];
    }
  }
}
