/** The scoring function shared by both optimizers (evaluateCombination). */
module Scoring {
  import opened Artifacts

  /** Weight of a substat key: atk counts once, critRate_ twice, critDMG_ one
      and a half times, every other key not at all. */
  function Weight(key: string): real
  {
    if key == "atk" then 1.0
    else if key == "critRate_" then 2.0
    else if key == "critDMG_" then 1.5
    else 0.0
  }

  function Contribution(s: Substat): real
  {
    Weight(s.key) * s.value
  }

  /** Sum of the contributions of `ss`, accumulated from the front. */
  function SubstatsScore(ss: seq<Substat>): real
  {
    if ss == [] then 0.0 else SubstatsScore(ss[..|ss| - 1]) + Contribution(ss[|ss| - 1])
  }

  function ArtifactScore(a: Artifact): real
  {
    SubstatsScore(a.substats)
  }

  /** Score of a combination: the sum over its artifacts, in order. */
  function Score(combination: seq<Artifact>): real
  {
    if combination == [] then 0.0
    else Score(combination[..|combination| - 1]) + ArtifactScore(combination[|combination| - 1])
  }

  /** Sum of the values of the substats in `ss` whose key is `key`. */
  function KeyTotal(ss: seq<Substat>, key: string): real
  {
    if ss == [] then 0.0
    else KeyTotal(ss[1..], key) + (if ss[0].key == key then ss[0].value else 0.0)
  }

  /** Sum of the values under `key` over every artifact of a combination. */
  function CombinationKeyTotal(combination: seq<Artifact>, key: string): real
  {
    if combination == [] then 0.0
    else KeyTotal(combination[0].substats, key) + CombinationKeyTotal(combination[1..], key)
  }

  lemma {:induction false} SubstatsScoreCons(s: Substat, ss: seq<Substat>)
    ensures SubstatsScore([s] + ss) == Contribution(s) + SubstatsScore(ss)
    decreases |ss|
  {
    if ss != [] {
      var init := ss[..|ss| - 1];
      assert ([s] + ss)[..|ss|] == [s] + init;
      SubstatsScoreCons(s, init);
    }
  }

  /** The per-artifact score is the weighted sum of the three recognised keys. */
  lemma {:induction false} SubstatsScoreByKey(ss: seq<Substat>)
    ensures SubstatsScore(ss)
         == KeyTotal(ss, "atk") + 2.0 * KeyTotal(ss, "critRate_") + 1.5 * KeyTotal(ss, "critDMG_")
    decreases |ss|
  {
    if ss != [] {
      SubstatsScoreByKey(ss[1..]);
      SubstatsScoreCons(ss[0], ss[1..]);
      assert [ss[0]] + ss[1..] == ss;
    }
  }

  /** Scores add up over concatenation: splitting a combination does not change its score. */
  lemma {:induction false} ScoreAppend(xs: seq<Artifact>, ys: seq<Artifact>)
    ensures Score(xs + ys) == Score(xs) + Score(ys)
    decreases |ys|
  {
    if ys == [] {
      assert xs + ys == xs;
    } else {
      var init := ys[..|ys| - 1];
      assert (xs + ys)[..|xs + ys| - 1] == xs + init;
      ScoreAppend(xs, init);
    }
  }

  /** The score of a combination headed by `a`. */
  lemma ScoreCons(a: Artifact, t: seq<Artifact>)
    ensures Score([a] + t) == ArtifactScore(a) + Score(t)
  {
    ScoreAppend([a], t);
    assert [a][..0] == [];
  }

  /** The score is the sum, over every artifact and every substat, of
      weight(key) * value, with atk = 1, critRate_ = 2, critDMG_ = 3/2 and 0 otherwise. */
  lemma {:induction false} ScoreByKey(combination: seq<Artifact>)
    ensures Score(combination)
         == CombinationKeyTotal(combination, "atk")
          + 2.0 * CombinationKeyTotal(combination, "critRate_")
          + 1.5 * CombinationKeyTotal(combination, "critDMG_")
    decreases |combination|
  {
    if combination != [] {
      ScoreByKey(combination[1..]);
      SubstatsScoreByKey(combination[0].substats);
      ScoreCons(combination[0], combination[1..]);
      assert [combination[0]] + combination[1..] == combination;
    }
  }

  /** Five single-stat artifacts score 200. */
  lemma ScoreExample()
    ensures Score([
      Artifact("s", "flower", 5, 20, "hp", [Substat("atk", 100.0)]),
      Artifact("s", "plume", 5, 20, "atk", [Substat("critRate_", 10.0)]),
      Artifact("s", "sands", 5, 20, "atk_", [Substat("critDMG_", 20.0)]),
      Artifact("s", "goblet", 5, 20, "pyro", [Substat("atk", 50.0)]),
      Artifact("s", "circlet", 5, 20, "critRate_", [Substat("atk", 0.0)])]) == 200.0
  {
    var c := [
      Artifact("s", "flower", 5, 20, "hp", [Substat("atk", 100.0)]),
      Artifact("s", "plume", 5, 20, "atk", [Substat("critRate_", 10.0)]),
      Artifact("s", "sands", 5, 20, "atk_", [Substat("critDMG_", 20.0)]),
      Artifact("s", "goblet", 5, 20, "pyro", [Substat("atk", 50.0)]),
      Artifact("s", "circlet", 5, 20, "critRate_", [Substat("atk", 0.0)])];
    ScoreByKey(c);
    assert CombinationKeyTotal(c, "atk") == 150.0;
    assert CombinationKeyTotal(c, "critRate_") == 10.0;
    assert CombinationKeyTotal(c, "critDMG_") == 20.0;
  }

  /** evaluateCombination: the nested accumulation loop. */
  method EvaluateCombination(combination: seq<Artifact>) returns (score: real)
    ensures score == Score(combination)
  {
    score := 0.0;
    for i := 0 to |combination|
      invariant score == Score(combination[..i])
    {
      var substats := combination[i].substats;
      ghost var before := score;
      for j := 0 to |substats|
        invariant score == before + SubstatsScore(substats[..j])
      {
        var substat := substats[j];
        assert substats[..j + 1][..j] == substats[..j];
        if substat.key == "atk" {
          score := score + substat.value;
        } else if substat.key == "critRate_" {
          score := score + substat.value * 2.0;
        } else if substat.key == "critDMG_" {
          score := score + substat.value * 1.5;
        }
      }
      assert substats[..|substats|] == substats;
      assert combination[..i + 1][..i] == combination[..i];
    }
    assert combination[..|combination|] == combination;
  }
}
