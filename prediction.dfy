/**
 * The two classifier predictions of model.cc over the scores of the output
 * rows (the MatrixDowRow of each row with the hidden layer): PredictCls,
 * the first row of the largest score, and PredictClsScore, every label with
 * its normalised score, ranked by a stable sort.
 */
module Prediction {
  import opened Sorting
  import opened TrainerSpec

  /**
   * PredictCls: the first index whose score is the largest, as found by a
   * scan with strict `>` from MIN_SCORE, or -1 when no score exceeds
   * MIN_SCORE.
   */
  method PredictCls(scores: seq<real>) returns (best: int)
    ensures best == -1 <==> forall i :: 0 <= i < |scores| ==> scores[i] <= MIN_SCORE
    ensures best != -1 ==> 0 <= best < |scores| && scores[best] > MIN_SCORE
    ensures best != -1 ==> forall i :: 0 <= i < |scores| ==> scores[i] <= scores[best]
    ensures best != -1 ==> forall i :: 0 <= i < best ==> scores[i] < scores[best]
  {
    var maxScore := MIN_SCORE;
    best := -1;
    var i := 0;
    while i < |scores|
      invariant 0 <= i <= |scores|
      invariant best == -1 ==> maxScore == MIN_SCORE && forall k :: 0 <= k < i ==> scores[k] <= MIN_SCORE
      invariant best != -1 ==> 0 <= best < i && maxScore == scores[best] > MIN_SCORE
      invariant best != -1 ==> forall k :: 0 <= k < i ==> scores[k] <= maxScore
      invariant best != -1 ==> forall k :: 0 <= k < best ==> scores[k] < maxScore
    {
      if scores[i] > maxScore {
        maxScore := scores[i];
        best := i;
      }
      i := i + 1;
    }
  }

  // ---------------------------------------------------------------------
  // PredictClsScore

  /** The score of a (label, score) pair, the key of the ranking. */
  function ScoreOf(p: (int, real)): real
  {
    p.1
  }

  /** The label of a (label, score) pair. */
  function LabelOf(p: (int, real)): int
  {
    p.0
  }

  /** `max_score` after the first loop: the first score, then the larger of it and each next one. */
  function MaxScore(scores: seq<real>): (m: real)
    requires |scores| > 0
    ensures m in scores && forall i :: 0 <= i < |scores| ==> scores[i] <= m
  {
    if |scores| == 1 then scores[0]
    else
      var prev := MaxScore(scores[..|scores| - 1]);
      var last := scores[|scores| - 1];
      assert forall i :: 0 <= i < |scores| - 1 ==> scores[i] == scores[..|scores| - 1][i];
      if prev >= last then prev else last
  }

  /** The sum of the weights, accumulated from the left. */
  function Sum(w: seq<real>): real
  {
    if w == [] then 0.0 else Sum(w[..|w| - 1]) + w[|w| - 1]
  }

  /** The pairs the first loop pushes: label `i` with score `i`. */
  function Indexed(scores: seq<real>): (r: seq<(int, real)>)
    ensures |r| == |scores| && forall i :: 0 <= i < |r| ==> r[i] == (i, scores[i])
  {
    seq(|scores|, i requires 0 <= i < |scores| => (i, scores[i]))
  }

  /** `expf(score - max_score)` for each pair. `expf` stands for `exp` in single precision. */
  function Exps(p: seq<(int, real)>, maxScore: real, expf: real -> real): (w: seq<real>)
    ensures |w| == |p| && forall k :: 0 <= k < |p| ==> w[k] == expf(p[k].1 - maxScore)
  {
    seq(|p|, k requires 0 <= k < |p| => expf(p[k].1 - maxScore))
  }

  /** Each pair with its score replaced by the weight at its position. */
  function Reweighed(p: seq<(int, real)>, w: seq<real>): (r: seq<(int, real)>)
    requires |w| == |p|
    ensures |r| == |p| && forall k :: 0 <= k < |p| ==> r[k] == (p[k].0, w[k])
  {
    seq(|p|, k requires 0 <= k < |p| => (p[k].0, w[k]))
  }

  /** Each score divided by `total` when it is positive; the pairs unchanged otherwise. */
  function Shared(p: seq<(int, real)>, total: real): (r: seq<(int, real)>)
    ensures |r| == |p| && forall k :: 0 <= k < |p| ==> r[k].0 == p[k].0
    ensures total > 0.0 ==> forall k :: 0 <= k < |p| ==> r[k].1 == p[k].1 / total
    ensures total <= 0.0 ==> r == p
  {
    if total > 0.0 then seq(|p|, k requires 0 <= k < |p| => (p[k].0, p[k].1 / total)) else p
  }

  /**
   * The pairs after the normalisation loops: label `i` with
   * `expf(score_i - max_score)`, divided by the sum of those weights when
   * the sum is positive.
   */
  function Normalised(scores: seq<real>, expf: real -> real): (r: seq<(int, real)>)
    ensures |r| == |scores| && forall i :: 0 <= i < |r| ==> r[i].0 == i
  {
    if scores == [] then []
    else
      var p := Indexed(scores);
      var w := Exps(p, MaxScore(scores), expf);
      Shared(Reweighed(p, w), Sum(w))
  }

  /**
   * PredictClsScore: every label with its normalised score, stable-sorted
   * by non-increasing score.
   */
  method PredictClsScore(scores: seq<real>, expf: real -> real) returns (predict: seq<(int, real)>)
    ensures predict == SortDesc(Normalised(scores, expf), ScoreOf)
  {
    var maxScore;
    predict, maxScore := ScorePairs(scores);
    if |scores| == 0 {
      return [];
    }
    var sum;
    predict, sum := Exponentiate(predict, maxScore, expf);
    if sum > 0.0 {
      predict := DivideScores(predict, sum);
    }
    predict := SortDesc(predict, ScoreOf);
  }

  /** The first loop of PredictClsScore: the pairs in label order and the largest score. */
  method ScorePairs(scores: seq<real>) returns (predict: seq<(int, real)>, maxScore: real)
    ensures predict == Indexed(scores)
    ensures |scores| > 0 ==> maxScore == MaxScore(scores)
  {
    predict := [];
    maxScore := MIN_SCORE;
    var i := 0;
    while i < |scores|
      invariant 0 <= i <= |scores| && predict == Indexed(scores[..i])
      invariant i > 0 ==> maxScore == MaxScore(scores[..i])
    {
      assert scores[..i + 1][..i] == scores[..i];
      predict := predict + [(i, scores[i])];
      maxScore := if i == 0 then scores[i] else Max(maxScore, scores[i]);
      i := i + 1;
    }
    assert scores[..i] == scores;
  }

  /** The second loop: each score replaced by its weight, and the weights summed. */
  method Exponentiate(p: seq<(int, real)>, maxScore: real, expf: real -> real) returns (predict: seq<(int, real)>, sum: real)
    ensures predict == Reweighed(p, Exps(p, maxScore, expf)) && sum == Sum(Exps(p, maxScore, expf))
  {
    ghost var w := Exps(p, maxScore, expf);
    predict := p;
    sum := 0.0;
    var i := 0;
    while i < |predict|
      invariant 0 <= i <= |predict| == |p|
      invariant forall k :: 0 <= k < |p| ==> predict[k] == (p[k].0, if k < i then w[k] else p[k].1)
      invariant sum == Sum(w[..i])
    {
      assert w[..i + 1][..i] == w[..i];
      predict := predict[i := (predict[i].0, expf(predict[i].1 - maxScore))];
      sum := sum + predict[i].1;
      i := i + 1;
    }
    assert w[..i] == w;
  }

  /** The third loop: each score divided by the positive sum. */
  method DivideScores(p: seq<(int, real)>, sum: real) returns (predict: seq<(int, real)>)
    requires sum > 0.0
    ensures predict == Shared(p, sum)
  {
    predict := p;
    var i := 0;
    while i < |predict|
      invariant 0 <= i <= |predict| == |p|
      invariant forall k :: 0 <= k < |p| ==> predict[k] == (p[k].0, if k < i then p[k].1 / sum else p[k].1)
    {
      predict := predict[i := (predict[i].0, predict[i].1 / sum)];
      i := i + 1;
    }
  }

  function Max(a: real, b: real): real
  {
    if a >= b then a else b
  }

  /**
   * The ranking holds every label of the output layer exactly once, each
   * with its own normalised score, in non-increasing order of score.
   */
  lemma RankedLabels(scores: seq<real>, expf: real -> real)
    ensures var p := SortDesc(Normalised(scores, expf), ScoreOf);
      |p| == |scores| && SortedDesc(p, ScoreOf) && InjectiveOn(p, LabelOf) &&
      forall k :: 0 <= k < |p| ==> 0 <= p[k].0 < |scores| && p[k] == Normalised(scores, expf)[p[k].0]
  {
    RankedPairs(Normalised(scores, expf));
  }

  /** The same for any pairs labelled by their positions. */
  lemma RankedPairs(n: seq<(int, real)>)
    requires forall i :: 0 <= i < |n| ==> n[i].0 == i
    ensures var p := SortDesc(n, ScoreOf);
      |p| == |n| && SortedDesc(p, ScoreOf) && InjectiveOn(p, LabelOf) &&
      forall k :: 0 <= k < |p| ==> 0 <= p[k].0 < |n| && p[k] == n[p[k].0]
  {
    var p := SortDesc(n, ScoreOf);
    SortDescLength(n, ScoreOf);
    SortDescSorted(n, ScoreOf);
    assert InjectiveOn(n, LabelOf);
    SortDescInjective(n, ScoreOf, LabelOf);
    SortDescPermutation(n, ScoreOf);
    forall k | 0 <= k < |p|
      ensures 0 <= p[k].0 < |n| && p[k] == n[p[k].0]
    {
      assert p[k] in multiset(p);
      assert p[k] in multiset(n);
      var i :| 0 <= i < |n| && n[i] == p[k];
    }
  }

  /** Labels of equal score keep the order of the labels: the ranking is stable. */
  lemma RankedStable(scores: seq<real>, expf: real -> real, score: real)
    ensures WithKey(SortDesc(Normalised(scores, expf), ScoreOf), ScoreOf, score) == WithKey(Normalised(scores, expf), ScoreOf, score)
  {
    SortDescStable(Normalised(scores, expf), ScoreOf, score);
  }
}
