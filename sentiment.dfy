/** sentimentsScores: four scores per article from an external scorer, and
    a label derived from the compound score. The scorer is a parameter
    `score`; its internals are not modelled. */
module Sentiment {
  import opened Records

  /** The label of a compound score; both thresholds are inclusive. */
  function Classify(compound: real): (polarity: Label)
    ensures polarity == Positive <==> compound >= 0.05
    ensures polarity == Negative <==> compound <= -0.05
    ensures polarity == Neutral <==> -0.05 < compound < 0.05
  {
    if compound >= 0.05 then Positive
    else if compound <= -0.05 then Negative
    else Neutral
  }

  /** The boundary cases: exactly ±0.05 take the outer label, 0 is neutral. */
  lemma ThresholdExamples()
    ensures Classify(0.05) == Positive
    ensures Classify(-0.05) == Negative
    ensures Classify(0.0) == Neutral
  {
  }

  /** The annotated batch: one row per article, same order, each with the
      scores of its own body text. */
  function AnnotateAll(batch: seq<Article>, score: string -> Scores): (rows: seq<Row>)
    ensures |rows| == |batch|
    ensures forall i :: 0 <= i < |batch| ==>
      rows[i].news == batch[i] &&
      rows[i].scores == score(batch[i].article) &&
      rows[i].sentiment == Classify(score(batch[i].article).compound)
  {
    seq(|batch|, i requires 0 <= i < |batch| =>
      var s := score(batch[i].article);
      Row(batch[i], s, Classify(s.compound)))
  }

  /** Builds the four score columns, then the label column from the compound
      column, and attaches them to the batch. */
  method SentimentsScores(batch: seq<Article>, score: string -> Scores) returns (rows: seq<Row>)
    ensures rows == AnnotateAll(batch, score)
  {
    var positive: seq<real> := [];
    var negative: seq<real> := [];
    var neutral: seq<real> := [];
    var compound: seq<real> := [];
    for i := 0 to |batch|
      invariant |positive| == |negative| == |neutral| == |compound| == i
      invariant forall k :: 0 <= k < i ==>
        score(batch[k].article) == Scores(positive[k], negative[k], neutral[k], compound[k])
    {
      var s := score(batch[i].article);
      positive := positive + [s.positive];
      negative := negative + [s.negative];
      neutral := neutral + [s.neutral];
      compound := compound + [s.compound];
    }

    var sentiment: seq<Label> := [];
    for i := 0 to |compound|
      invariant |sentiment| == i
      invariant forall k :: 0 <= k < i ==> sentiment[k] == Classify(compound[k])
    {
      if compound[i] >= 0.05 {
        sentiment := sentiment + [Positive];
      } else if compound[i] <= -0.05 {
        sentiment := sentiment + [Negative];
      } else {
        sentiment := sentiment + [Neutral];
      }
    }

    rows := seq(|batch|, k requires 0 <= k < |batch| =>
      Row(batch[k], Scores(positive[k], negative[k], neutral[k], compound[k]), sentiment[k]));
  }
}
