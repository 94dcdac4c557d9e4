/** The sentiment classifier of app.py (`get_sentiment`): three buckets of
    the polarity score TextBlob gives the message, a number in [-1, 1]. */
module Sentiment {

  datatype Mood = Positive | Negative | Neutral

  /** The bucket boundary on either side of zero. */
  const Threshold: real := 0.2

  /** `get_sentiment`: positive above 0.2, negative below -0.2, neutral on and
      between the two. */
  function Classify(polarity: real): (m: Mood)
    ensures m == Positive <==> polarity > Threshold
    ensures m == Negative <==> polarity < -Threshold
    ensures m == Neutral <==> -Threshold <= polarity <= Threshold
  {
    if polarity > Threshold then Positive
    else if polarity < -Threshold then Negative
    else Neutral
  }

  /** The buckets in the order of the scores they cover. */
  function Rank(m: Mood): int {
    match m
    case Negative => -1
    case Neutral => 0
    case Positive => 1
  }

  /** A higher polarity never lands in a lower bucket. */
  lemma ClassifyMonotone(p: real, q: real)
    requires p <= q
    ensures Rank(Classify(p)) <= Rank(Classify(q))
  {
  }

  /** The classification is symmetric about zero. */
  lemma ClassifySymmetric(p: real)
    ensures Classify(-p) == Positive <==> Classify(p) == Negative
    ensures Classify(-p) == Neutral <==> Classify(p) == Neutral
  {
  }
}
