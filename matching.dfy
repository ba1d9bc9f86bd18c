/**
 The answer-selection rule of the FAQ responder, independent of where the
 scores come from: take the first index of the highest similarity score, and
 answer with the entry at that index unless its score is below the confidence
 threshold, in which case answer with the fixed fallback sentence.
 */
module Matching {

  /** The reply given when no canonical question is confidently close enough. */
  const FallbackMessage: string :=
    "Sorry, I don't understand that. Please let me know if you have any other questions regarding Thoughtful AI."

  /** k is the first index at which scores reaches its maximum. */
  predicate IsFirstMax(scores: seq<real>, k: int) {
    && 0 <= k < |scores|
    && (forall j :: 0 <= j < |scores| ==> scores[j] <= scores[k])
    && (forall j :: 0 <= j < k ==> scores[j] < scores[k])
  }

  /** Index of the highest score; on a tie the lowest such index wins. */
  function ArgMax(scores: seq<real>): (k: nat)
    requires |scores| > 0
    ensures IsFirstMax(scores, k)
  {
    if |scores| == 1 then 0
    else
      var best := ArgMax(scores[..|scores| - 1]);
      if scores[best] < scores[|scores| - 1] then |scores| - 1 else best
  }

  /** IsFirstMax pins down a single index, so ArgMax is the only choice that meets it. */
  lemma ArgMaxUnique(scores: seq<real>, k: int)
    requires IsFirstMax(scores, k)
    ensures k == ArgMax(scores)
  {
  }

  /** Of entries tied at the top score, the later one is never selected: ArgMax is at or before the earlier. */
  lemma ArgMaxTieBreak(scores: seq<real>, i: int, j: int)
    requires 0 <= i < j < |scores|
    requires scores[i] == scores[j]
    requires forall m :: 0 <= m < |scores| ==> scores[m] <= scores[i]
    ensures ArgMax(scores) <= i && ArgMax(scores) != j
  {
  }

  /** Outcome of the threshold gate: the index of the stored answer, or the fallback. */
  datatype Selection = Answer(index: nat) | Fallback

  /** Argmax followed by the confidence gate; a best score equal to the threshold passes. */
  function Select(scores: seq<real>, threshold: real): (sel: Selection)
    requires |scores| > 0
    ensures sel.Answer? ==> IsFirstMax(scores, sel.index) && threshold <= scores[sel.index]
    ensures sel.Fallback? <==> forall j :: 0 <= j < |scores| ==> scores[j] < threshold
  {
    var k := ArgMax(scores);
    if scores[k] < threshold then Fallback else Answer(k)
  }

  /** The reply for one set of scores, the answers being aligned with the scores by index. */
  function Response(answers: seq<string>, scores: seq<real>, threshold: real): (r: string)
    requires |scores| == |answers| > 0
    ensures r == FallbackMessage || r in answers
    ensures (forall j :: 0 <= j < |scores| ==> scores[j] < threshold) ==> r == FallbackMessage
    ensures (exists j :: 0 <= j < |scores| && threshold <= scores[j]) ==> r == answers[ArgMax(scores)]
  {
    match Select(scores, threshold)
    case Fallback => FallbackMessage
    case Answer(k) => answers[k]
  }

  /** Raising the threshold can turn an answer into the fallback, never the reverse. */
  lemma SelectThresholdMonotone(scores: seq<real>, low: real, high: real)
    requires |scores| > 0
    requires low <= high
    ensures Select(scores, high).Answer? ==> Select(scores, low) == Select(scores, high)
    ensures Select(scores, low).Fallback? ==> Select(scores, high).Fallback?
  {
  }

  /** The same monotonicity, stated on the reply text. */
  lemma ResponseThresholdMonotone(answers: seq<string>, scores: seq<real>, low: real, high: real)
    requires |scores| == |answers| > 0
    requires low <= high
    ensures Response(answers, scores, high) == Response(answers, scores, low)
         || Response(answers, scores, high) == FallbackMessage
    ensures Response(answers, scores, low) == FallbackMessage ==> Response(answers, scores, high) == FallbackMessage
  {
    SelectThresholdMonotone(scores, low, high);
  }

  /** An entry that scores strictly above every other and reaches the threshold gets its answer. */
  lemma StrictBestIsAnswered(answers: seq<string>, scores: seq<real>, threshold: real, i: int)
    requires |scores| == |answers|
    requires 0 <= i < |scores|
    requires threshold <= scores[i]
    requires forall j :: 0 <= j < |scores| && j != i ==> scores[j] < scores[i]
    ensures Response(answers, scores, threshold) == answers[i]
  {
  }
}
