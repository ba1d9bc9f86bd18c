/**
 The bot's reply to one user message, over the hard-coded FAQ database. The
 sentence-embedding model and its cosine similarity are an opaque, total
 scoring function from a message and a canonical question to a real score.
 */
module Chatbot {
  import opened Corpus
  import opened Matching

  /** The fixed confidence threshold of the responder. */
  const ConfThreshold: real := 0.25

  /**
   The scores of message against the corpus: the questions are taken out into
   the question list and scored in that order, and score i belongs to entry i.
   */
  function Scores(similarity: (string, string) -> real, message: string, entries: seq<FaqEntry>): (scores: seq<real>)
    ensures |scores| == |entries|
    ensures forall i :: 0 <= i < |entries| ==> scores[i] == similarity(message, entries[i].question)
  {
    var questions := QnList(entries);
    ListsAligned(entries);
    seq(|questions|, i requires 0 <= i < |questions| => similarity(message, questions[i]))
  }

  /** No stored answer is the fallback sentence, so the reply tells an answer from a refusal. */
  lemma FallbackIsNoAnswer()
    ensures forall i :: 0 <= i < |FaqJson| ==> FaqJson[i].answer != FallbackMessage
  {
    assert |FallbackMessage| == 107;
    assert |FaqJson[0].answer| == 28 && |FaqJson[1].answer| == 169 && |FaqJson[2].answer| == 139;
    assert |FaqJson[3].answer| == 146 && |FaqJson[4].answer| == 220 && |FaqJson[5].answer| == 191;
  }

  /**
   The bot's reply to message. The chat history is accepted and ignored. The
   reply is the fallback exactly when every canonical question scores below
   the threshold; otherwise it is the answer of the first best-scoring question.
   */
  function FaqBasedResponse<H>(similarity: (string, string) -> real, message: string, history: H): (r: string)
    ensures r == FallbackMessage
        <==> forall i :: 0 <= i < |FaqJson| ==> similarity(message, FaqJson[i].question) < ConfThreshold
    ensures r != FallbackMessage ==>
              exists k :: IsFirstMax(Scores(similarity, message, FaqJson), k) && r == FaqJson[k].answer
    ensures r == FallbackMessage || r in AnsList(FaqJson)
  {
    ListsAligned(FaqJson);
    FallbackIsNoAnswer();
    Response(AnsList(FaqJson), Scores(similarity, message, FaqJson), ConfThreshold)
  }

  /** The reply depends only on the message's scores: the history never matters. */
  lemma ResponseIgnoresHistory<H>(similarity: (string, string) -> real, message: string, h1: H, h2: H)
    ensures FaqBasedResponse(similarity, message, h1) == FaqBasedResponse(similarity, message, h2)
  {
  }

  /** Two messages that score alike against every canonical question get the same reply. */
  lemma SameScoresSameResponse<H>(
    sim1: (string, string) -> real, m1: string, h1: H,
    sim2: (string, string) -> real, m2: string, h2: H)
    requires forall i :: 0 <= i < |FaqJson| ==> sim1(m1, FaqJson[i].question) == sim2(m2, FaqJson[i].question)
    ensures FaqBasedResponse(sim1, m1, h1) == FaqBasedResponse(sim2, m2, h2)
  {
    ListsAligned(FaqJson);
    assert Scores(sim1, m1, FaqJson) == Scores(sim2, m2, FaqJson);
  }

  /**
   A message that is literally canonical question i, scored at least at the
   threshold against itself and strictly lower against every other question,
   gets answer i verbatim.
   */
  lemma CanonicalQuestionAnswered<H>(similarity: (string, string) -> real, i: int, history: H)
    requires 0 <= i < |FaqJson|
    requires ConfThreshold <= similarity(FaqJson[i].question, FaqJson[i].question)
    requires forall j :: 0 <= j < |FaqJson| && j != i ==>
               similarity(FaqJson[i].question, FaqJson[j].question) < similarity(FaqJson[i].question, FaqJson[i].question)
    ensures FaqBasedResponse(similarity, FaqJson[i].question, history) == FaqJson[i].answer
  {
    ListsAligned(FaqJson);
    var scores := Scores(similarity, FaqJson[i].question, FaqJson);
    StrictBestIsAnswered(AnsList(FaqJson), scores, ConfThreshold, i);
  }
}
