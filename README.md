# FAQ chatbot answer selection, in Dafny

This project models the core of the Thoughtful AI support agent (`main_chatbot.py`): a
single-turn FAQ responder. It holds a hard-coded database of six canonical
question/answer pairs. For a user message it scores every canonical question by
semantic similarity, picks the highest score, and either returns that question's stored
answer verbatim or, if the best score is below the confidence threshold 0.25, a fixed
fallback sentence.

The code is pure, so it is modelled with datatypes, functions and lemmas:

- `corpus.dfy`, module `Corpus`: `FaqEntry`, the database literal `FaqJson` (same six
  entries, same order, same text), and the two index-aligned lists `QnList` and `AnsList`.
- `matching.dfy`, module `Matching`: first-occurrence argmax (`ArgMax`, specified by
  `IsFirstMax`), the threshold gate (`Select`, giving an `Answer(index)` or `Fallback`)
  and the reply text (`Response`), all with the threshold as a parameter.
- `chatbot.dfy`, module `Chatbot`: `FaqBasedResponse`, the reply to one message over
  `FaqJson` with the fixed threshold `ConfThreshold = 0.25`.

The sentence-embedding model and its similarity call are foreign code. They are a
parameter `similarity: (string, string) -> real`: a total, deterministic function from
(message, canonical question) to a score. `Chatbot.Scores` stands for the whole
encode-and-similarity step: it scores the question list in order and gives one score per
corpus entry, score i belonging to entry i. Scores are mathematical reals.

## Model

| member | source | states |
|---|---|---|
| `Corpus.QnList` | main_chatbot.py:45 | the question list has one element per database entry |
| `Corpus.AnsList` | main_chatbot.py:46 | the answer list has one element per database entry |
| `Corpus.ListsAligned` | main_chatbot.py:45-46 | for every corpus, both lists have the corpus's length, and position i of each comes from entry i |
| `Corpus.PairSplit` | main_chatbot.py:45-46 | pairing the question list with the answer list gives back the corpus exactly, so splitting loses nothing and reorders nothing |
| `Corpus.FaqJsonWellFormed` | main_chatbot.py:15-42 | the database has six entries, each with a non-empty question and answer, so argmax over its scores is always defined |
| `Chatbot.Scores` | main_chatbot.py:50-56 | the questions are scored in question-list order, and the result has one score per corpus entry with score i being the message's similarity to entry i's question, so the embeddings stay aligned with the corpus |
| `Chatbot.FallbackIsNoAnswer` | main_chatbot.py:15-64 | no stored answer equals the fallback sentence, so a reply can be told apart from a refusal |
| `Matching.ArgMax` | main_chatbot.py:57 | the selected index is in range, its score is at least every other score, and every earlier index scores strictly less (first occurrence wins) |
| `Matching.ArgMaxUnique` | main_chatbot.py:57 | any index that is the first maximum is the one ArgMax returns, so the selection is fully determined by the scores |
| `Matching.ArgMaxTieBreak` | main_chatbot.py:57 | when indices i < j both reach the top score, the selected index is at or before i and is never j |
| `Matching.Select` | main_chatbot.py:57-67 | the gate answers only with the first-maximum index, and only when its score reaches the threshold (equality passes); it falls back exactly when every score is below the threshold |
| `Matching.Response` | main_chatbot.py:63-67 | the reply is the fallback sentence or one of the answers; it is the fallback when all scores are below the threshold, and otherwise the answer at the argmax index, unmodified |
| `Matching.SelectThresholdMonotone` | main_chatbot.py:62-64 | for fixed scores, a higher threshold keeps the same answer or falls back, and a fallback at a lower threshold stays a fallback at a higher one |
| `Matching.ResponseThresholdMonotone` | main_chatbot.py:62-67 | the same monotonicity on the reply text: raising the threshold leaves the reply unchanged or turns it into the fallback, never the reverse |
| `Matching.StrictBestIsAnswered` | main_chatbot.py:57-67 | an entry that scores strictly above every other and reaches the threshold gets its own answer |
| `Chatbot.FaqBasedResponse` | main_chatbot.py:53-67 | the reply is the fallback exactly when every canonical question scores below 0.25; otherwise it is the stored answer of a first best-scoring question; it is always the fallback or a stored answer |
| `Chatbot.ResponseIgnoresHistory` | main_chatbot.py:53-67 | the chat history has no effect on the reply |
| `Chatbot.SameScoresSameResponse` | main_chatbot.py:55-67 | two messages with equal scores against every canonical question get the same reply, so the reply is a function of the scores alone |
| `Chatbot.CanonicalQuestionAnswered` | main_chatbot.py:50-67 | a message equal to canonical question i gets answer i verbatim, if it scores at least 0.25 against itself and strictly lower against every other question |

## Left out

- Loading the `SentenceTransformer` model, `model.encode` and `model.similarity` (main_chatbot.py:49-50, 55-56). They are foreign floating-point code. The model takes their result as the opaque `similarity` parameter. It does not model cosine similarity, the [-1, 1] range of scores, or the model raising an error at load time.
- Floating point: scores are reals. float32 rounding is not modelled, and neither is NaN, which `np.argmax` would treat as the maximum.
- The `[0]` row of the 1×N similarity tensor and `np.argmax` flattening it (main_chatbot.py:56-57, 63). The scores are a flat sequence with one score per question.
- The two debug `print` calls (main_chatbot.py:58-59). They are console output only.
- The TODO on disambiguating close top scores (main_chatbot.py:66). It is not implemented, and the model always commits to the argmax, as the code does.
- The Gradio chat interface and its `launch(share=True)` (main_chatbot.py:71-79). It is presentation and network glue.
- `chat-interface-gradio.py`: a UI demo whose only logic is a random Yes/No reply. It is non-deterministic and unrelated to matching.
- Module-level globals: the model, the question embeddings and the lists are computed at import time. In the model, `FaqBasedResponse` reads the constant `FaqJson`, the counterpart of `faq_json`, and takes only the scoring function as a parameter. The corpus-generic rule is `Matching.Response`, which takes the answers and the scores as parameters.
- A separate load step that fails on an empty corpus or on a call made before loading: the code has neither. Its database is a fixed, non-empty literal and is usable as soon as the module is imported. The model follows the code: `FaqJsonWellFormed` proves the literal non-empty, and the general functions in `Matching` require at least one score.
- The configurable threshold: the code hard-codes 0.25 inside `faq_based_response`. `FaqBasedResponse` uses the constant `ConfThreshold`. The threshold-parametric rule is `Matching.Response`, on which monotonicity is proved.
