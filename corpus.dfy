/**
 The FAQ database of the Thoughtful AI support agent: an ordered list of
 canonical question/answer pairs, and the two index-aligned lists (questions,
 answers) that the matcher works from.
 */
module Corpus {

  /** One canonical question and its stored answer; identity is the position in the corpus. */
  datatype FaqEntry = FaqEntry(question: string, answer: string)

  /** A corpus the matcher can select from: at least one entry, no empty question or answer. */
  predicate WellFormed(entries: seq<FaqEntry>) {
    && |entries| > 0
    && forall i :: 0 <= i < |entries| ==> entries[i].question != [] && entries[i].answer != []
  }

  /** The hard-coded FAQ database, in its source order. */
  const FaqJson: seq<FaqEntry> := [
    FaqEntry(
      "Hello",
      "Hello! How can I assist you?"),
    FaqEntry(
      "What does the eligibility verification agent (EVA) do?",
      "EVA automates the process of verifying a patient\U{2019}s eligibility and benefits information in real-time, eliminating manual data entry errors and reducing claim rejections."),
    FaqEntry(
      "What does the claims processing agent (CAM) do?",
      "CAM streamlines the submission and management of claims, improving accuracy, reducing manual intervention, and accelerating reimbursements."),
    FaqEntry(
      "How does the payment posting agent (PHIL) work?",
      "PHIL automates the posting of payments to patient accounts, ensuring fast, accurate reconciliation of payments and reducing administrative burden."),
    FaqEntry(
      "Tell me about Thoughtful AI's Agents.",
      "Thoughtful AI provides a suite of AI-powered automation agents designed to streamline healthcare processes. These include Eligibility Verification (EVA), Claims Processing (CAM), and Payment Posting (PHIL), among others."),
    FaqEntry(
      "What are the benefits of using Thoughtful AI's agents?",
      "Using Thoughtful AI's Agents can significantly reduce administrative costs, improve operational efficiency, and reduce errors in critical processes like claims management and payment posting.")
  ]

  /** The questions of the corpus, in corpus order. */
  function QnList(entries: seq<FaqEntry>): (qs: seq<string>)
    ensures |qs| == |entries|
  {
    if entries == [] then [] else [entries[0].question] + QnList(entries[1..])
  }

  /** The answers of the corpus, in corpus order. */
  function AnsList(entries: seq<FaqEntry>): (ans: seq<string>)
    ensures |ans| == |entries|
  {
    if entries == [] then [] else [entries[0].answer] + AnsList(entries[1..])
  }

  /** Rebuilds entries from a question list and an answer list of the same length. */
  function Pair(qs: seq<string>, ans: seq<string>): (entries: seq<FaqEntry>)
    requires |qs| == |ans|
    ensures |entries| == |qs|
  {
    if qs == [] then [] else [FaqEntry(qs[0], ans[0])] + Pair(qs[1..], ans[1..])
  }

  /** Index alignment: position i of both lists comes from entry i. */
  lemma {:induction false} ListsAligned(entries: seq<FaqEntry>)
    ensures |QnList(entries)| == |AnsList(entries)| == |entries|
    ensures forall i :: 0 <= i < |entries| ==> QnList(entries)[i] == entries[i].question
    ensures forall i :: 0 <= i < |entries| ==> AnsList(entries)[i] == entries[i].answer
  {
    if entries != [] {
      ListsAligned(entries[1..]);
    }
  }

  /** Splitting the corpus into its two lists loses nothing: pairing them up again gives it back. */
  lemma {:induction false} PairSplit(entries: seq<FaqEntry>)
    ensures Pair(QnList(entries), AnsList(entries)) == entries
  {
    if entries != [] {
      PairSplit(entries[1..]);
    }
  }

  /** The hard-coded database has six entries and is well formed, so argmax over it is always defined. */
  lemma FaqJsonWellFormed()
    ensures |FaqJson| == 6
    ensures WellFormed(FaqJson)
  {
  }
}
