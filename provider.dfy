/**
 * The generative text provider (Gemini's `generate_content`) and the sentence
 * embedding model, seen from the core as oracles.
 */
module Provider {
  import opened Text

  /** What a prompt asks for and the text it embeds; the template wording is not modelled. */
  datatype Prompt =
    | EntityPrompt(text: string)
    | KeyPhrasePrompt(mergedText: string)
    | SummaryPrompt(text: string)
    | CategoryPrompt(result: string)
    | DuplicatePrompt(storedBody: string, newBody: string)

  /** One call's outcome: a response carrying `text`, or an exception raised by the call. */
  datatype Reply = Text(text: string) | Raised

  /**
   * The provider's answer to the `n`-th call of one operation with a given
   * prompt; the provider is free to answer differently on each call.
   */
  type Generator = (Prompt, nat) -> Reply

  /**
   * Cosine similarity of the embeddings of the new body and a stored body,
   * as `util.pytorch_cos_sim` reports it.
   */
  type Similarity = (string, string) -> real

  /** `response.text.strip() if response.text else ""`, with a raised call read as "". */
  function Answer(r: Reply): (a: string)
    ensures IsStripped(a)
    ensures a == [] <==> r.Raised? || AllSpace(r.text)
  {
    match r
    case Text(t) => Strip(t)
    case Raised => ""
  }
}
