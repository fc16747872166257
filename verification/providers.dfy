/**
 The three provider classes of the structured-output version of the tool. Each one
 extracts the diff and file list from the prompt, asks its model for four fields,
 and renders them with `formatResponse`; any failure of the model call is rethrown
 with the provider's own prefix. The model call itself is a parameter.
 */
module Providers {
  import opened Results
  import opened Strings
  import opened Extraction
  import opened ReviewFormat

  /** The three classes; the legacy names `OpenAIProvider`, `AnthropicProvider` and `GeminiProvider` are the same classes. */
  datatype ProviderKind = OpenAI | Anthropic | Gemini

  function Vendor(k: ProviderKind): string {
    match k
    case OpenAI => "OpenAI"
    case Anthropic => "Anthropic"
    case Gemini => "Gemini"
  }

  /** The message of the error a provider rethrows when its model call fails. */
  function ProviderError(k: ProviderKind, message: string): string {
    Vendor(k) + " provider error: " + message
  }

  /** The rethrown message names the provider and keeps the original message intact. */
  lemma ProviderErrorInjective(k1: ProviderKind, m1: string, k2: ProviderKind, m2: string)
    requires ProviderError(k1, m1) == ProviderError(k2, m2)
    ensures k1 == k2 && m1 == m2
  {
    var e := ProviderError(k1, m1);
    assert e[0] == Vendor(k1)[0] && e[0] == Vendor(k2)[0];
    assert Vendor(k1) == Vendor(k2);
    assert m1 == e[|Vendor(k1) + " provider error: "|..] == m2;
  }

  /** What the foreign `forward` call produced: the four fields, or an error with a message. */
  datatype Generation = Generated(fields: ReviewFields) | GenerationFailed(message: string)

  /** `reviewCode` either returns a text or throws an error with a message. */
  datatype Reply = Returned(text: string) | Threw(message: string)

  /**
   `reviewCode(prompt)` of the provider of kind `k`, whose model call is `generate`:
   the generator receives the extracted diff and file list, a success is formatted,
   a failure is rethrown under the provider's prefix.
   */
  function ReviewCode(k: ProviderKind, generate: (string, string) -> Generation, prompt: string): Reply {
    match generate(ExtractDiff(prompt), ExtractFiles(prompt))
    case Generated(f) => Returned(FormatResponse(f))
    case GenerationFailed(m) => Threw(ProviderError(k, m))
  }

  /**
   The provider classes behave alike: for the same model behaviour they succeed or fail
   together, succeed with the same text, and fail with messages that differ only in the
   provider prefix. A successful reply carries the generated fields.
   */
  lemma ProvidersAgree(k1: ProviderKind, k2: ProviderKind, generate: (string, string) -> Generation, prompt: string)
    ensures ReviewCode(k1, generate, prompt).Returned? <==> ReviewCode(k2, generate, prompt).Returned?
    ensures ReviewCode(k1, generate, prompt).Returned? ==> ReviewCode(k1, generate, prompt) == ReviewCode(k2, generate, prompt)
    ensures ReviewCode(k1, generate, prompt).Threw? ==>
      exists m :: ReviewCode(k1, generate, prompt).message == ProviderError(k1, m)
               && ReviewCode(k2, generate, prompt).message == ProviderError(k2, m)
  {
  }

  /**
   A successful reply reads back to the fields the model produced when the fields are
   clean, and a failed reply names the provider and the model's message.
   */
  lemma ReviewCodeOutcome(k: ProviderKind, generate: (string, string) -> Generation, prompt: string)
    ensures var g := generate(ExtractDiff(prompt), ExtractFiles(prompt));
      && (g.Generated? && !Contains(g.fields.summary, IssuesTag) && !Contains(g.fields.issues, SecurityTag)
          && !Contains(g.fields.security, AssessmentTag)
          ==> ParseResponse(ReviewCode(k, generate, prompt).text) == Some(g.fields))
      && (g.GenerationFailed? ==> ReviewCode(k, generate, prompt) == Threw(ProviderError(k, g.message)))
  {
    var g := generate(ExtractDiff(prompt), ExtractFiles(prompt));
    if g.Generated? && !Contains(g.fields.summary, IssuesTag) && !Contains(g.fields.issues, SecurityTag)
       && !Contains(g.fields.security, AssessmentTag) {
      FormatParse(g.fields);
    }
  }
}
