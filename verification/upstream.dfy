/** The chat-completion request body every server posts upstream. Only its construction
    is modelled; sending it and reading the reply are not. */
module Upstream {

  datatype Message = Message(role: string, content: string)

  /** `{ model, messages, temperature }` */
  datatype ChatRequest = ChatRequest(model: string, messages: seq<Message>, temperature: real)

  const Model := "gpt-4o"
  const Temperature: real := 0.3

  /** The body for a prompt: one user message carrying the prompt unchanged. */
  function CompletionRequest(prompt: string): ChatRequest {
    ChatRequest(Model, [Message("user", prompt)], Temperature)
  }

  /** The prompt a request carries, read back from its only message. */
  function PromptOf(req: ChatRequest): string
    requires |req.messages| == 1
  {
    req.messages[0].content
  }

  /** A request is built from exactly one prompt and gives that prompt back; different
      prompts give different requests. */
  lemma CompletionRequestCarriesPrompt(p: string, q: string)
    ensures |CompletionRequest(p).messages| == 1
    ensures PromptOf(CompletionRequest(p)) == p
    ensures CompletionRequest(p) == CompletionRequest(q) <==> p == q
  {
    if CompletionRequest(p) == CompletionRequest(q) {
      assert PromptOf(CompletionRequest(p)) == PromptOf(CompletionRequest(q));
    }
  }
}
