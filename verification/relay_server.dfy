/** server/index.js: the client composes the whole prompt; the server still computes the
    case summary but forwards the client's prompt unchanged. */
module RelayServer {
  import opened CaseFilter
  import opened Upstream

  /** What a request produces: the (unused) summary and the body sent upstream. */
  datatype Relay = Relay(summary: string, request: ChatRequest)

  function Handle(data: seq<IncidentRecord>, hazard: string, risk: string, prompt: string): (r: Relay)
    ensures |r.request.messages| == 1 && PromptOf(r.request) == prompt
    ensures r.summary == "" <==> MatchedCases(data, hazard, risk) == []
  {
    Relay(RelatedCasesSummary(MatchedCases(data, hazard, risk)), CompletionRequest(prompt))
  }

  /** The body sent upstream depends on the prompt alone: the database, `hazard` and
      `risk` make no difference to it. */
  lemma UpstreamIgnoresCases(data1: seq<IncidentRecord>, hazard1: string, risk1: string,
                             data2: seq<IncidentRecord>, hazard2: string, risk2: string, prompt: string)
    ensures Handle(data1, hazard1, risk1, prompt).request == Handle(data2, hazard2, risk2, prompt).request
  {
  }
}
