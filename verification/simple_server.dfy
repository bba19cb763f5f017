/** server.js: fixed test data and a fixed law summary. */
module SimpleServer {
  import opened CaseFilter
  import opened PromptSlots

  /** The two test records the server starts with. */
  const DisasterData: seq<IncidentRecord> := [
    IncidentRecord(Value("コンベアで巻き込まれた"), Value("安全装置がなかった"),
      Value("安全柵の設置"), Value("はさまれ・巻き込まれ")),
    IncidentRecord(Value("高所から転落"), Value("安全帯を着用していなかった"),
      Value("安全帯の使用"), Value("墜落・転落"))
  ]

  /** With only the two built-in records, the five-record cap never applies: every
      matching record reaches the prompt. */
  lemma TestDataUncapped(hazard: string, risk: string)
    ensures MatchedCases(DisasterData, hazard, risk) == Filter(DisasterData, hazard, risk)
    ensures |MatchedCases(DisasterData, hazard, risk)| <= |DisasterData|
  {
  }

  const Law := LawArticle("労働安全衛生法（概略）",
    "労働者の安全を確保するため、事業者は必要な措置を講じる義務があります。")

  /** The slots of `finalPrompt` for a request, over a given database. `detailed` is read
      from the request but not used. */
  function ReportSlots(data: seq<IncidentRecord>, hazard: string, risk: string, detailed: bool): (p: Slots)
    ensures p.length == NoLengthSlot && p.law == Law && p.hazard == hazard && p.risk == risk
    ensures p.relatedCases == NoCasesFallback <==> MatchedCases(data, hazard, risk) == []
    ensures MatchedCases(data, hazard, risk) != [] ==>
      p.relatedCases == RelatedCasesSummary(MatchedCases(data, hazard, risk))
  {
    var matched := MatchedCases(data, hazard, risk);
    CasesSectionFallback(matched);
    Slots(NoLengthSlot, Law, hazard, risk, CasesSection(RelatedCasesSummary(matched)))
  }

  /** The slots do not depend on `detailed`. */
  lemma DetailedIgnored(data: seq<IncidentRecord>, hazard: string, risk: string)
    ensures ReportSlots(data, hazard, risk, true) == ReportSlots(data, hazard, risk, false)
  {
  }
}
