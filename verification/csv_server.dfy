/** server/server.js: the database read from CSV, a two-entry law table and the
    `detailed` switch. */
module CsvServer {
  import opened CaseFilter
  import opened PromptSlots

  /** `LAW_ARTICLES` */
  const LawArticles: map<string, LawArticle> := map[
    "コンベヤー" := LawArticle("労働安全衛生法第20条", "事業者は労働者の安全を確保しなければならない。"),
    "足場" := LawArticle("労働安全衛生法第21条", "事業者は足場の安全性を確保しなければならない。")
  ]

  const NoLaw := LawArticle("なし", "関連情報なし")

  /** `LAW_ARTICLES[hazard] || { article: "なし", content: "関連情報なし" }`: the entry for
      the exact key, else the placeholder. */
  function LawFor(hazard: string): (law: LawArticle)
    ensures law == NoLaw <==> hazard != "コンベヤー" && hazard != "足場"
    ensures hazard in LawArticles ==> law == LawArticles[hazard]
    ensures hazard == "コンベヤー" ==>
      law == LawArticle("労働安全衛生法第20条", "事業者は労働者の安全を確保しなければならない。")
    ensures hazard == "足場" ==>
      law == LawArticle("労働安全衛生法第21条", "事業者は足場の安全性を確保しなければならない。")
  {
    if hazard in LawArticles then LawArticles[hazard] else NoLaw
  }

  const DetailedLength := "【300文字程度ずつ】"
  const BriefLength := "【150文字程度ずつ】"

  /** `detailed ? "【300文字程度ずつ】" : "【150文字程度ずつ】"` */
  function LengthPhrase(detailed: bool): (phrase: string)
    ensures phrase == DetailedLength <==> detailed
    ensures phrase == BriefLength <==> !detailed
  {
    if detailed then DetailedLength else BriefLength
  }

  /** The slots of `finalPrompt` for a request, over the loaded database. */
  function ReportSlots(data: seq<IncidentRecord>, hazard: string, risk: string, detailed: bool): (p: Slots)
    ensures p.hazard == hazard && p.risk == risk
    ensures p.length == Length(DetailedLength) <==> detailed
    ensures p.length == Length(BriefLength) <==> !detailed
    ensures p.law == NoLaw <==> hazard !in LawArticles
    ensures hazard in LawArticles ==> p.law == LawArticles[hazard]
    ensures p.relatedCases == NoCasesFallback <==> MatchedCases(data, hazard, risk) == []
    ensures MatchedCases(data, hazard, risk) != [] ==>
      p.relatedCases == RelatedCasesSummary(MatchedCases(data, hazard, risk))
  {
    var matched := MatchedCases(data, hazard, risk);
    CasesSectionFallback(matched);
    Slots(Length(LengthPhrase(detailed)), LawFor(hazard), hazard, risk,
      CasesSection(RelatedCasesSummary(matched)))
  }
}
