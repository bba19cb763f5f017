/** The client's similar-case lookup (`getTop3SimilarCases`) and the detailed report it
    feeds (`handleDetailedReport`) in client/src/components/InputPanel.js. The form's
    `hazard` and `risk` state become plain parameters. */
module InputPanel {
  import opened Strings
  import opened Ranking
  import opened Sequences

  /** A case of the built-in catalog. */
  datatype DisasterCase = DisasterCase(title: string, description: string)

  /** The built-in catalog `disasterCases`. */
  const DisasterCases: seq<DisasterCase> := [
    DisasterCase("ボイラー点検中の漏電事故", "ボイラー点検中に漏電が発生し作業員が感電した事故です。"),
    DisasterCase("湿気環境での感電死亡事故", "湿気の多い場所で絶縁不良が原因で作業員が感電し死亡した事故です。"),
    DisasterCase("通電状態での作業中の感電", "電源を切らずに修理を行って感電、作業員が意識不明となった事故です。"),
    DisasterCase("高所作業中の墜落事故", "足場の不備により作業者が高所から転落した事故です。"),
    DisasterCase("電動工具の巻き込まれ事故", "電動工具使用中に衣服が巻き込まれて負傷した事故です。")
  ]

  /** How many cases the lookup returns. */
  const TopCount: nat := 3

  /** `${hazard} ${risk}`.split(' '): one keyword per space-separated piece, empty pieces
      included. The pieces are the query text exactly, cut at its spaces. */
  function Keywords(hazard: string, risk: string): (ks: seq<string>)
    ensures |ks| == Count(hazard, ' ') + Count(risk, ' ') + 2
    ensures Join(ks, " ") == hazard + " " + risk
    ensures forall i :: 0 <= i < |ks| ==> ' ' !in ks[i]
  {
    var q := hazard + " " + risk;
    CountAppend(hazard, " " + risk, ' ');
    CountAppend(" ", risk, ' ');
    assert hazard + (" " + risk) == q;
    JoinSplit(q, ' ');
    Split(q, ' ')
  }

  /** An empty `risk` always yields an empty last keyword. */
  lemma EmptyRiskKeyword(hazard: string)
    ensures Keywords(hazard, "") == Split(hazard, ' ') + [""]
  {
    SplitAppend(hazard, "", ' ');
    assert hazard + " " + "" == hazard + [' '] + "";
  }

  /** The text a case is searched in: `${c.title} ${c.description}`. */
  function SearchText(c: DisasterCase): string {
    c.title + " " + c.description
  }

  /** The number of keywords, counted with repetition, that `text` includes. */
  function Score(text: string, keywords: seq<string>): (n: nat)
    ensures n <= |keywords|
    decreases |keywords|
  {
    if |keywords| == 0 then 0
    else (if Contains(text, keywords[0]) then 1 else 0) + Score(text, keywords[1..])
  }

  /** Scores add up over a split keyword list. */
  lemma {:induction false} ScoreAppend(text: string, a: seq<string>, b: seq<string>)
    ensures Score(text, a + b) == Score(text, a) + Score(text, b)
    decreases |a|
  {
    if |a| == 0 {
      assert a + b == b;
    } else {
      assert (a + b)[1..] == a[1..] + b;
      ScoreAppend(text, a[1..], b);
    }
  }

  /** An empty keyword is included in every text, so it adds exactly one to every score;
      a keyword no text includes adds nothing. */
  lemma EmptyKeywordAddsOne(text: string, keywords: seq<string>)
    ensures Score(text, keywords + [""]) == Score(text, keywords) + 1
  {
    ScoreAppend(text, keywords, [""]);
  }

  /** The loop of the source: start at 0 and add one for each keyword the text includes. */
  method ScoreCase(c: DisasterCase, keywords: seq<string>) returns (scored: ScoredCase)
    ensures scored.title == c.title && scored.description == c.description
    ensures scored.score == Score(SearchText(c), keywords)
  {
    var text := SearchText(c);
    var score: nat := 0;
    var i := 0;
    while i < |keywords|
      invariant 0 <= i <= |keywords|
      invariant score == Score(text, keywords[..i])
    {
      ScoreAppend(text, keywords[..i], [keywords[i]]);
      assert keywords[..i + 1] == keywords[..i] + [keywords[i]];
      if Contains(text, keywords[i]) {
        score := score + 1;
      }
      i := i + 1;
    }
    assert keywords[..i] == keywords;
    scored := ScoredCase(c.title, c.description, score);
  }

  /** `{ ...c, score }` for one case. */
  function Scored(c: DisasterCase, keywords: seq<string>): ScoredCase {
    ScoredCase(c.title, c.description, Score(SearchText(c), keywords))
  }

  /** `disasterCases.map(...)`: every case with its score, in catalog order. */
  function ScoreAll(cases: seq<DisasterCase>, keywords: seq<string>): (scored: seq<ScoredCase>)
    ensures |scored| == |cases|
    ensures forall i :: 0 <= i < |cases| ==> scored[i] == Scored(cases[i], keywords)
  {
    seq(|cases|, i requires 0 <= i < |cases| => Scored(cases[i], keywords))
  }

  /** Every scored entry is a catalog case with its own score added. */
  lemma ScoredFromCatalog(cases: seq<DisasterCase>, keywords: seq<string>, x: ScoredCase)
    requires x in ScoreAll(cases, keywords)
    ensures Unscored(x) in cases && x == Scored(Unscored(x), keywords)
  {
    var scored := ScoreAll(cases, keywords);
    var j :| 0 <= j < |scored| && scored[j] == x;
    assert Unscored(x) == cases[j];
  }

  /** The case a scored entry was made from. */
  function Unscored(x: ScoredCase): DisasterCase {
    DisasterCase(x.title, x.description)
  }

  /** `getTop3SimilarCases` over a catalog: score, sort by descending score keeping
      catalog order among ties, and keep the first three, zero scores included. */
  function Top3(cases: seq<DisasterCase>, hazard: string, risk: string): (r: seq<ScoredCase>)
    ensures |r| == if |cases| < TopCount then |cases| else TopCount
    ensures SortedByScore(r)
    ensures forall i :: 0 <= i < |r| ==>
      Unscored(r[i]) in cases && r[i] == Scored(Unscored(r[i]), Keywords(hazard, risk))
    ensures multiset(r) <= multiset(ScoreAll(cases, Keywords(hazard, risk)))
    ensures forall k :: WithScore(r, k) <= WithScore(ScoreAll(cases, Keywords(hazard, risk)), k)
  {
    var r := TopN(ScoreAll(cases, Keywords(hazard, risk)), TopCount);
    forall i | 0 <= i < |r|
      ensures Unscored(r[i]) in cases && r[i] == Scored(Unscored(r[i]), Keywords(hazard, risk))
    {
      ScoredFromCatalog(cases, Keywords(hazard, risk), r[i]);
    }
    r
  }

  /** A case left out of the top three never scores higher than a case kept. */
  lemma Top3KeepsHighest(cases: seq<DisasterCase>, hazard: string, risk: string, j: nat)
    requires j < |cases|
    requires Scored(cases[j], Keywords(hazard, risk)) !in Top3(cases, hazard, risk)
    ensures forall x :: x in Top3(cases, hazard, risk) ==>
      x.score >= Scored(cases[j], Keywords(hazard, risk)).score
  {
    var scored := ScoreAll(cases, Keywords(hazard, risk));
    assert scored[j] == Scored(cases[j], Keywords(hazard, risk));
    TopNKeepsHighest(scored, TopCount, scored[j]);
  }

  /** The same result as any other sort that is descending and stable: the engine's
      `Array.prototype.sort` with comparator `b.score - a.score` yields these cases. */
  lemma Top3IsAnyStableSort(cases: seq<DisasterCase>, hazard: string, risk: string, sorted: seq<ScoredCase>)
    requires SortedByScore(sorted)
    requires forall k :: WithScore(sorted, k) == WithScore(ScoreAll(cases, Keywords(hazard, risk)), k)
    ensures Top3(cases, hazard, risk) == Take(sorted, TopCount)
  {
    StableSortUnique(sorted, SortByScore(ScoreAll(cases, Keywords(hazard, risk))));
  }

  /** An empty `risk` makes every case score at least one, and the scores go up by one. */
  lemma EmptyRiskScoresAll(cases: seq<DisasterCase>, hazard: string)
    ensures forall i :: 0 <= i < |cases| ==>
      Scored(cases[i], Keywords(hazard, "")).score
        == Score(SearchText(cases[i]), Split(hazard, ' ')) + 1 >= 1
  {
    EmptyRiskKeyword(hazard);
    forall i | 0 <= i < |cases|
      ensures Scored(cases[i], Keywords(hazard, "")).score
        == Score(SearchText(cases[i]), Split(hazard, ' ')) + 1
    {
      EmptyKeywordAddsOne(SearchText(cases[i]), Split(hazard, ' '));
    }
  }

  /** `getTop3SimilarCases` on the built-in catalog. */
  function GetTop3SimilarCases(hazard: string, risk: string): (r: seq<ScoredCase>)
    ensures |r| == TopCount
  {
    Top3(DisasterCases, hazard, risk)
  }

  /** `${idx + 1}. ${c.title}（${c.description}）` */
  function CaseLine(idx: nat, c: ScoredCase): (line: string)
    ensures NatToString(idx + 1) <= line
    ensures |line| >= |c.description| + 2 &&
      line[|line| - |c.description| - 2..] == "（" + c.description + "）"
  {
    NatToString(idx + 1) + ". " + c.title + "（" + c.description + "）"
  }

  /** Each case line starts with its 1-based position, followed by ". ". */
  lemma CaseLineNumber(idx: nat, c: ScoredCase)
    ensures var digits := LeadingDigits(CaseLine(idx, c));
      ParseNat(digits) == idx + 1 &&
      CaseLine(idx, c)[|digits|..] == ". " + c.title + "（" + c.description + "）"
  {
    var rest := ". " + c.title + "（" + c.description + "）";
    assert CaseLine(idx, c) == NatToString(idx + 1) + rest;
    NumberAtStart(idx + 1, rest);
    LeadingDigitsOf(NatToString(idx + 1), rest);
  }

  function CaseLines(cases: seq<ScoredCase>): (lines: seq<string>)
    ensures |lines| == |cases|
    ensures forall i :: 0 <= i < |cases| ==> lines[i] == CaseLine(i, cases[i])
  {
    seq(|cases|, i requires 0 <= i < |cases| => CaseLine(i, cases[i]))
  }

  /** The case's title and description contain no line break. */
  predicate LineFree(c: DisasterCase) {
    '\n' !in c.title && '\n' !in c.description
  }

  /** `caseSummary`: the case lines joined by `\n`, no newline at the end. Read back line
      by line, it gives the pieces of every case line in order, and exactly one numbered
      line per case when no title or description has a line break. */
  function CaseSummary(cases: seq<ScoredCase>): (summary: string)
    ensures |cases| > 0 ==> Split(summary, '\n') == SplitEach(CaseLines(cases), '\n')
    ensures |cases| > 0 && (forall i :: 0 <= i < |cases| ==> LineFree(Unscored(cases[i]))) ==>
      Split(summary, '\n') == CaseLines(cases)
    ensures cases == [] <==> summary == ""
  {
    CaseLinesReadBack(cases);
    Join(CaseLines(cases), "\n")
  }

  /** The joined case lines are empty only for no cases, and split back into the lines
      when no case has a line break. */
  lemma CaseLinesReadBack(cases: seq<ScoredCase>)
    ensures cases == [] <==> Join(CaseLines(cases), "\n") == ""
    ensures |cases| > 0 ==> Split(Join(CaseLines(cases), "\n"), '\n') == SplitEach(CaseLines(cases), '\n')
    ensures |cases| > 0 && (forall i :: 0 <= i < |cases| ==> LineFree(Unscored(cases[i]))) ==>
      Split(Join(CaseLines(cases), "\n"), '\n') == CaseLines(cases)
  {
    var lines := CaseLines(cases);
    if |cases| > 0 {
      SplitOfJoin(lines, '\n');
      JoinNonEmpty(lines, "\n");
      if forall i :: 0 <= i < |cases| ==> LineFree(Unscored(cases[i])) {
        forall i | 0 <= i < |lines| ensures '\n' !in lines[i] {
          LineBreakFree(i, cases[i]);
        }
        SplitJoin(lines, '\n');
      }
    }
  }

  lemma LineBreakFree(idx: nat, c: ScoredCase)
    requires LineFree(Unscored(c))
    ensures '\n' !in CaseLine(idx, c)
  {
    var digits := NatToString(idx + 1);
    assert forall i :: 0 <= i < |digits| ==> IsDigit(digits[i]);
  }

  /** Joining lines whose first one is not empty gives a non-empty text. */
  lemma {:induction false} JoinNonEmpty(lines: seq<string>, sep: string)
    requires |lines| > 0 && lines[0] != ""
    ensures Join(lines, sep) != "" && Join(lines, sep)[0] == lines[0][0]
  {
  }

  /** The fixed improvement proposals of the report. */
  const Proposals := "【改善提案】\n・本質安全: 設備の絶縁・防水強化\n・作業手順: 電源遮断と作業許可制\n・教育: 感電防止教育\n・保護具: 絶縁用具の使用\n・設備: 漏電ブレーカー設置\n・点検: 定期的な電気系統点検の実施"

  /** The fixed legal requirement shown with every report. */
  const LegalRequirement := "【法的要求事項】\n安衛則 第333条「漏電による感電の危険を防止するため、漏電遮断装置を接続しなければならない」"

  const CasesHeading := "【関連災害事例】"

  const HazardHeading := "【洗い出し内容】"

  /** `report`: the two inputs under their headings, then the proposals. */
  function Report(hazard: string, risk: string): string {
    HazardHeading + "\n" + hazard + "\n" + RiskSection(risk)
  }

  /** The part of `report` after the `hazard` line. */
  function RiskSection(risk: string): string {
    "\n【危険状況】\n" + risk + "\n\n" + Proposals
  }

  /** Everything of the full report before the line break that starts the cases. */
  function ReportHead(hazard: string, risk: string): string {
    Report(hazard, risk) + "\n\n" + LegalRequirement + "\n\n" + CasesHeading
  }

  /** No case of the catalog contains a line break. */
  predicate LineFreeCatalog(cases: seq<DisasterCase>) {
    forall i :: 0 <= i < |cases| ==> LineFree(cases[i])
  }

  /** Two texts joined by a line break: its lines are the lines of the first text followed
      by the lines of the second. */
  function JoinLines(head: string, tail: string): (text: string)
    ensures Split(text, '\n') == Split(head, '\n') + Split(tail, '\n')
  {
    SplitAppend(head, tail, '\n');
    assert head + "\n" + tail == head + ['\n'] + tail;
    head + "\n" + tail
  }

  /** `fullReport` built by `handleDetailedReport`, for a given catalog: the lines of the
      fixed head, then the lines of the case summary. */
  function FullReport(cases: seq<DisasterCase>, hazard: string, risk: string): (report: string)
    ensures Split(report, '\n') ==
      Split(ReportHead(hazard, risk), '\n') + Split(CaseSummary(Top3(cases, hazard, risk)), '\n')
  {
    JoinLines(ReportHead(hazard, risk), CaseSummary(Top3(cases, hazard, risk)))
  }

  /** For a catalog without line breaks, the report's last lines are the numbered case
      lines, one per returned case, whatever the inputs contain. */
  lemma FullReportEndsWithCases(cases: seq<DisasterCase>, hazard: string, risk: string)
    requires LineFreeCatalog(cases)
    ensures var lines := Split(FullReport(cases, hazard, risk), '\n');
      var top := Top3(cases, hazard, risk);
      |lines| >= |top| && lines[|lines| - |top|..] == CaseLines(top)
  {
    var top := Top3(cases, hazard, risk);
    if |top| > 0 {
      TopLineFree(cases, hazard, risk);
      var lines := Split(ReportHead(hazard, risk), '\n') + CaseLines(top);
      assert lines[|lines| - |top|..] == CaseLines(top);
    }
  }

  /** `fullReport` with the built-in catalog: its last three lines are the numbered
      lines of the three cases the lookup returns, whatever the inputs contain. */
  function DetailedReport(hazard: string, risk: string): (report: string)
    ensures var lines := Split(report, '\n');
      |lines| >= TopCount && lines[|lines| - TopCount..] == CaseLines(GetTop3SimilarCases(hazard, risk))
  {
    CatalogLineFree();
    FullReportEndsWithCases(DisasterCases, hazard, risk);
    FullReport(DisasterCases, hazard, risk)
  }

  /** No text of the built-in catalog contains a line break. */
  lemma CatalogLineFree()
    ensures LineFreeCatalog(DisasterCases)
  {
    Case1LineFree();
    Case2LineFree();
    Case3LineFree();
    Case4LineFree();
    Case5LineFree();
  }

  lemma Case1LineFree() ensures LineFree(DisasterCases[0]) { CaseLineFree(DisasterCases[0]); }
  lemma Case2LineFree() ensures LineFree(DisasterCases[1]) { CaseLineFree(DisasterCases[1]); }
  lemma Case3LineFree() ensures LineFree(DisasterCases[2]) { CaseLineFree(DisasterCases[2]); }
  lemma Case4LineFree() ensures LineFree(DisasterCases[3]) { CaseLineFree(DisasterCases[3]); }
  lemma Case5LineFree() ensures LineFree(DisasterCases[4]) { CaseLineFree(DisasterCases[4]); }

  /** A case whose characters are all other than a line break has no line break. */
  lemma CaseLineFree(c: DisasterCase)
    requires forall k :: 0 <= k < |c.title| ==> c.title[k] != '\n'
    requires forall k :: 0 <= k < |c.description| ==> c.description[k] != '\n'
    ensures LineFree(c)
  {
  }

  /** The cases the lookup returns come from the catalog, so they are line-free when the
      catalog is. */
  lemma TopLineFree(cases: seq<DisasterCase>, hazard: string, risk: string)
    requires LineFreeCatalog(cases)
    ensures forall i :: 0 <= i < |Top3(cases, hazard, risk)| ==> LineFree(Unscored(Top3(cases, hazard, risk)[i]))
  {
    var top := Top3(cases, hazard, risk);
    forall i | 0 <= i < |top| ensures LineFree(Unscored(top[i])) {
      var c := Unscored(top[i]);
      assert c in cases;
    }
  }

  /** Two single lines followed by anything split into those two lines first. */
  lemma FirstTwoLines(first: string, second: string, rest: string)
    requires '\n' !in first && '\n' !in second
    ensures var lines := Split(first + "\n" + second + "\n" + rest, '\n');
      |lines| >= 2 && lines[0] == first && lines[1] == second
  {
    assert first + "\n" + second + "\n" + rest == first + ['\n'] + (second + ['\n'] + rest);
    SplitAppend(first, second + ['\n'] + rest, '\n');
    SplitAppend(second, rest, '\n');
    SplitNoSeparator(first, '\n');
    SplitNoSeparator(second, '\n');
  }

  lemma ReportShape(hazard: string, risk: string, summary: string)
    ensures ReportHead(hazard, risk) + "\n" + summary == HazardHeading + "\n" + hazard + "\n"
      + (RiskSection(risk) + "\n\n" + LegalRequirement + "\n\n" + CasesHeading + "\n" + summary)
  {
    Reassociate(HazardHeading, hazard, RiskSection(risk), LegalRequirement, CasesHeading, summary);
  }

  lemma Reassociate(a: string, b: string, c: string, d: string, e: string, f: string)
    ensures (a + "\n" + b + "\n" + c) + "\n\n" + d + "\n\n" + e + "\n" + f
      == a + "\n" + b + "\n" + (c + "\n\n" + d + "\n\n" + e + "\n" + f)
  {
  }

  /** The report opens with the heading line and then the `hazard` line, when `hazard`
      is a single line. */
  lemma FullReportStartsWithHazard(cases: seq<DisasterCase>, hazard: string, risk: string)
    requires '\n' !in hazard
    ensures var lines := Split(FullReport(cases, hazard, risk), '\n');
      |lines| >= 2 && lines[0] == HazardHeading && lines[1] == hazard
  {
    HeadStartsWithHazard(hazard, risk, CaseSummary(Top3(cases, hazard, risk)));
  }

  lemma HeadStartsWithHazard(hazard: string, risk: string, summary: string)
    requires '\n' !in hazard
    ensures var lines := Split(ReportHead(hazard, risk) + "\n" + summary, '\n');
      |lines| >= 2 && lines[0] == HazardHeading && lines[1] == hazard
  {
    var rest := RiskSection(risk) + "\n\n" + LegalRequirement + "\n\n" + CasesHeading + "\n" + summary;
    ReportShape(hazard, risk, summary);
    HazardHeadingSingleLine();
    FirstTwoLines(HazardHeading, hazard, rest);
  }

  lemma HazardHeadingSingleLine()
    ensures '\n' !in HazardHeading
  {
  }
}
