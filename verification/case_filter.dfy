/** The related-case extraction that server.js, server/server.js and server/index.js each
    carry in identical form: keep the records whose situation is non-empty and includes
    `hazard`, or whose accident type is non-empty and includes `risk`, take the first five,
    and render one summary line each. */
module CaseFilter {
  import opened Strings
  import opened Sequences

  /** A column of a record: absent from the row, or present as text (possibly empty). */
  datatype Field = Missing | Value(text: string)

  /** A row of the incident database, keyed in the source by the column headings
      `発生状況` (situation), `原因` (cause), `対策` (mitigation) and
      `災害の種類(事故の型)` (category). */
  datatype IncidentRecord = IncidentRecord(
    situation: Field, cause: Field, mitigation: Field, category: Field)

  /** JavaScript truthiness of a column: present and not the empty string. */
  predicate Truthy(f: Field) {
    f.Value? && f.text != ""
  }

  /** `d[key] && d[key].includes(needle)`. */
  predicate FieldIncludes(f: Field, needle: string) {
    Truthy(f) && Contains(f.text, needle)
  }

  /** The filter callback of `disasterData.filter(...)`. */
  function Matches(d: IncidentRecord, hazard: string, risk: string): (m: bool)
    ensures m ==> ((Truthy(d.situation) && |hazard| <= |d.situation.text|) ||
                   (Truthy(d.category) && |risk| <= |d.category.text|))
    ensures Truthy(d.situation) && hazard == "" ==> m
  {
    FieldIncludes(d.situation, hazard) || FieldIncludes(d.category, risk)
  }

  /** `disasterData.filter(...)`: the matching records in database order. */
  function Filter(data: seq<IncidentRecord>, hazard: string, risk: string): (r: seq<IncidentRecord>)
    ensures |r| <= |data|
    ensures forall d :: d in r <==> d in data && Matches(d, hazard, risk)
    decreases |data|
  {
    if |data| == 0 then []
    else (if Matches(data[0], hazard, risk) then [data[0]] else []) + Filter(data[1..], hazard, risk)
  }

  /** The filter keeps every copy of a matching row, duplicates included, and no copy of
      any other row. */
  lemma {:induction false} FilterCounts(data: seq<IncidentRecord>, hazard: string, risk: string)
    ensures forall d :: (multiset(Filter(data, hazard, risk))[d] ==
      if Matches(d, hazard, risk) then multiset(data)[d] else 0)
    decreases |data|
  {
    if |data| > 0 {
      FilterCounts(data[1..], hazard, risk);
      assert data == [data[0]] + data[1..];
    }
  }

  /** The filter works record by record: filtering a concatenation filters each part. */
  lemma {:induction false} FilterAppend(a: seq<IncidentRecord>, b: seq<IncidentRecord>, hazard: string, risk: string)
    ensures Filter(a + b, hazard, risk) == Filter(a, hazard, risk) + Filter(b, hazard, risk)
    decreases |a|
  {
    if |a| == 0 {
      assert a + b == b;
    } else {
      assert (a + b)[1..] == a[1..] + b;
      FilterAppend(a[1..], b, hazard, risk);
    }
  }

  lemma {:induction false} FilterIsSubsequence(data: seq<IncidentRecord>, hazard: string, risk: string)
    ensures IsSubsequence(Filter(data, hazard, risk), data)
    decreases |data|
  {
    if |data| > 0 {
      FilterIsSubsequence(data[1..], hazard, risk);
      var rest := Filter(data[1..], hazard, risk);
      if Matches(data[0], hazard, risk) {
        assert Filter(data, hazard, risk) == [data[0]] + rest;
        assert ([data[0]] + rest)[1..] == rest;
      } else {
        assert Filter(data, hazard, risk) == rest;
      }
    }
  }

  /** At most this many related cases are extracted. */
  const MaxMatches: nat := 5

  /** `matchedCases`: the first five records that match, in database order. */
  function MatchedCases(data: seq<IncidentRecord>, hazard: string, risk: string): (r: seq<IncidentRecord>)
    ensures |r| <= MaxMatches
    ensures IsSubsequence(r, data)
    ensures forall d :: d in r ==> Matches(d, hazard, risk)
    ensures |r| < MaxMatches ==> r == Filter(data, hazard, risk)
    ensures |r| < MaxMatches ==> forall d :: d in data && Matches(d, hazard, risk) ==> d in r
  {
    var all := Filter(data, hazard, risk);
    FilterIsSubsequence(data, hazard, risk);
    PrefixIsSubsequence(Take(all, MaxMatches), all, data);
    Take(all, MaxMatches)
  }

  /** The matched cases are exactly the matching records of a prefix of the database,
      and that prefix is the whole database unless five were found before its end. */
  lemma {:induction false} MatchedCasesArePrefixMatches(data: seq<IncidentRecord>, hazard: string, risk: string)
    ensures exists j :: (0 <= j <= |data| &&
      MatchedCases(data, hazard, risk) == Filter(data[..j], hazard, risk) &&
      (j < |data| ==> |MatchedCases(data, hazard, risk)| == MaxMatches))
    decreases |data|
  {
    var all := Filter(data, hazard, risk);
    if |all| <= MaxMatches {
      assert data[..|data|] == data;
      assert MatchedCases(data, hazard, risk) == Filter(data[..|data|], hazard, risk);
    } else {
      var init := data[..|data| - 1];
      assert data == init + [data[|data| - 1]];
      FilterDropLast(init, data[|data| - 1], hazard, risk);
      MatchedCasesArePrefixMatches(init, hazard, risk);
      var j :| 0 <= j <= |init| &&
        MatchedCases(init, hazard, risk) == Filter(init[..j], hazard, risk) &&
        (j < |init| ==> |MatchedCases(init, hazard, risk)| == MaxMatches);
      assert init[..j] == data[..j];
      assert j < |data|;
    }
  }

  /** Once five records of `init` match, one more record does not change the first five. */
  lemma FilterDropLast(init: seq<IncidentRecord>, last: IncidentRecord, hazard: string, risk: string)
    requires |Filter(init + [last], hazard, risk)| > MaxMatches
    ensures |Filter(init, hazard, risk)| >= MaxMatches
    ensures Take(Filter(init + [last], hazard, risk), MaxMatches) == Take(Filter(init, hazard, risk), MaxMatches)
  {
    FilterAppend(init, [last], hazard, risk);
    assert |Filter([last], hazard, risk)| <= 1;
  }

  /** With an empty `hazard` every record with a non-empty situation matches, since every
      text includes the empty string; a record whose situation is missing or empty can
      match only through its category. */
  lemma EmptyHazard(d: IncidentRecord, risk: string)
    ensures Matches(d, "", risk) <==> Truthy(d.situation) || FieldIncludes(d.category, risk)
  {
    if Truthy(d.situation) {
      assert d.situation.text[..0] == "";
    }
  }

  /** A field that is missing or empty never makes a record match. */
  lemma FalsyFieldNeverMatches(d: IncidentRecord, hazard: string, risk: string)
    ensures !Truthy(d.situation) ==> (Matches(d, hazard, risk) <==> FieldIncludes(d.category, risk))
    ensures !Truthy(d.category) ==> (Matches(d, hazard, risk) <==> FieldIncludes(d.situation, hazard))
  {
  }

  /** `${d[key]}` in a template literal: a missing column renders as "undefined". */
  function Display(f: Field): string {
    match f
    case Missing => "undefined"
    case Value(t) => t
  }

  /** `】${situation} / 原因: ${cause} / 対策: ${mitigation}`: what follows the number. */
  function SummaryTail(d: IncidentRecord): (tail: string)
    ensures |tail| > 0 && !IsDigit(tail[0])
  {
    "】" + Display(d.situation) + " / 原因: " + Display(d.cause) + " / 対策: " + Display(d.mitigation)
  }

  /** `【事例${i + 1}】${situation} / 原因: ${cause} / 対策: ${mitigation}` */
  function SummaryLine(i: nat, d: IncidentRecord): (line: string)
    ensures |line| > 3 && line[..3] == "【事例"
    ensures |line| >= |Display(d.mitigation)| &&
      line[|line| - |Display(d.mitigation)|..] == Display(d.mitigation)
  {
    "【事例" + NatToString(i + 1) + SummaryTail(d)
  }

  /** Each summary line starts with "【事例", its 1-based position and "】", followed by
      the situation, cause and mitigation columns in that order. */
  lemma SummaryLineNumber(i: nat, d: IncidentRecord)
    ensures |SummaryLine(i, d)| > 3 && SummaryLine(i, d)[..3] == "【事例"
    ensures var digits := LeadingDigits(SummaryLine(i, d)[3..]);
      ParseNat(digits) == i + 1 && 3 + |digits| < |SummaryLine(i, d)| &&
      SummaryLine(i, d)[3 + |digits|] == '】'
    ensures var digits := LeadingDigits(SummaryLine(i, d)[3..]);
      3 + |digits| <= |SummaryLine(i, d)| &&
      SummaryLine(i, d)[3 + |digits|..] == "】" + Display(d.situation)
        + " / 原因: " + Display(d.cause) + " / 対策: " + Display(d.mitigation)
  {
    TextAfterNumber("【事例", i + 1, SummaryTail(d));
    ParseNatToString(i + 1);
  }

  /** In `prefix + n + rest`, where `rest` does not start with a digit, the digits after
      the prefix are exactly those of `n` and `rest` follows them. */
  lemma TextAfterNumber(prefix: string, n: nat, rest: string)
    requires rest == [] || !IsDigit(rest[0])
    ensures var t := prefix + NatToString(n) + rest;
      var digits := LeadingDigits(t[|prefix|..]);
      digits == NatToString(n) && |prefix| + |digits| <= |t| && t[|prefix| + |digits|..] == rest
  {
    var t := prefix + NatToString(n) + rest;
    assert t[|prefix|..] == NatToString(n) + rest;
    LeadingDigitsOf(NatToString(n), rest);
    assert t[|prefix| + |NatToString(n)|..] == rest;
  }

  function SummaryLines(matched: seq<IncidentRecord>): (lines: seq<string>)
    ensures |lines| == |matched|
    ensures forall i :: 0 <= i < |matched| ==> lines[i] == SummaryLine(i, matched[i])
  {
    seq(|matched|, i requires 0 <= i < |matched| => SummaryLine(i, matched[i]))
  }

  /** The rendered columns contain no line break. */
  predicate SingleLine(d: IncidentRecord) {
    '\n' !in Display(d.situation) && '\n' !in Display(d.cause) && '\n' !in Display(d.mitigation)
  }

  lemma SummaryLineSingle(i: nat, d: IncidentRecord)
    requires SingleLine(d)
    ensures '\n' !in SummaryLine(i, d)
  {
    var digits := NatToString(i + 1);
    assert forall k :: 0 <= k < |digits| ==> IsDigit(digits[k]);
  }

  /** `relatedCasesSummary`: the summary lines joined by `\n`. It is empty exactly when
      nothing matched. Read back line by line it gives the pieces of every summary line in
      order, and exactly one line per matched case when no column has a line break. */
  function RelatedCasesSummary(matched: seq<IncidentRecord>): (summary: string)
    ensures summary == "" <==> matched == []
    ensures |matched| > 0 ==> Split(summary, '\n') == SplitEach(SummaryLines(matched), '\n')
    ensures |matched| > 0 && (forall i :: 0 <= i < |matched| ==> SingleLine(matched[i])) ==>
      Split(summary, '\n') == SummaryLines(matched)
  {
    SummaryLinesReadBack(matched);
    Join(SummaryLines(matched), "\n")
  }

  /** The joined summary lines are empty only when nothing matched, and split back into
      the lines when no record has a line break. */
  lemma SummaryLinesReadBack(matched: seq<IncidentRecord>)
    ensures matched == [] <==> Join(SummaryLines(matched), "\n") == ""
    ensures |matched| > 0 ==>
      Split(Join(SummaryLines(matched), "\n"), '\n') == SplitEach(SummaryLines(matched), '\n')
    ensures |matched| > 0 && (forall i :: 0 <= i < |matched| ==> SingleLine(matched[i])) ==>
      Split(Join(SummaryLines(matched), "\n"), '\n') == SummaryLines(matched)
  {
    var lines := SummaryLines(matched);
    if |matched| > 0 {
      SplitOfJoin(lines, '\n');
      if |lines| > 1 {
        assert Join(lines, "\n") == lines[0] + "\n" + Join(lines[1..], "\n");
      }
      if forall i :: 0 <= i < |matched| ==> SingleLine(matched[i]) {
        forall i | 0 <= i < |lines| ensures '\n' !in lines[i] {
          SummaryLineSingle(i, matched[i]);
        }
        SplitJoin(lines, '\n');
      }
    }
  }

  /** What the prompt shows when the summary is empty. */
  const NoCasesFallback := "関連事例情報なし"

  /** `relatedCasesSummary || "関連事例情報なし"` */
  function CasesSection(summary: string): string {
    if summary == "" then NoCasesFallback else summary
  }

  /** The prompt's case section is the fallback text exactly when no case matched;
      otherwise it is the summary itself. */
  lemma CasesSectionFallback(matched: seq<IncidentRecord>)
    ensures CasesSection(RelatedCasesSummary(matched)) == NoCasesFallback <==> matched == []
    ensures matched != [] ==> CasesSection(RelatedCasesSummary(matched)) == RelatedCasesSummary(matched)
  {
    if matched != [] {
      var lines := SummaryLines(matched);
      var summary := RelatedCasesSummary(matched);
      assert summary[0] == '【' by {
        if |lines| > 1 {
          assert summary == lines[0] + "\n" + Join(lines[1..], "\n");
        }
      }
    }
  }
}
