# Incident-case matching and summary formatting of the risk report tool

The tool collects two short texts from a user: `hazard` (what was found) and `risk` (the
dangerous situation). It looks up related incident cases and sends a prompt built from
all of this to a language model. This project models the local logic of that pipeline.

The client (`client/src/components/InputPanel.js`) uses a keyword matcher. It splits
`hazard + " " + risk` at every space. Each case of a built-in five-case catalog scores one
point per keyword found in the text `title + " " + description`. A keyword has no space, so
it is found there when it occurs in the title or in the description, and the empty keyword
is found in every case. The cases are stably sorted by descending score and the first
three are kept. The client then prints them as numbered lines at the end of a
fixed-format report.

All three server iterations (`server.js`, `server/server.js`, `server/index.js`) contain
the same filter. It keeps the records whose situation column is non-empty and includes
`hazard`, or whose accident-type column is non-empty and includes `risk`, and takes the
first five. Each kept record becomes one `【事例i】… / 原因: … / 対策: …` line.

The servers differ as follows:

- `server.js` and `server/index.js` use two fixed test records. `server/server.js` loads
  its records from a CSV file.
- `server.js` and `server/server.js` put the summary into their prompt, or the text
  "関連事例情報なし" when nothing matched.
- `server/server.js` adds a law table lookup and a `detailed` length switch.
- `server/index.js` forwards the client's own prompt and does not use the summary it
  computes. It has no fallback text.

Modules:

- `Strings` (strings.dfy): `includes`, `split` on one character, `join`, and decimal
  rendering of a number, with their round trips.
- `Sequences` (sequences.dfy): `slice(0, n)` and the "kept in order" relation.
- `Ranking` (ranking.dfy): scored cases, a stable insertion sort, and taking the top n.
- `InputPanel` (input_panel.dfy): keywords, scoring, top three, and the report text.
- `CaseFilter` (case_filter.dfy): the filter, take-five and summary shared by the servers.
- `Upstream`, `PromptSlots`, `SimpleServer`, `CsvServer`, `RelayServer`: the request
  body, the prompt slots, and one module per server file.

Each server file carries its own copy of the filter and summary code. The three copies
are identical (`server.js:45-52`, `server/server.js:43-50` and `server/index.js:33-40`),
so `CaseFilter` models all three once.
Catalogs are immutable sequences passed in as parameters. No operation can change them,
so "the catalog is unchanged" holds by construction.

The empty-keyword quirk is modelled as written. An empty `hazard` or `risk`, or two spaces
in a row, produce an empty keyword. Every text includes the empty string, so such a
keyword adds one point to every case (`EmptyKeywordAddsOne`, `EmptyRiskScoresAll`). The
same holds in the servers: an empty `hazard` matches every record with a non-empty
situation (`EmptyHazard`).

## Model

| member | source | states |
|---|---|---|
| Strings.Contains | client/src/components/InputPanel.js:24 | `text.includes(k)`: every text includes the empty keyword, and a keyword longer than the text is never found |
| Strings.ContainsIff | client/src/components/InputPanel.js:24 | The `includes` scan succeeds exactly when the keyword occurs at some offset of the text, so the empty keyword is found in every text |
| Strings.Split | client/src/components/InputPanel.js:19 | `split(' ')` returns one more piece than the string has spaces, and no piece contains a space |
| Strings.JoinSplit | client/src/components/InputPanel.js:19 | Joining the split pieces with the separator gives back the original string, so nothing is lost or added |
| Strings.SplitJoin | client/src/components/InputPanel.js:38-40 | Lines without `\n`, joined by `\n` and split again, are returned unchanged (for at least one line) |
| Strings.SplitOfJoin | server/server.js:50 | Whatever the joined strings contain, `join('\n')` split again at `\n` gives the pieces of each string in turn (for at least one string) |
| Strings.NatToString | client/src/components/InputPanel.js:39 | `${idx + 1}` is a non-empty string of digits with no leading zero |
| Strings.ParseNatToString | client/src/components/InputPanel.js:39 | Reading the decimal text of a number gives back that number |
| InputPanel.Keywords | client/src/components/InputPanel.js:19 | Never empty: the keyword count is the spaces in `hazard` and `risk` plus two. Joined with a space, the keywords give back `hazard + " " + risk` |
| InputPanel.EmptyRiskKeyword | client/src/components/InputPanel.js:19 | With an empty `risk`, the keywords are those of `hazard` followed by one empty keyword |
| InputPanel.Score | client/src/components/InputPanel.js:20-26 | A score is between 0 and the number of keywords |
| InputPanel.ScoreAppend | client/src/components/InputPanel.js:22-25 | The score counts keywords with repetition: the score for two keyword lists together is the sum of their scores |
| InputPanel.EmptyKeywordAddsOne | client/src/components/InputPanel.js:24 | One more empty keyword adds exactly one to the score of any text |
| InputPanel.ScoreCase | client/src/components/InputPanel.js:21-26 | The `forEach` counting loop keeps the case's title and description and returns the keyword-hit count of `title + " " + description` |
| InputPanel.ScoreAll | client/src/components/InputPanel.js:20-27 | `disasterCases.map(...)` keeps the catalog's length and order. Entry i is case i with its own keyword score |
| InputPanel.ScoredFromCatalog | client/src/components/InputPanel.js:20-26 | Every scored entry is a catalog case with only its own score added |
| InputPanel.Top3 | client/src/components/InputPanel.js:18-29 | Returns min(3, catalog size) cases, zero scores included. Scores never increase down the list. Each entry is a catalog case with its correct score, and no case appears more often than in the catalog. For every score, the entries with that score are the first such cases in catalog order |
| InputPanel.Top3KeepsHighest | client/src/components/InputPanel.js:28 | No catalog case left out of the top three scores higher than a case that was kept |
| InputPanel.Top3IsAnyStableSort | client/src/components/InputPanel.js:28 | Any descending stable sort of the scored catalog, such as the engine's, gives the same first three cases |
| InputPanel.EmptyRiskScoresAll | client/src/components/InputPanel.js:19-26 | With an empty `risk`, every case scores exactly one more than it scores for `hazard` alone, so at least one |
| InputPanel.GetTop3SimilarCases | client/src/components/InputPanel.js:5-29 | On the built-in five-case catalog, exactly three cases are always returned, whatever the inputs |
| InputPanel.CaseLine | client/src/components/InputPanel.js:39 | A case line starts with the decimal text of idx + 1 and ends with `（description）` |
| InputPanel.CaseLineNumber | client/src/components/InputPanel.js:38-40 | Each summary line starts with the number idx + 1, followed by `. title（description）` |
| InputPanel.CaseSummary | client/src/components/InputPanel.js:38-40 | The summary is empty exactly when there are no cases. Otherwise, split at `\n`, it gives the pieces of every numbered case line in order, which fixes the summary for any case text. For cases without line breaks, this is exactly one numbered line per case, with no trailing newline |
| InputPanel.FullReport | client/src/components/InputPanel.js:42 | Read line by line, `fullReport` is the lines of the fixed head (report, legal requirement, case heading) followed by the lines of the case summary |
| InputPanel.FullReportEndsWithCases | client/src/components/InputPanel.js:42 | For any catalog without line breaks, empty included, the report's last lines are the case lines, one per returned case, whatever `hazard` and `risk` contain |
| InputPanel.CatalogLineFree | client/src/components/InputPanel.js:5-11 | No title or description of the built-in five-case catalog contains a line break |
| InputPanel.DetailedReport | client/src/components/InputPanel.js:31-43 | The last three lines of the report `handleDetailedReport` builds are the numbered lines of the three cases the lookup returns, whatever the inputs contain |
| InputPanel.FullReportStartsWithHazard | client/src/components/InputPanel.js:32-42 | The report's first line is the `【洗い出し内容】` heading and its second line is `hazard`, when `hazard` has no line break |
| Ranking.InsertStable | client/src/components/InputPanel.js:28 | Inserting a case keeps it ahead of every other case with the same score |
| Ranking.SortByScore | client/src/components/InputPanel.js:28 | The sort returns a permutation of its input with non-increasing scores. For every score, the cases with that score keep their input order |
| Ranking.StableSortUnique | client/src/components/InputPanel.js:28 | Two descending sequences that agree on the cases of every score are equal, so the stable sort's result is unique |
| Ranking.TopN | client/src/components/InputPanel.js:28 | `sort(...).slice(0, n)` returns min(n, size) cases, sorted and drawn from the input. For every score, they are a prefix of the input's cases with that score |
| Ranking.TopNKeepsHighest | client/src/components/InputPanel.js:28 | An input case left out of the first n scores no higher than any case kept |
| Sequences.Take | server.js:48 | `slice(0, n)` returns a prefix of length min(n, size) |
| CaseFilter.Matches | server.js:45-47 | A record matches only through a non-empty situation at least as long as `hazard` or a non-empty category at least as long as `risk`. With an empty `hazard`, any record with a non-empty situation matches |
| CaseFilter.Filter | server.js:45-47 | A record is kept exactly when it is in the database and either its situation is non-empty and includes `hazard`, or its category is non-empty and includes `risk` |
| CaseFilter.FilterCounts | server.js:45-47 | Row by row: every copy of a matching record is kept, duplicates included, and no copy of any other record |
| CaseFilter.FilterAppend | server/index.js:33-35 | The filter decides record by record: filtering two database parts one after the other gives the filter of the whole |
| CaseFilter.FilterIsSubsequence | server.js:45-47 | The filtered records keep database order: they are the database with some records left out |
| CaseFilter.MatchedCases | server/server.js:43-46 | At most five records, all matching and in database order. If fewer than five, the result is the whole filter result, so every matching row is included |
| CaseFilter.MatchedCasesArePrefixMatches | server.js:45-48 | The matched list is exactly the matching records of some prefix of the database. That prefix is the whole database unless five were already found |
| CaseFilter.EmptyHazard | server.js:46-47 | With an empty `hazard`, a record matches exactly when its situation is non-empty or its category is non-empty and includes `risk` |
| CaseFilter.FalsyFieldNeverMatches | server/index.js:33-35 | A missing or empty column never makes a record match. The record can match only through its other column |
| CaseFilter.SummaryLine | server.js:51 | A summary line starts with `【事例` and ends with the mitigation column as rendered, `undefined` for a missing one |
| CaseFilter.SummaryLineNumber | server.js:50-52 | Each summary line starts with `【事例` and the number i + 1. After the number comes exactly `】`, the situation, ` / 原因: `, the cause, ` / 対策: ` and the mitigation, with `undefined` for a missing column |
| CaseFilter.RelatedCasesSummary | server/server.js:48-50 | The summary is empty exactly when nothing matched. Otherwise, split at `\n`, it gives the pieces of every `【事例i】… / 原因: … / 対策: …` line in order, which fixes the summary even when a quoted CSV field holds a line break. For records without line breaks, this is exactly one line per match |
| CaseFilter.CasesSectionFallback | server.js:63 | The prompt's case section is "関連事例情報なし" exactly when nothing matched, and is the summary otherwise |
| SimpleServer.ReportSlots | server.js:41-63 | Fills the prompt with the fixed law text, `hazard` and `risk`, and the case section. It uses the fallback exactly when nothing matched and has no length instruction |
| SimpleServer.TestDataUncapped | server.js:29-32 | On the two built-in test records the five-record cap never applies: every matching record is used |
| SimpleServer.DetailedIgnored | server.js:42 | `detailed` is read but has no effect on the prompt |
| CsvServer.LawFor | server/server.js:28-53 | A `hazard` that is a table key gets that key's entry: Article 20 with its content for "コンベヤー", Article 21 with its content for "足場". Every other `hazard` gets `{article: "なし", content: "関連情報なし"}` |
| CsvServer.LengthPhrase | server/server.js:58 | "【300文字程度ずつ】" exactly when `detailed` is true, "【150文字程度ずつ】" exactly when it is false |
| CsvServer.ReportSlots | server/server.js:39-69 | The prompt has a length phrase chosen by `detailed`. The law is the table entry for a key `hazard` and the placeholder exactly when `hazard` is not a key. The case section is the fallback exactly when nothing matched, and the summary otherwise |
| Upstream.CompletionRequestCarriesPrompt | server/index.js:52-56 | The request has exactly one message, which carries the prompt unchanged. Different prompts give different requests |
| RelayServer.Handle | server/index.js:29-54 | The upstream request carries the client's `prompt` exactly. The computed summary is empty exactly when nothing matched |
| RelayServer.UpstreamIgnoresCases | server/index.js:33-54 | The database, `hazard` and `risk` make no difference to what is sent upstream |

## Left out

- HTTP plumbing is not modelled: Express routing, CORS, static files and `app.listen`. It has no logic to state.
- The upstream call is not modelled: the `fetch` to the chat-completion service, JSON parsing, `trim` of the reply, and the two 500-error branches. This is network I/O to an opaque service. Only the request body is modelled (`Upstream`).
- CSV loading in `server/server.js:17-25` is not modelled. It streams asynchronously into a mutable global. The database is a parameter instead, an immutable sequence of records.
- React state, JSX rendering and `client/src/index.js` are not modelled: they are UI. The form's `hazard` and `risk` become function parameters.
- The prompt templates are kept only as their slots (`PromptSlots.Slots`): the law, `hazard`, `risk`, the case section and the length phrase. The surrounding wording is product text.
- Strings are sequences of Unicode code points. JavaScript's UTF-16 code units only differ outside the Basic Multilingual Plane, and none of the fixed texts are there.
- Non-string `hazard`, `risk`, `detailed` or `prompt` values are not modelled. For example, `includes(undefined)` searches for "undefined". `detailed` is a boolean, not any JSON value tested for truthiness. `prompt` is a string: when it is absent, `JSON.stringify` drops `content` from the message, which `RelayServer.Handle` does not express.
- CsvServer.LawFor: treats every key outside the two table entries as absent. In JavaScript, inherited object keys such as "constructor" would return a truthy function, and the prompt would show "undefined: undefined". This is not modelled.
