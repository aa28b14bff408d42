# MBTI questionnaire scoring — a Dafny model

This project models the core of the MBTI questionnaire server (`server/handlers.go`): how a
test depth selects question tiers, how the answers to a depth's questions become four
dimension scores, how the scores become a four-letter type code and a stored breakdown,
and how the narrative report is requested from the DeepSeek chat-completion service,
falling back to a fixed text on every failure and cleaning up the generated content on
success.

Modules, one per component:

- `Wrappers` — `Option` and `Result`.
- `GoStrings` — the parts of Go's `strings`/`unicode` used by the report: `TrimSpace`
  (with `unicode.IsSpace`), `HasPrefix`, `HasSuffix`, `TrimPrefix`, `TrimRight` with a
  cutset, and the decimal formatting of whole values.
- `Catalog` — the test-depth `switch` and the question listing of `GetQuestions`.
- `Scoring` — `CalculateScores` as a method with its two loops, the specification
  function `ScoresOf` it is proved equal to, and the lemmas about `ScoresOf`.
- `Classifier` — `DetermineMBTIType` and the dimension breakdown built in `SaveResult`.
- `Report` — `GenerateReport`: tendency lines, request, response extraction, cleanup,
  fallback.
- `Submission` — `SubmitAnswers`/`SaveResult` composed from the above.

Arithmetic is exact. Go computes each contribution as `float64(k) * (100.0/6.0)`, where
the step `k` is `answer-1` for a forward question and `7-answer` for any other
direction. The model keeps the step `k` (0..6), so a contribution is exactly `100*k/6`
percent. A dimension with step sum `S` over `n` answers scores `(100*S + 3*n) / (6*n)`.
That is `100*S/(6*n)` rounded half up, which is what `math.Round` does for non-negative
values; `Scoring.RoundedAverage` states this property.

The database rows, the environment variables, the result id and the outcome of the HTTP
exchange are parameters. `Report.GenerateReport` takes `attempt: Request -> Exchange`,
which says how the attempt to send a given request ended. The ends it can report are a
serialisation failure, a request-construction failure, a failed call, a failed body read,
or a response with a status and a payload.

Where the code and its comments disagree, the model follows the code:

- Line 307's comment says a score of exactly 50 picks the second letter. The code picks
  the first letter (`>= 50`).
- Lines 220-221 describe reverse questions as `direction=-1`. The code treats every
  direction other than `1` as reverse.
- Line 525's comment asks for text that starts with ```` ```html ```` AND ends with
  ```` ``` ````. The code tests the two ends separately. Its `TrimRight` also removes
  every trailing backtick, not one fence.
- The fallback text is the code's `<type>类型的性格特点是...`.

Two label quirks are kept. The breakdown stores the `EI` score under `I` (RightValue),
while the classifier reads a high `EI` score as `E`. The tendency line names the Right
label when LeftValue is the larger value. `Report.TendencyNamesChosenPole` proves that
the two swaps cancel: every tendency line names the letter the classifier chose.

Recomputing the type code from the same scores always gives the same code. In the model
this holds by construction, because `Classifier.DetermineType` is a function.

## Model

| member | source | states |
|---|---|---|
| `Catalog.TiersFor` | server/handlers.go:168-179 | A known depth selects its own tier and every shallower one, in order ("simple" → [simple], "detailed" → [simple, detailed], "full" → all three). Any other name selects nothing. |
| `Catalog.TiersNested` | server/handlers.go:50-61 | A deeper test's tiers extend a shallower test's tiers. |
| `Catalog.RequestedTiers` | server/handlers.go:44-61 | GetQuestions rejects an empty name as EmptyType and any other unknown name as InvalidType. A known name yields exactly the tiers of `TiersFor`. |
| `Catalog.ListQuestions` | server/handlers.go:43-97 | Returns the validation error first, then a query failure, then a scan failure if any row fails to decode. It succeeds iff the depth is known, the query ran and every row decoded. On success there is one question per row, in row order, carrying the row's id and text and the seven-label scale. |
| `Scoring.Clamp` | server/handlers.go:211-217 | The clamped answer lies in 1..7. Answers already in 1..7 are unchanged; lower answers become 1 and higher answers become 7. |
| `Scoring.Step` | server/handlers.go:219-234 | Every per-question contribution is 0..6 steps, i.e. within [0,100] percent. |
| `Scoring.ClampedAnswersScoreAlike` | server/handlers.go:211-227 | An answer below 1 contributes exactly like 1, and one above 7 exactly like 7. |
| `Scoring.Polarity` | server/handlers.go:219-227 | Forward maps 1→0% and 7→100% with one step per answer point. Reverse maps 1→100% and 7→0%. Forward and reverse contributions of the same answer sum to 100%. |
| `Scoring.RoundedAverage` | server/handlers.go:247-253 | The result is the nearest whole number to the mean `100*S/(6*n)`, with halves rounded up. It lies in [0,100] whenever the step sum is at most a full scale per answer. |
| `Scoring.TallyBounded` | server/handlers.go:229-240 | No dimension accumulates more than 100% per answer counted, so the clamps at lines 229-234 and 248-252 never fire. |
| `Scoring.CalculateScores` | server/handlers.go:163-258 | The two loops (pairing answers with rows and accumulating per-dimension totals in a map, then averaging each entry) compute exactly `ScoresOf`. |
| `Scoring.ContributionsPresent` | server/handlers.go:203-241 | A dimension receives contributions iff one of the scored rows decodes to it. |
| `Scoring.TallyIsSumAndCount` | server/handlers.go:236-240 | The map accumulation holds, for each dimension, the sum and the number of that dimension's contributions, and holds no entry for a dimension without contributions. |
| `Scoring.NoScoresWithoutRows` | server/handlers.go:176-193 | An unknown depth or a failed query yields an empty score map. |
| `Scoring.ScoresPresence` | server/handlers.go:243-257 | A dimension is in the result iff some pair among the first min(answers, rows) has a decoded row with that tag. Nothing else is added. |
| `Scoring.ScoreIsRoundedAverage` | server/handlers.go:243-255 | Each present dimension scores the round-half-up average, in percent, of its own contributions. |
| `Scoring.ScoresInRange` | server/handlers.go:244-255 | Every score lies in [0,100]. |
| `Scoring.TallyAgree` | server/handlers.go:203-241 | Two walks that see the same rows and the same steps produce the same accumulator. |
| `Scoring.ScoresUseOnlyPairedPrefix` | server/handlers.go:203 | Only the first min(len(answers), len(rows)) pairs matter. Extra answers and extra questions are ignored without failing. |
| `Scoring.ScoresIgnoreClamping` | server/handlers.go:211-217 | Clamping every answer beforehand leaves every score unchanged. |
| `Scoring.UndecodableRowConsumesAnswer` | server/handlers.go:203-209 | A row that fails to decode still uses up its answer index. That answer has no effect on any score. |
| `Classifier.DetermineType` | server/handlers.go:305-329 | The result is always one of the 16 codes, one letter of E/I, S/N, T/F, J/P in that order. Per axis it is the first letter iff the score is ≥ 50, so a tie at 50 picks the first letter. An absent axis picks the second letter. |
| `Classifier.TypeIgnoresOtherTags` | server/handlers.go:305-329 | Score entries other than EI, SN, TF and JP do not affect the code. |
| `Classifier.Breakdown` | server/handlers.go:273-278 | The breakdown has exactly four entries in the order E/I, S/N, T/F, J/P. RightValue is the axis score and LeftValue + RightValue = 100. A missing score gives LeftValue 100 and RightValue 0. |
| `Classifier.BreakdownLabelsOppositeToType` | server/handlers.go:273-278 | The code takes an axis's Left letter iff the value stored under its Right label is ≥ 50. |
| `Report.Fallback` | server/handlers.go:336 | The fallback text is the type code followed by the fixed suffix `类型的性格特点是...`. |
| `Report.Tendency` | server/handlers.go:342-347 | The leaning names the Right label with LeftValue when LeftValue is larger, and otherwise the Left label with RightValue, formatted as `偏向<label> (<value>%)`. |
| `Report.Describe` | server/handlers.go:348 | Each tendency line is `<left> vs <right>: ` followed by the entry's leaning. |
| `Report.Join` | server/handlers.go:449 | Joining no parts gives the empty text and joining one part gives that part. Otherwise the result starts with the first part, ends with the last, and is as long as all parts plus one separator between each pair of neighbours. |
| `Report.JoinAppend` | server/handlers.go:449 | Joining two non-empty runs of parts gives the join of the first run, one separator, then the join of the second. Together with the one-part case this fixes every join: the parts in order with the separator between neighbours. |
| `Report.JoinCons` | server/handlers.go:449 | A join of two or more parts is the first part, the separator, then the join of the remaining parts. |
| `Report.Tendencies` | server/handlers.go:340-349 | There is one description line per breakdown entry, in order. |
| `Report.DescribeDimensions` | server/handlers.go:340-349 | The loop that fills the description slice produces exactly `Tendencies`. |
| `Report.TendencyOfEntry` | server/handlers.go:342-347 | For an entry built from an axis score `s`, the leaning names the axis's first letter when `s` ≥ 50 and its second letter otherwise, with the larger of `s` and `100 - s`. |
| `Report.TendencyNamesChosenPole` | server/handlers.go:340-349 | For a stored breakdown, each tendency names the letter the classifier chose, together with the larger of the two values. |
| `Report.TendencyLinesNameChosenPoles` | server/handlers.go:340-349 | Line j of the tendency description of a stored breakdown names both labels of axis j, then the letter the classifier chose for it with the larger value. |
| `Report.BuildRequest` | server/handlers.go:452-490 | The request uses the configured URL and model when set, and the defaults otherwise. It carries the bearer key and a prompt for the type whose tendency text is the tendency lines joined by newlines. |
| `Report.TopLevel` | server/handlers.go:512-517 | Decoding succeeds only for a JSON object, giving its fields, or `null`, giving the empty map. Anything else is a decode failure. |
| `Report.ExtractContentAsWritten` | server/handlers.go:519-536 | As written: content is found iff choices[0].message.content is a string. It panics iff `choices` is a non-empty array whose first element is not an object. |
| `Report.ExtractContent` | server/handlers.go:519-539 | Checked extraction: content is found iff choices[0].message.content is a string. Every other shape counts as missing content. |
| `Report.ExtractionAgreesUnlessPanic` | server/handlers.go:520-522 | The checked extraction agrees with the code as written wherever the code does not panic. |
| `Report.NonObjectChoicePanics` | server/handlers.go:521 | The 200 reply `{"choices": ["x"]}` makes the code as written panic. The checked extraction reports missing content for it. |
| `Report.Cleanup` | server/handlers.go:524-533 | The cleaned content has no leading or trailing white space and is never longer than its input. |
| `Report.Unfence` | server/handlers.go:526-531 | After the leading ```` ```html ```` is dropped, the result is a prefix of what remains. Text that does not end in ```` ``` ```` is kept whole. Text that does loses exactly its trailing backticks, so the result does not end in one. |
| `Report.UnfenceFenced` | server/handlers.go:526-531 | Content of the form ```` ```html ```` + body + a run of three or more backticks unfences to the body, provided the body does not end in a backtick. |
| `Report.FencedContentUnwrapped` | server/handlers.go:524-533 | Fenced content, closed by three or more backticks and surrounded by any white space, cleans up to the trimmed body. |
| `Report.UnfencedContentOnlyTrimmed` | server/handlers.go:524-533 | Content with neither fence is only trimmed. |
| `Report.NoFenceAfterTicks` | server/handlers.go:526 | Appending any run of backticks to a body that does not start with ```` ```html ```` cannot create that prefix. |
| `Report.UnfenceTicks` | server/handlers.go:529-530 | For text that does not start with ```` ```html ```` and ends with ```` ``` ````, every trailing backtick is removed, however many there are (`Report.UnfenceFenced` covers the fenced case). |
| `Report.AllTrailingBackticksRemoved` | server/handlers.go:529-532 | A trimmed body followed by three or more backticks cleans up to the body itself. An empty body gives the empty text. |
| `Report.GenerateReport` | server/handlers.go:331-540 | Without an API key the result is the fallback. Every failure also gives the fallback: serialisation, request, call, read, non-200 status, decode, or missing `choices[0].message.content`. A delivered content is returned after cleanup. It uses the checked extraction (see Findings). |
| `Report.NoKeyNoExchange` | server/handlers.go:333-337 | Without an API key the exchange is never consulted, so any two exchange behaviours give the same report. |
| `Report.ReportTrimmed` | server/handlers.go:524-539 | For a classified type, the report never starts or ends with white space. |
| `GoStrings.IsSpace` | server/handlers.go:524 | On ASCII, the white space is exactly space, tab, newline, vertical tab, form feed and carriage return. |
| `GoStrings.HasPrefixCharacterised` | server/handlers.go:526 | A text has a prefix iff it is at least as long and agrees with it position by position; the text is then the prefix followed by the rest. |
| `GoStrings.HasSuffixCharacterised` | server/handlers.go:529 | A text has a suffix iff it is at least as long and its tail agrees with it position by position; the text is then the rest followed by the suffix. |
| `GoStrings.TrimLeftSpace` | server/handlers.go:524 | Removes exactly the leading run of Unicode white space. |
| `GoStrings.TrimRightSpace` | server/handlers.go:532 | Removes exactly the trailing run of Unicode white space. |
| `GoStrings.TrimSpace` | server/handlers.go:524 | The result has no white space at either end. It is empty iff the input is all white space. |
| `GoStrings.TrimSpaceOfPadded` | server/handlers.go:532 | Trimming white space padded around a trimmed text returns exactly that text. |
| `GoStrings.TrimPrefix` | server/handlers.go:527 | When the prefix is present, prefix + result is the input. Otherwise the input is unchanged. |
| `GoStrings.TrimRight` | server/handlers.go:530 | The cutset form of TrimRight removes the longest trailing run of cutset characters, and only that run. |
| `GoStrings.TrimRightIgnoresCutTail` | server/handlers.go:530 | Cutset characters appended to a text are all removed. |
| `GoStrings.FormatNat` | server/handlers.go:344-346 | Formats a value as a non-empty run of decimal digits with no leading zero. |
| `GoStrings.FormatInt` | server/handlers.go:344-346 | Formats a whole value as `%.0f` does: a minus sign for negatives, then the digits. |
| `GoStrings.ParseFormatNat` | server/handlers.go:344-346 | Reading the formatted digits back gives the original number. |
| `Submission.EffectiveTestType` | server/handlers.go:112-115 | An empty test type becomes "simple". Any other name is kept. |
| `Submission.SaveResult` | server/handlers.go:264-303 | A record is stored iff the insert succeeds. It carries the id, the type classified from the scores, the breakdown of those scores, and the report generated for that type and breakdown. |
| `Submission.SubmitAnswers` | server/handlers.go:100-131 | Defaults the depth, scores the answers with `CalculateScores` and saves exactly the record `SaveResult` builds for those scores. |
| `Submission.SubmittedRecordWellFormed` | server/handlers.go:268-278 | Every saved record has a valid type code and four breakdown entries. Each entry's values are percentages that sum to 100. The type code can be recomputed from the stored breakdown alone. |
| `Submission.NoKeyStoresFallback` | server/handlers.go:280-281 | Without an API key the stored report is exactly the fallback text for the stored type code. |
| `Submission.MidpointTieScenario` | server/handlers.go:305-312 | A single forward E/I question answered 4, with six extra answers and an empty depth, scores exactly 50. The tie gives `ENFP`. |

## Left out

- HTTP transport is not modelled. This covers Gin's `c.Query`, `c.Param` and `c.BindJSON`, the status-code responses, and CORS and routing in `server/main.go`.
- `GetResult` is not modelled: it is a lookup by id plus a JSON decode of the stored dimensions.
- SQL is not modelled. The rows come in as a sequence, already restricted to the depth's tiers and ordered by id.
- The question listing's query (server/handlers.go:63) has no `ORDER BY`, while the scoring query orders by id (server/handlers.go:182). Answers line up with questions only if the store returns both in the same order; the model assumes it does.
- A failure of `sqlx.In` and a failure of `DB.Query` both appear as `QueryFailed`.
- A driver error that ends `rows.Next()` early looks the same as a shorter row sequence.
- The result store is not modelled. The outcome of the insert is the `inserted` parameter.
- `float64` rounding artefacts are left out. The model computes exactly, so it does not capture the float error in `100.0/6.0`. That error can move a mean of exactly .5 below the half. For example, eight answers with steps 0, 0, 0, 3, 6, 1, 6, 2 have mean 37.5; summed in `float64` the mean falls just below 37.5, so Go rounds it to 37 while the model gives 38.
- `json.Marshal` of the request and of the dimensions is not modelled. Serialisation failure is the `MarshalFailed` exchange outcome.
- The generation parameters (temperature 0.5, max_tokens 2500, stream false, both penalties 0.1) are fixed constants. They are not part of `Request`.
- The prompt template is fixed text. `Report.Prompt` holds only its two substitutions: the type code and the tendency lines joined by newlines.
- The five-minute client timeout is not modelled. A timeout during the call is `CallFailed`, and one during the body read (server/handlers.go:500) is `ReadFailed`; both give the fallback.
- Environment lookups are not modelled; the `Env` parameter stands in for them.
- Logging and timing are not modelled.
- `GenerateResultID` reads the wall clock, so the result id is a parameter.
- JSON numbers are kept as their literal text.
- Duplicate object keys are collapsed by the map, as Go keeps the last one.
- Strings are sequences of Unicode code points. Invalid UTF-8 in the generated content is not modelled.
- Concurrency across requests is not modelled: each request is sequential and shares nothing but the store.
- `Submission.SaveResult` and `Submission.SubmitAnswers`: where the code as written panics (see Findings) and stores nothing, the model uses the checked extraction and stores a record with the fallback report.
- Go's `panic` is only partly modelled. The as-written extraction reports it as the `Panics` outcome. What follows in Gin (its recovery middleware answering 500, no record saved) is not modelled.

## Findings

| source | as written | input that shows it | evidently intended | confidence | as-written member | corrected member |
|---|---|---|---|---|---|---|
| server/handlers.go:521 | `choices[0].(map[string]interface{})` is a type assertion without the comma-ok check, unlike every other step of the extraction | a 200 response whose body is `{"choices": ["x"]}` (or `{"choices": [null]}`): the handler panics instead of returning the fallback text, so the submission fails and no result is saved | a first choice that is not an object counts as missing content, and the report falls back like every other malformed response | high; not executed | `Report.ExtractContentAsWritten` (exhibited by `Report.NonObjectChoicePanics`) | `Report.ExtractContent` (used by `Report.GenerateReport`; `Report.ExtractionAgreesUnlessPanic`) |
