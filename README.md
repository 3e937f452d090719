# Filtered form responses — a Dafny model

This project models the core of a small HTTP proxy. The proxy answers
`GET /{formId}/filteredResponses` by doing five things:

- It reads the client's `filter` query parameter: a JSON list of clauses, each
  naming a question id, a condition and a value.
- It fetches every submission of the form from the upstream form-submission
  API, page by page, moving `offset` forward in steps of 150. It asks for
  `limit=150` only when the client gave a limit; otherwise upstream uses its
  own default page size while the offset still moves in steps of 150.
- It keeps the submissions the clauses accept.
- It cuts out the page the client asked for with its own `limit` and `offset`.
- It recounts the pages for that limit.

All of it lives in `lib/index.ts`. The model has one module per part:

- `Wrappers`: `Option` and `Result`. A `Failure` stands for a JavaScript
  exception that is thrown and not caught.
- `JsValues`: the JavaScript semantics the service relies on.
  - `Number(text)` is `StringToNumber`.
  - `n.toString()` for whole numbers is `NatToString`.
  - String `<` is `StringLess`.
- `Types`: the records of `types/index.ts` and the service's error messages.
- `Sequences`: the subsequence relation.
- `Filter`: the filter itself.
  - `makeBothNumbersOrStrings` and the comparison of one clause.
  - The per-submission loop as written, as the method `IsKept`, specified
    by `Verdict`.
  - The corrected per-submission loop (see "Findings"), as the method
    `IsKeptConjunctive`, specified by `ConjunctiveVerdict`.
  - The filtering of the whole list, as the method `FilterResponses`,
    specified by `FilterSpec`, lodash `filter` with a callback that may
    throw. A flag `corrected` picks the callback (`Callback`): `false` is the
    loop as written, `true` the corrected loop.
- `FilterProperties`: the properties of the filter, and the finding below.
- `UrlParams`: `URLSearchParams` as a class whose `entries` list is changed in
  place by `Append` and `Set`. `SetEntry` specifies `set`.
- `Request`: `getFilloutUrlSearchParamsFromRequest`. It produces the client's
  effective limit and offset, and the parameter list sent upstream
  (`UpstreamEntries`).
- `Upstream`: `getAllResponses`, a `while` loop that moves `offset` forward.
  - The answers the loop receives are specified by `Pages`.
  - The submissions it gathers from them are specified by `Collect`.
- `Pagination`: `slice`, and the page-count expression, on finite numbers.
- `Service`: `getFilteredResponseBody`, which puts the parts together. It
  takes the same `corrected` flag: with `false` it answers as the code does,
  with `true` as the code would with the fix under "Findings".

The outside world becomes parameters:

- The upstream request is a function `fetch(formId, entries)`. It gives back
  the decoded body or the error raised on the way.
- `JSON.parse` of the filter text is a function `parseFilter(text)`.

Numbers are exact reals, and a JavaScript number is `NaN | Num(real)`.

The upstream request carries `limit=150` and `offset=0` only when the client
gave a limit or an offset (`lib/index.ts:108`, `lib/index.ts:116`). This is what
the comments at `lib/index.ts:106-107` and `lib/index.ts:114-115` intend: the
service always asks upstream for its default page size and for all the data,
and applies the client's limit and offset after filtering. Before every request
the page loop sets `offset` itself (`lib/index.ts:150`). When the client gave no
limit, no limit is sent, so every submission is fetched only if upstream's
default page size is 150, the step by which the loop moves `offset`. See
`Request.UpstreamEntriesForwarding` and `Upstream.RequestForPage`.

## Model

| member | source | states |
|---|---|---|
| JsValues.StringToNumber | lib/index.ts:24-25 | `Number` of a blank or all-whitespace text is 0 |
| JsValues.NumberIgnoresSurroundingWhitespace | lib/index.ts:24-25 | whitespace (every ECMAScript WhiteSpace and LineTerminator) added before or after a text does not change what `Number` reads |
| JsValues.NumberOfNegatedNat | lib/index.ts:24-25 | a minus sign before a whole number's decimal text reads as its negation |
| JsValues.IdeographicSpaceIsIgnored | lib/index.ts:24-25 | U+3000 alone reads as 0, and around "5" it is ignored, so the text reads as 5 |
| JsValues.NumberOfDecimalFraction | lib/index.ts:24-25 | digits, a '.' and digits, with a digit on at least one side, read as the whole part plus the fraction's digits over the matching power of ten |
| JsValues.OneAndAHalf | lib/index.ts:24-25 | the text "1.5" reads as 1.5 |
| JsValues.NatToString | lib/index.ts:149-150 | `toString` of a whole number is a non-empty string of decimal digits with no leading zero; `NatToStringValue` and `NumberOfNatToString` show that it denotes the number |
| JsValues.NumberOfNatToString | lib/index.ts:149-150 | the decimal text that `toString` gives for a whole number reads back with `Number` as that same number |
| JsValues.StringLess | lib/index.ts:74-77 | a proper prefix is below the longer string, and no string is below an equal one; its laws as an order are the three rows below |
| JsValues.StringLessIrreflexive | lib/index.ts:74-77 | no string is below itself under JavaScript's `<` |
| JsValues.StringLessAsymmetric | lib/index.ts:74-77 | `a < b` and `b < a` never both hold for strings |
| JsValues.StringLessTotal | lib/index.ts:74-77 | of two different strings, one is below the other |
| Filter.MakeBothNumbersOrStrings | lib/index.ts:15-31 | both values become numbers exactly when either is a number, each converted with `Number`; otherwise both stay the texts they were |
| Filter.Compare | lib/index.ts:66-83 | the comparison fails exactly when the condition is not one of the four known ones, and then with the "condition is not one of …" error |
| Filter.FindQuestion | lib/index.ts:47 | no result exactly when no question has the clause's id; otherwise the first question with that id |
| Filter.EvaluateClause | lib/index.ts:47-83 | a clause stops the loop with `false` exactly when its question is missing or null; it throws exactly when the question is answered and the condition is unknown |
| Filter.IsKept | lib/index.ts:43-87 | the loop over the clauses returns what `Verdict` gives for the submission, errors included |
| Filter.IsKeptConjunctive | lib/index.ts:43-87 | the corrected loop over the clauses returns what `ConjunctiveVerdict` gives: it stops with `false` at the first clause that is missing, null or fails, and with the error at an unknown condition |
| Filter.FilterResponses | lib/index.ts:39-87 | the pass over the submissions, calling the loop as written (or with `corrected` the corrected loop) for each, returns what `FilterSpec` gives for that callback: the kept submissions in order, or the first error |
| FilterProperties.CoercesNumericText | lib/index.ts:21-26 | a numeric text compared with a number is read as a number ("10" against 5 gives 10 against 5) |
| FilterProperties.TextsStayTexts | lib/index.ts:29-30 | two texts are compared as texts, unchanged |
| FilterProperties.EqualsComplementsDoesNotEqual | lib/index.ts:67-72 | "does_not_equal" holds exactly when "equals" does not |
| FilterProperties.GreaterAndLessExclusive | lib/index.ts:73-78 | "greater_than" and "less_than" never both hold |
| FilterProperties.OrderingsAreStrict | lib/index.ts:67-78 | equal values are neither greater nor less |
| FilterProperties.Trichotomy | lib/index.ts:67-78 | when no NaN is involved, values are equal, greater or less |
| FilterProperties.NaNComparesFalse | lib/index.ts:24-25 | once a value reads as NaN, only "does_not_equal" holds |
| FilterProperties.ExcludedStopsTheLoop | lib/index.ts:49-59 | a missing or null question leaves the loop with `false`, whatever clauses follow |
| FilterProperties.UnknownConditionThrows | lib/index.ts:79-82 | an unknown condition on an answered question throws, whatever clauses follow |
| FilterProperties.VerdictIsLastComparison | lib/index.ts:66-86 | when every clause reaches its comparison, the verdict is the last clause's comparison alone |
| FilterProperties.LastClauseOverridesEarlier | lib/index.ts:66-86 | a submission that fails the first clause and passes the second is kept, where the conjunction would reject it |
| FilterProperties.ConjunctiveVerdictIsAnd | types/index.ts:7-8 | the corrected verdict holds exactly when every clause's question is answered and every comparison holds |
| FilterProperties.AtMostOneClauseIsConjunction | lib/index.ts:44-86 | with at most one clause the code's verdict and the corrected one agree |
| FilterProperties.TrueVerdictMeansEveryClauseHolds | types/index.ts:7-8 | a true corrected verdict means every clause's question is answered and its comparison holds |
| FilterProperties.FilterIsSubsequence | lib/index.ts:43 | for any callback, the filtered list is a subsequence of the input: order is kept and nothing is added |
| FilterProperties.NoClausesKeepsEverything | lib/index.ts:44-46 | with no clauses every submission is kept, in order, by the loop as written and by the corrected one |
| FilterProperties.FilterMembership | lib/index.ts:43-87 | for any callback, a submission is in the filtered list exactly when it is in the input and the callback gives `true` for it |
| FilterProperties.KeptSubmissionsSatisfyEveryClause | types/index.ts:7-8 | every submission the corrected filter keeps is from the input, answers every clause's question and satisfies every clause |
| FilterProperties.KeptAsWrittenSatisfiesTheLastClause | lib/index.ts:39-87 | every submission the filter as written keeps, when all its clauses reach a comparison, is from the input and satisfies the last clause |
| FilterProperties.FilterThrowsIffSomeVerdictThrows | lib/index.ts:79-82 | for any callback, filtering throws exactly when the callback throws for some submission; so no submissions never throw |
| FilterProperties.UnknownConditionAfterAFailingClause | lib/index.ts:66-86 | with ["q" equals 2, "q" contains 1] and q = 1, the filter as written throws the unknown-condition error, the corrected one keeps nothing |
| UrlParams.SearchParams.constructor | lib/index.ts:100 | a new parameter list is empty |
| UrlParams.SearchParams.Append | lib/index.ts:108 | `append` adds the pair at the end and changes nothing else |
| UrlParams.SearchParams.Set | lib/index.ts:150 | `set` changes the list to `SetEntry` of the old one |
| UrlParams.SetLeavesOneEntry | lib/index.ts:150 | after `set` exactly one entry has the name, and it carries the new value |
| UrlParams.SetKeepsOtherEntries | lib/index.ts:150 | `set` leaves the entries with other names as they were, in order |
| UrlParams.SetOfAbsentKeyAppends | lib/index.ts:150 | `set` of a name that is absent appends the pair |
| UrlParams.SetTwice | lib/index.ts:147-150 | setting a name twice is the same as setting it once to the second value |
| Request.ReadClientNumber | lib/index.ts:102-104 | when the fallback text reads as the fallback value, the number read is the client's number when the parameter is truthy and not NaN, and the fallback otherwise |
| Request.DefaultTextsRead | lib/index.ts:102-112 | the default texts "150" and "0" read as 150 and 0 |
| Request.ReadLimit | lib/index.ts:102-104 | the limit read is the client's number, or 150 |
| Request.ReadOffset | lib/index.ts:110-112 | the offset read is the client's number, or 0 |
| Request.AppendPresent | lib/index.ts:118-123 | a parameter is appended exactly when it has a value to send |
| Request.GetFilloutUrlSearchParamsFromRequest | lib/index.ts:89-126 | returns a fresh list holding exactly `UpstreamEntries(query)`, with the client's limit and offset |
| Request.DecimalLimitIsRead | lib/index.ts:102-104 | a whole-number limit written in decimal is read as that number |
| Request.DecimalOffsetIsRead | lib/index.ts:110-112 | a whole-number offset written in decimal is read as that number |
| Request.UpstreamEntriesArePresentCandidates | lib/index.ts:106-123 | the upstream list is the candidate names that have a value, in the fixed order |
| Request.UpstreamEntriesForwarding | lib/index.ts:106-123 | upstream gets "limit=150" exactly when the client gave a limit and "offset=0" exactly when it gave an offset (never the client's own values), and each pass-through filter verbatim exactly when truthy; names come in the fixed order |
| Upstream.Pages | lib/index.ts:141-167 | at least one request is made, and the first is for the starting page |
| Upstream.GetAllResponses | lib/index.ts:135-171 | returns `Collect` of the answers `Pages` specifies, and leaves `offset` at the last page requested |
| Upstream.RequestForPage | lib/index.ts:149-150 | the request for page k has exactly one "offset", whose text reads as k·150, and the other parameters as they were |
| Upstream.PagesAreSuccessive | lib/index.ts:147-167 | the i-th request is for page i |
| Upstream.PagesContinueExactlyWhenMoreArePromised | lib/index.ts:147-167 | another request follows exactly when the last one succeeded and the page count it reported lies beyond the next page |
| Upstream.OnlyTheLastAnswerCanFail | lib/index.ts:152-163 | every request before the last succeeded |
| Upstream.PagesAtMostBound | lib/index.ts:147-167 | no more requests are made than the largest reported page count allows |
| Upstream.CollectFailsAtFirstFailure | lib/index.ts:152-163 | collecting succeeds exactly when every answer succeeded; otherwise it fails with the first failure's error |
| Upstream.CollectKeepsEverySubmission | lib/index.ts:163 | a submission is collected exactly when some answer holds it |
| Upstream.CollectLength | lib/index.ts:163 | as many submissions are collected as the answers hold together |
| Upstream.ThreePagesThreeRequests | lib/index.ts:141-167 | an upstream that reports three pages is asked three times, at offsets 0, 150 and 300 |
| Pagination.Slice | lib/index.ts:203 | the page is never longer than the list; what it holds is stated by `SliceOfWholeNumbers` and `NegativeOffsetCountsFromTheEnd` |
| Pagination.Remainder | lib/index.ts:205 | JavaScript's `%` takes the sign of the dividend and is smaller than the divisor in size; on whole numbers it is the usual remainder (`RemainderOfWholeNumbers`) |
| Pagination.Truncate | lib/index.ts:203 | `slice` takes the integer part of its arguments, rounding toward zero |
| Pagination.RelativeIndex | lib/index.ts:203 | a negative index counts from the end; every index is clamped to the list |
| Pagination.PageCount | lib/index.ts:205-207 | there is no finite page count exactly when the limit is zero |
| Pagination.SliceOfWholeNumbers | lib/index.ts:203 | with whole-number offset and limit the page is the stretch from the offset, clipped to the list, and at most `limit` long |
| Pagination.NegativeOffsetCountsFromTheEnd | lib/index.ts:203 | for every k up to the length, slicing from -k to the end gives the last k items |
| Pagination.NegativeBoundsExample | lib/index.ts:203 | in ten items, -3 to 7 is empty and -3 to -1 is items 7 and 8 |
| Pagination.RemainderOfWholeNumbers | lib/index.ts:205 | JavaScript's `%` on whole numbers is the usual remainder |
| Pagination.FloorOfWholeQuotient | lib/index.ts:207 | `Math.floor` of a quotient of whole numbers is the integer quotient |
| Pagination.PageCountIsCeiling | lib/index.ts:205-207 | with a positive whole-number limit, the page count is the least number of pages of that size that hold the list |
| Pagination.EveryItemIsOnItsPage | lib/index.ts:203-207 | item j is at position j % limit of page j / limit, and that page is one of those counted |
| Pagination.ZeroLimit | lib/index.ts:203-207 | a zero limit gives an empty page and no finite page count |
| Pagination.TenItemsInPagesOfThree | lib/index.ts:203-207 | 10 items with limit 3 make 4 pages: the first holds three items, the last holds one |
| Pagination.NoItemsNoPages | lib/index.ts:205-207 | 0 items with limit 150 make 0 pages |
| Service.GetFilteredResponseBody | lib/index.ts:180-214 | the handler returns what `FilteredResponseBody` specifies |
| Service.FilteredSubmissionsPassedTheFilter | lib/index.ts:196-201 | every filtered submission was sent by upstream and the filter callback gives `true` for it under the parsed clauses |
| Service.CorrectedListSatisfiesEveryClause | types/index.ts:7-8 | with the corrected loop, every filtered submission answers and satisfies every parsed clause |
| Service.AnsweredSubmissionsPassedTheFilter | lib/index.ts:196-210 | every submission in the answer was sent by upstream and passed the filter |
| Service.PageHoldsOnlyFiltered | lib/index.ts:203 | whatever the limit and offset, the page holds only filtered submissions |
| Service.AnswerCountsTheFilteredList | lib/index.ts:205-212 | `totalResponses` is the size of the filtered list; with a positive whole-number limit, `pageCount` is the ceiling of that size over the limit |
| Service.PageOfWholeLimit | lib/index.ts:205-212 | with a positive whole-number limit, the page count is the ceiling of the total over the limit |
| Service.NoClausesKeepsEveryUpstreamSubmission | lib/index.ts:196-201 | with no clauses the filtered list is every upstream submission, in the order received |
| Service.PageIsTheRequestedStretch | lib/index.ts:193-210 | with whole-number limit and offset written in decimal, the answer is the filtered list's stretch from the offset, at most `limit` long |
| Service.PageOfWholeNumbers | lib/index.ts:203 | with whole-number limit and offset, the page is the clipped stretch from the offset |
| Service.UnknownConditionComesFromAVerdict | lib/index.ts:201 | once the filter parsed and upstream answered, the handler fails exactly when the filter callback throws for some upstream submission |

## Left out

- HTTP and the express handler are not part of this model. That covers routing, the 500 response with `{ message }`, the API key taken from the environment, the authorization header and the text of the upstream URL. `src/index.ts` is not part of this model.
- `async`/`await`: the steps are modelled in the order they run, one request at a time.
- `fetch` and `response.json()`.
  - They are modelled as one function of the form id and the parameter list. So upstream data cannot change between two requests.
  - A response that is not an object of the expected shape is modelled as a failure of that function. In JavaScript, a missing `responses` throws in `push`, and a missing `pageCount` ends the loop.
  - The page count upstream reports is a whole number.
- `JSON.parse` of the filter is the parameter `parseFilter`. Filter texts that parse to something other than a list of clauses are not modelled: no validation exists to model.
- A `filter` that arrives as a list (a repeated query parameter) counts as absent, which raises the same "filter must be stringified JSON" error. Repeated `limit`, `offset` and pass-through parameters are not modelled: each parameter is a single string or absent.
- `Number` covers blank text, surrounding whitespace, an optional sign, and decimal digits with an optional fraction. Exponents, hexadecimal, octal and binary prefixes, `Infinity`, and floating-point rounding are left out: such texts read as NaN, and every number is an exact real.
- JavaScript compares strings by UTF-16 code units. `StringLess` compares Dafny characters, and the two orders differ only for characters above U+FFFF.
- Upstream.GetAllResponses: `requires` that every page count upstream reports is at most a ghost `bound`. This only makes the loop finite in the model. An upstream that keeps reporting ever more pages makes the code loop forever, and that case is not modelled.
- Service.GetFilteredResponseBody: the page and the page count are computed by `PageOf`. This is the same slice and page-count expressions as the code, gathered in one function.
- Pagination.Slice: only finite arguments are modelled. A limit or offset of `Infinity` cannot arise, because `Number` never yields it in this model.

## Findings

| source | as written | input that shows it | evidently intended | confidence | as-written member | corrected member |
|---|---|---|---|---|---|---|
| lib/index.ts:66-86 | every comparison overwrites `valid`, and `break` inside the `switch` leaves only the `switch`, so the verdict is the last clause's comparison alone | a submission whose question "q" has the value 1, with the clauses ["q" equals 2, "q" equals 1]: it passes | the clauses combine with AND, as `types/index.ts:7-8` says, so this submission fails | not executed | FilterProperties.LastClauseOverridesEarlier | FilterProperties.ConjunctiveVerdictIsAnd |

The code as written is `Filter.Verdict`, computed by the loop `Filter.IsKept`. The corrected loop is `Filter.IsKeptConjunctive`, specified by `Filter.ConjunctiveVerdict`: it stops at the first clause that does not hold. Because it stops there, it also differs on the error path: with the clauses ["q" equals 2, "q" contains 1] and q = 1 the code still reaches the unknown condition and throws, while the corrected filter keeps nothing (`FilterProperties.UnknownConditionAfterAFailingClause`). `Filter.FilterResponses` and everything in `Service` take a flag `corrected`: `false` models the code as written, and `true` uses the corrected loop, for which `FilterProperties.KeptSubmissionsSatisfyEveryClause` and `Service.CorrectedListSatisfiesEveryClause` prove that every kept submission satisfies every clause.
