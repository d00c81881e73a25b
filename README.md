# Sales-analysis form controller and pain-point splitter, in Dafny

This project models two pieces of a small sales-assistant web app.

The first is the form controller of the app component (`App.tsx`). The user types a company name. An autocomplete matcher then searches a three-entry company catalog by name and keyword, case-insensitively, once the query has at least two UTF-16 code units. The arrow keys move a highlight round the suggestion list. Enter or a click fills the whole form from the chosen entry. Escape closes the list. Submitting checks that a company name and an industry are present, passes the form through the enrichment step, asks for an analysis report and then either shows the report or shows an error.

The controller is a Dafny class, `App.FormController`, with one field per state hook of the component and one method per event handler. Each method's postcondition states the complete new state. Every method keeps the invariant `Valid()`:

- the highlighted index is nothing or a position in the current list;
- an open suggestion panel is never empty;
- the "report generated" flag is only set while a report is held.

The pure parts are Dafny functions:

- the field-edit updater;
- the catalog filter and the suggestion list;
- the wrap-around index arithmetic, including JavaScript's truncating `%`;
- the validation order;
- the error message chosen for each outcome of generation.

The lemmas beside these functions prove the properties the handlers promise.

The second piece is `splitPainPoints` (`services/solutionsData.ts`). It splits a string on maximal runs of the delimiters `\n`, `;`, `,`, `，` and `；`, trims each piece with JavaScript's `trim` and drops the empty pieces. The model proves five things about it:

- every result is non-empty, trimmed and free of delimiters;
- the input is recovered from the results plus the gaps between them, which are made only of white space and delimiters, so order is preserved and nothing but filler is lost;
- filler-only input yields nothing;
- a single undelimited piece yields its trimmed self;
- joining clean items with a delimiter and splitting the result gives the items back.

As an instance, the pain-point string of the solutions catalog splits into exactly its five items.

Supporting modules:

- `Wrappers`: the `Option` type.
- `Sequences`: the subsequence relation that the filters keep.
- `JsString`: the JavaScript string built-ins the code relies on. `trim` uses the exact ECMAScript white-space and line-terminator set. `toLowerCase` covers the ASCII letters. `includes` is substring search. `length` counts UTF-16 code units.
- `Types`: the record shapes `CustomerFormData` and `AnalysisReport`.
- `GeminiService`: the shipped enrichment, which returns its argument, the object-spread merge of a partial record, and the three ways the generation call can end.

The network calls are not modelled as calls. Submission takes the outcome of `generateAnalysis` as a parameter: a report, a falsy value, or a thrown error whose message may be empty. The walkthrough `App.TsmcWalkthrough` runs a complete session on the class:

1. type "台積";
2. press ArrowDown, then Enter;
3. submit.

It proves that the TSMC entry's data is what reaches generation, and that the returned report is what is shown.

## Model

| member | source | states |
|---|---|---|
| JsString.Trim | services/solutionsData.ts:17 | The trimmed string is empty exactly when the input is all white space, is no longer than the input, and neither starts nor ends with white space. |
| JsString.TrimParts | services/solutionsData.ts:17 | Trimming removes only white space, and only at the ends: the input is a white-space prefix, the trimmed string and a white-space suffix. |
| JsString.TrimOfTrimmed | services/solutionsData.ts:17 | A string with no white space at either end is its own trim. |
| JsString.TrimIdempotent | services/solutionsData.ts:17 | Trimming twice is trimming once. |
| JsString.ToLowerCase | App.tsx:114-115 | Lowering keeps the length and maps each character through the ASCII case mapping. |
| JsString.ToLowerCaseIdempotent | App.tsx:114-115 | Lowering an already-lowered string changes nothing. |
| JsString.IncludesIff | App.tsx:114-115 | `includes` holds exactly when the pattern occupies some stretch of the text. |
| JsString.IncludesFirstChar | App.tsx:114-115 | A text that includes a non-empty pattern contains the pattern's first character. |
| JsString.Utf16Length | App.tsx:112 | `length` lies between the number of characters and twice that number, and equals it for text inside the Basic Multilingual Plane. A single character counts 2 exactly when it lies outside that plane. The two-unit threshold is reached exactly when there are at least two characters, or one outside that plane. |
| SolutionsData.SplitOnDelimiters | services/solutionsData.ts:16 | The regular-expression split yields at least one piece, and no piece contains a delimiter. |
| SolutionsData.SplitOnDelimitersRejoin | services/solutionsData.ts:16 | The input is exactly the pieces, in order, with a non-empty run made only of delimiters between each two, and only the first and the last piece can be empty. As the pieces hold no delimiter, no two runs touch, so the split cuts at the maximal delimiter runs and nowhere else. |
| SolutionsData.TrimEach | services/solutionsData.ts:17 | The `map(trim)` step keeps the number of pieces and trims each piece in place. |
| SolutionsData.DropEmpty | services/solutionsData.ts:18 | The `filter(Boolean)` step keeps exactly the non-empty strings: each as often as in the input, and in input order, as a subsequence of it. |
| SolutionsData.SplitPainPoints | services/solutionsData.ts:13-19 | No result is empty, every result is trimmed, and no result contains `\n`, `;`, `,`, `，` or `；`. |
| SolutionsData.SplitPainPointsWeave | services/solutionsData.ts:13-19 | The input equals the results, in order, interleaved with gaps. Every gap is white space and delimiters, and every inner gap holds a delimiter. So order is kept and only filler is dropped. |
| SolutionsData.FillerYieldsNothing | services/solutionsData.ts:13-19 | Input made only of white space and delimiters, including the empty input, yields no pain points. |
| SolutionsData.SinglePiece | services/solutionsData.ts:13-19 | Non-blank input without a delimiter yields exactly its trimmed self. |
| SolutionsData.SplitJoinRoundTrip | services/solutionsData.ts:13-19 | Joining non-empty, trimmed, delimiter-free items with any one delimiter and splitting the result returns the items. |
| SolutionsData.HybridRagPainPointsSplit | services/solutionsData.ts:27-29 | The catalog entry's pain points are exactly 資料分散, 查詢依賴IT, 決策速度慢, 跨部門資訊不透明 and 知識無法重用, in that order. |
| Types.WithField | App.tsx:93 | `{ ...prev, [name]: value }` sets the named field and keeps every other field. |
| Types.FormExtensionality | types.ts:28-34 | Two forms that agree on all five fields are equal. |
| GeminiService.EnrichCompanyDataIfNeeded | services/geminiService.ts:32-36 | The shipped enrichment returns every field, each with the value it already had. |
| GeminiService.Spread | App.tsx:189 | In the object-spread merge, a field present in the partial record wins and an absent one keeps the base value. |
| GeminiService.EnrichmentIsIdentity | App.tsx:185-194 | Merging the shipped enrichment into the form gives back the same form. |
| App.EditForm | App.tsx:92-104 | The edited field takes the new value. An edit of the company name empties website, companyId, rawData and industry whatever they held. An edit of any other field leaves the other fields alone. |
| App.FilterCompanies | App.tsx:113-116 | The filter keeps exactly the matching entries, each as often as in the catalog and in catalog order, as a subsequence. |
| App.MatchesQueryOccurs | App.tsx:113-115 | An entry matches exactly when the lowered query occupies some stretch of its lowered name or of one of its lowered keywords. |
| App.Suggestions | App.tsx:112-122 | Below two UTF-16 code units there are no suggestions. From two on, an entry is suggested exactly when it is in the catalog and its lowered name or some lowered keyword includes the lowered query. The suggestions keep catalog order. |
| App.MatchIgnoresCase | App.tsx:114-115 | Two queries that lower to the same string match the same entries. |
| App.TruncRem | App.tsx:147 | JavaScript's `%` agrees with the mathematical remainder on non-negative operands. On a negative dividend it lies in (-n, 0] and is exactly the mathematical remainder minus n, or 0 when n divides the dividend. |
| App.ArrowDownIndex | App.tsx:145-148 | With no highlight, ArrowDown gives 0. Otherwise it gives the next index, wrapping from n-1 to 0. A highlight in range stays in range. |
| App.ArrowUpIndex | App.tsx:151-154 | With no highlight, ArrowUp gives n-1. Otherwise it gives the previous index, wrapping from 0 to n-1. A highlight in range stays in range. |
| App.ArrowKeysInverse | App.tsx:143-154 | ArrowUp undoes ArrowDown, and ArrowDown undoes ArrowUp. |
| App.PressDownAdd | App.tsx:145-148 | Pressing ArrowDown a+b times is pressing it a times and then b times. |
| App.PressDownNoWrap | App.tsx:145-148 | Before the end of the list, each ArrowDown moves one place down. |
| App.PressDownFullRound | App.tsx:145-148 | n presses of ArrowDown on a list of n entries return to the starting entry. |
| App.ValidationError | App.tsx:170-177 | A blank name (all white space) gives "請先輸入公司名稱". Otherwise an empty industry gives "請選擇產業領域". A submission passes exactly when the name is not blank and an industry is set. |
| App.FailureMessage | App.tsx:212 | The shown message is never empty. It is the thrown message whenever that is non-empty, and "分析生成失敗，請稍後再試。" when it is empty. |
| App.ErrorAfterGeneration | App.tsx:197-214 | There is no error exactly when a report came back. A falsy result gives "分析結果為空，請重試". A failure gives its own message, or "分析生成失敗，請稍後再試。" when that message is empty. |
| App.FormFromCompany | App.tsx:127-133 | Selecting an entry fills the company name, registration number, website and industry from the entry and puts its description in the raw data. The filled form passes validation exactly when the entry's name is not blank and its industry is set. |
| App.TsmcSelection | App.tsx:34-41 | The TSMC entry fills the form with its full name, registration number 22099131, website https://www.tsmc.com, industry 半導體 / 電子製造 and its description as raw data. |
| App.CatalogSelectionIsValid | App.tsx:10-58 | Every catalog entry's industry is one of the drop-down options, and a form filled from any entry passes validation. |
| App.NameEditForcesIndustryChoice | App.tsx:97-102 | After any edit of the company name, submission is refused: a blank name is reported, and otherwise the missing industry is. |
| App.SuggestionsForTaiJi | App.tsx:112-118 | Typing "台積" suggests exactly the TSMC entry. |
| App.FormController.constructor | App.tsx:69-81 | Every hook starts at its initial value: INITIAL_DATA, no report, not loading, no error, no suggestions, panel closed, no highlight, no selection. The invariant holds. |
| App.FormController.HandleInputChange | App.tsx:89-124 | The form becomes the edited form. A company-name edit also clears the selection and the highlight, sets the suggestions to the matcher's result, and opens the panel exactly when that result is non-empty. Any other edit leaves the autocomplete state alone. Submission state is unchanged, and the invariant is kept. |
| App.FormController.HandleSelectCompany | App.tsx:126-138 | The whole form is overwritten from the entry, with the description as raw data. The entry is recorded as selected, the panel closes, the highlight and the error are cleared, and nothing else changes. |
| App.FormController.HandleSuggestionHover | App.tsx:313 | The pointer on a rendered suggestion highlights it, and nothing else changes. |
| App.FormController.HandleKeyDown | App.tsx:140-164 | With the panel closed or empty, nothing changes. ArrowDown and ArrowUp set the highlight by the wrap-around functions and suppress the default action. Enter with a highlight has exactly the effect of selecting the highlighted entry and suppresses form submission. Enter with no highlight changes nothing. Escape closes the panel and clears the highlight. Other keys change nothing. |
| App.FormController.HandleSubmit | App.tsx:166-218 | A form that fails validation only gets the validation error: there is no request, and report, loading and the flag are untouched. A valid form is sent to generation exactly as it stood. Afterwards loading is false. A report is stored and displayed. A falsy result or a failure hides the results and sets the error chosen by `ErrorAfterGeneration`. |
| App.TsmcWalkthrough | App.tsx:107-218 | Typing "台積", pressing ArrowDown and Enter, then submitting sends the TSMC entry's data to generation and displays the returned report. |

## Left out

- Rendering (JSX, CSS classes, the loading spinner), scrolling, printing and the `setTimeout` scroll after a report (App.tsx:207-209, 220-432): these are display side effects with no state of the controller in them.
- `components/InputField.tsx` and `components/ReportCard.tsx`, including `handleSearchSolutions`. The first only presents. The second is a network-bound flow around a fetch. Neither is part of this model.
- `api/generateAnalysis.ts`, the HTTP plumbing of `generateAnalysis`, and `generateRecommendedSolutions` in `services/geminiService.ts`. They are foreign calls and network I/O. Submission takes their outcome as a parameter instead.
- The body that `generateAnalysis` returns when the response is not JSON (`{}`, which is truthy) is not distinguished from a real report. Both are `Returned`.
- Async interleaving. The only guard against a second submission is the disabled submit button (App.tsx:373), so a submission is one sequential step. `Valid()` demands that no submission is in flight between events.
- The `catch` around enrichment (App.tsx:191-193) is not modelled. The shipped enrichment returns its argument and cannot throw, so that branch is unreachable.
- `console.warn` and `console.error` logging.
- JsString.ToLowerCase: maps only the ASCII letters. The full Unicode case mapping of `toLowerCase` is not modelled. No catalog entry, and not the worked query 台積, holds a cased letter outside ASCII, so those are lowered exactly. Other queries can be lowered differently, and then the suggestions differ. For example, JavaScript lowers "e\u212A" (with the KELVIN SIGN) to "ek", which suggests MediaTek, but the model keeps the KELVIN SIGN, which occurs in no catalog entry, and so suggests nothing.
- The long catalog descriptions, and the summary and value pitch of the solutions catalog, are shortened. Nothing in the controller inspects them beyond copying them.
- The previous report is not cleared when a later submission fails. The model keeps it too, as the source does, and it stays hidden because the flag is false.
