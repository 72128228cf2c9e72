# Koinonia: reply repair, route classification and upload bookkeeping in Dafny

This project models the decision logic of the Koinonia web app, which generates
small-group discussion questions for Bible passages and can analyse an
uploaded sermon outline.

- **Reply repair.** Both API routes ask a language-model backend for JSON.
  Before parsing the free-text reply, they repair it in three steps. First they
  trim it. If it opens with a code fence, they drop the opening "```" or
  "```json" and one "```" at the very end, then trim again. Last, they keep the
  span from the first `{` to the last `}`. This is modelled once, as
  `ResponseCleaning.Clean`. Both routes reach it through
  `HttpApi.AnswerFromReply`.
- **Route classification.** `QuestionsRoute.Post` and `SermonAnalysisRoute.Post`
  map each outcome to an HTTP status and body:
  - bad input or a missing parameter or file;
  - a backend call that throws;
  - a reply without a text block;
  - a parse failure;
  - a parsed value of the wrong shape;
  - success.
- **Upload form.** Before sending a file, `UploadChecks.CheckUpload` runs the
  form's chain of checks: a file is selected, its MIME type is allowed, its
  extension is allowed, and its size is at most 5 MiB. `SavedAnalyses` holds
  the list operations: append a saved analysis, join verses with ", ", and sort
  a newest-first copy for display. `SermonOutlineUpload.UploadForm` is the
  form's state. Its `HandleSubmit` ties these pieces together.

The external collaborators are inputs:
- `JSON.parse` is a parameter `parse: string -> Option<Json>`. `None` stands for a thrown `SyntaxError`.
- The backend's answer is a `BackendReply`.
- The outcome of reading the uploaded file is part of the `FormRequest`.
- The fetch reply the browser sees is a `ServerReply`.
- The clock reading `Date.now()` is the `now` argument.

Main results:
- `ResponseCleaning.CleanRecoversEmbedded` proves that any object-shaped text
  wrapped in anything that opens no `{` before it and closes no `}` after it
  cleans to exactly that text. The wrapping can be whitespace, a fence, or prose.
- `HttpApi.WrappedReplyAnswersAsBare` lifts this to both routes' answers.
- `ResponseCleaning.ExtractBracesSpan` proves that the brace step is the
  leftmost-longest match of `/\{[\s\S]*\}/`.
- `ResponseCleaning.ExtractBracesIdempotent` proves that the brace step is idempotent.
- The whole pipeline is proved idempotent on replies it turns into an object
  (`ResponseCleaning.CleanStableOnObjects`). It is not idempotent in general:
  for example, "``````x" loses one fence per pass.

Behaviour the code has and the model keeps:
- In the questions route, `JSON.parse` can return `null`, for example for the
  reply "null". Reading `.questions` on that value then throws outside the
  inner `try`. The outer `catch` answers 500 with the engine's `TypeError`
  message.
- The sermon route reads its fields inside the `try` around the parse, so the
  same reply gets "Failed to parse AI response as JSON".
- A `file` form field that holds a non-empty string passes the presence check.
  Its `text()` call then throws, which gives "Failed to read file content".

The questions route makes one backend call, with no retry
(src/app/api/questions/route.ts:24-41). It returns the parsed `questions` array
as it is, with no coercion of its entries (src/app/api/questions/route.ts:87).

## Model

| member | source | states |
|---|---|---|
| `JsText.Trim` | src/app/api/questions/route.ts:53 | `trim` leaves no whitespace or line terminator at either end and never lengthens the text |
| `JsText.TrimSpan` | src/app/api/questions/route.ts:53 | `trim` keeps a contiguous middle `s[i..j]` and removes only trimmable characters outside it |
| `JsText.TrimIdentity` | src/app/api/questions/route.ts:59 | trimming text whose ends are not whitespace changes nothing |
| `JsText.ToLower` | src/app/SermonOutlineUpload.tsx:79 | `toLowerCase` keeps the length and lower-cases each character on its own (ASCII letters only) |
| `JsText.Join` | src/app/SermonOutlineUpload.tsx:137 | `join` of no items is "", of one item is that item; otherwise it starts with the first item and ends with the separator and the last item |
| `JsText.JoinAppend` | src/app/SermonOutlineUpload.tsx:137 | joining one more item appends the separator and that item, for any items (commas included), which with the one-item case determines `join` for every list |
| `JsText.LastSegment` | src/app/SermonOutlineUpload.tsx:79 | `split(".").pop()` is the suffix with no "." that is either the whole name or preceded by "." |
| `JsText.SplitJoin` | src/app/SermonOutlineUpload.tsx:137 | splitting a `join(sep)` result at `sep` gives the items back when no item holds the separator's first character |
| `ResponseCleaning.StripFence` | src/app/api/questions/route.ts:55-60 | text not starting with "```" is unchanged; otherwise the result is trimmed and at least the opening fence is gone |
| `ResponseCleaning.DropOpeningFence` | src/app/api/questions/route.ts:57 | `/^```(?:json)?/` removes "```json" when the text starts with it and exactly the three fence characters otherwise; the result is the rest of the text |
| `ResponseCleaning.DropClosingFence` | src/app/api/questions/route.ts:58 | the result is a prefix of the text, three characters shorter exactly when the text ends with "```" and unchanged otherwise |
| `ResponseCleaning.StripClosedFence` | src/app/api/questions/route.ts:55-60 | "```" + optional "json" + inner + "```" becomes `trim(inner)`; "json" is taken only right after the fence |
| `ResponseCleaning.StripUnclosedFence` | src/app/api/questions/route.ts:55-60 | without a "```" at the very end, only the opening marker is removed, then the text is trimmed |
| `ResponseCleaning.ExtractBraces` | src/app/api/questions/route.ts:62-65 | the result is `{`…`}`-shaped iff the input has a `{` with a later `}`; otherwise the input is returned unchanged |
| `ResponseCleaning.ExtractBracesSpan` | src/app/api/questions/route.ts:62-65 | the result is the contiguous span from the first `{` to the last `}` (nothing outside holds either brace); with no match it is the whole text |
| `ResponseCleaning.ExtractBracesKeepsObject` | src/app/api/questions/route.ts:62-65 | on text that starts with `{` and ends with `}` the extraction keeps everything |
| `ResponseCleaning.ExtractBracesIdempotent` | src/app/api/questions/route.ts:62-65 | applying the extraction twice equals applying it once |
| `ResponseCleaning.CleanRecoversEmbedded` | src/app/api/questions/route.ts:53-65 | for an object `b` between a prefix without `{` and a suffix without `}` (whitespace, fences, prose) the pipeline yields exactly `b` |
| `ResponseCleaning.Clean` | src/app/api/questions/route.ts:53-65 | the shared repair (also src/app/api/sermon-analysis/route.ts:66-80) never lengthens the reply, and its result is `{`…`}`-shaped or has no whitespace at either end; `CleanRecoversEmbedded`, `CleanIdentity` and `CleanStableOnObjects` carry its main properties |
| `ResponseCleaning.CleanIdentity` | src/app/api/questions/route.ts:53-65 | already clean input (starts with `{`, ends with `}`) passes through the pipeline unchanged |
| `ResponseCleaning.CleanStableOnObjects` | src/app/api/sermon-analysis/route.ts:66-80 | when the pipeline yields an object, running it again changes nothing |
| `JsRuntime.CaughtMessage` | src/app/api/questions/route.ts:88-96 | the outer `catch` reports an `Error`'s message and "Something went wrong" for any other thrown value |
| `JsRuntime.Property` | src/app/api/sermon-analysis/route.ts:87-89 | `value.key` (also `response.questions`, src/app/api/questions/route.ts:80) is the own key of an object, and `undefined` when the value is not an object or lacks the key |
| `JsRuntime.Truthy` | src/app/api/questions/route.ts:17 | a value is truthy exactly when it is defined and not `null`, `false`, 0 or ""; so every array and object, empty or not, is truthy |
| `HttpApi.FirstText` | src/app/api/questions/route.ts:44-50 | `content.find(type === "text")` is `None` iff no block is text, else the text of the first text block |
| `HttpApi.AnswerFromReply` | src/app/api/sermon-analysis/route.ts:55-83 | a thrown call becomes 500 with its message; a reply with no text block becomes 500 "No text content received from Claude"; otherwise the route's classification is applied to `parse(Clean(text))` |
| `HttpApi.WrappedReplyAnswersAsBare` | src/app/api/questions/route.ts:52-69 | for either route, a reply that wraps an object in whitespace, a fence or prose gets the same answer as the bare object |
| `QuestionsRoute.Classify` | src/app/api/questions/route.ts:67-87 | status 200 iff the parse succeeded and `questions` is an array, and the body is then `{questions}` holding that exact value; parse failure gives 500 "Failed to parse Claude response as JSON"; a non-array gives 500 "Invalid response format"; `null` gives 500 with the TypeError message |
| `QuestionsRoute.HasParameters` | src/app/api/questions/route.ts:17 | the missing-parameter test passes exactly for an object holding both keys with truthy values; any two arrays, even empty ones, pass |
| `QuestionsRoute.Post` | src/app/api/questions/route.ts:13-97 | the backend is called iff the body is a non-null value with truthy `verses` and `questions`; status 400 iff a parameter is falsy, always with "Missing required parameters"; a body that is not JSON gives 500 with the caught message, and a `null` body 500 with the destructuring TypeError's message; after the call the answer is `AnswerFromReply` with `Classify` |
| `QuestionsRoute.ZeroQuestionsIsMissing` | src/app/api/questions/route.ts:17-22 | `questions: 0` is refused with 400 "Missing required parameters" and no backend call |
| `QuestionsRoute.ReferenceAndCountReachBackend` | src/app/api/questions/route.ts:15-24 | a request with a non-empty `verses` string and a non-zero numeric `questions` passes the check, reaches the backend and is answered from its reply |
| `QuestionsRoute.SuccessReturnsParsedArray` | src/app/api/questions/route.ts:80-87 | on success the answer is 200 with the parsed `questions` array unchanged (no coercion, no trimming to a count) |
| `SermonAnalysisRoute.ReadEntry` | src/app/api/sermon-analysis/route.ts:21-31 | an uploaded file yields exactly the outcome of its `text()` call; a string field's `text()` call always throws; only a file can produce text |
| `SermonAnalysisRoute.IsPresent` | src/app/api/sermon-analysis/route.ts:14 | `!file` is false exactly when the entry exists and is not the empty string |
| `SermonAnalysisRoute.IsAnalysis` | src/app/api/sermon-analysis/route.ts:86-90 | a value is accepted exactly when it is an object with a truthy `mainTopic` (so not `null`, `false`, 0 or "") and an array `verses` |
| `SermonAnalysisRoute.Classify` | src/app/api/sermon-analysis/route.ts:82-107 | status 200 iff `mainTopic` is truthy and `verses` is an array, and the body is then the parsed value itself; a parse failure or `null` gives 500 "Failed to parse AI response as JSON"; any other shape gives 500 "Invalid response format from AI" |
| `SermonAnalysisRoute.Post` | src/app/api/sermon-analysis/route.ts:9-117 | status 400 iff there is no file entry (or an empty string), always with "No file provided"; a failed read is 500 "Failed to read file content"; a body that is not form data gives 500 with the caught message; the backend is called iff the file was read; after the call the answer is `AnswerFromReply` with `Classify` |
| `SermonAnalysisRoute.AcceptedAnalysisUnchanged` | src/app/api/sermon-analysis/route.ts:86-97 | an accepted analysis is returned as parsed, extra fields included |
| `UploadChecks.Extension` | src/app/SermonOutlineUpload.tsx:79 | the extension never contains "." |
| `UploadChecks.CheckUpload` | src/app/SermonOutlineUpload.tsx:58-93 | passes iff a file is selected, its type is one of the four allowed, its extension one of the four allowed and its size at most 5·1024·1024; each message appears iff its check is the first to fail |
| `UploadChecks.ExtensionAfterLastDot` | src/app/SermonOutlineUpload.tsx:79-81 | the extension of `base.ext` is `ext` lower-cased, whatever `base` holds (dots included) |
| `UploadChecks.ExtensionWithoutDot` | src/app/SermonOutlineUpload.tsx:79-81 | a name without "." is its own extension, so a file named `txt` has extension "txt" |
| `UploadChecks.TrailingDotRefused` | src/app/SermonOutlineUpload.tsx:79-86 | a name ending in "." has an empty extension and is refused with the extension message |
| `UploadChecks.SizeBoundary` | src/app/SermonOutlineUpload.tsx:89-93 | exactly 5242880 bytes passes; 5242881 fails with "File size must be less than 5MB" |
| `UploadChecks.UpperCaseExtensionAccepted` | src/app/SermonOutlineUpload.tsx:79-81 | "Notes.DOCX" passes: the extension is lower-cased before the comparison |
| `SavedAnalyses.DecimalString` | src/app/SermonOutlineUpload.tsx:119 | `timestamp.toString()` is a non-empty string of digits without a leading zero |
| `SavedAnalyses.DecimalRoundTrip` | src/app/SermonOutlineUpload.tsx:119 | reading the id back as a number gives the timestamp |
| `SavedAnalyses.DistinctTimestampsDistinctIds` | src/app/SermonOutlineUpload.tsx:117-119 | entries saved at different milliseconds get different ids |
| `SavedAnalyses.IsComplete` | src/app/SermonOutlineUpload.tsx:116 | `data.mainTopic && data.verses` holds exactly for a truthy topic string and a present verses list, the empty list included; it decides saving and handing on (also lines 135, 276) |
| `SavedAnalyses.SaveAnalysis` | src/app/SermonOutlineUpload.tsx:116-127 | with a truthy topic and verses, the list gains exactly one entry at the end, whose id is `DecimalString` of its timestamp (`timestamp.toString()`) and which carries the topic, verses and file name; otherwise the list is unchanged |
| `SavedAnalyses.HandoffOf` | src/app/SermonOutlineUpload.tsx:137-138 | the parent receives the topic and `Join(verses, ", ")` for every list, empty included |
| `SavedAnalyses.HandoffSplitsBack` | src/app/SermonOutlineUpload.tsx:137 | the verse list can be split back from the handed-on string when it is non-empty and no verse holds a comma |
| `SavedAnalyses.UseResult` | src/app/SermonOutlineUpload.tsx:135-139 | data is handed on iff its topic and verses are truthy, as the topic and joined verses |
| `SavedAnalyses.UseSaved` | src/app/SermonOutlineUpload.tsx:161-164 | "Use This Analysis" hands on the entry's stored topic and its verses joined with ", " |
| `SavedAnalyses.InsertByTimestamp` | src/app/SermonOutlineUpload.tsx:299 | inserting into a newest-first list keeps it newest-first and adds exactly the one entry |
| `SavedAnalyses.SortByNewest` | src/app/SermonOutlineUpload.tsx:297-299 | the displayed copy is in non-increasing timestamp order and is a permutation of the stored list |
| `SavedAnalyses.SortIsStable` | src/app/SermonOutlineUpload.tsx:297-299 | entries with equal timestamps keep their stored order |
| `SermonOutlineUpload.FailureMessage` | src/app/SermonOutlineUpload.tsx:107-110 | a non-OK reply shows its `error` field, or "Failed to analyze sermon outline" when it is empty; a thrown fetch shows the caught message |
| `SermonOutlineUpload.UploadForm.constructor` | src/app/SermonOutlineUpload.tsx:25-31 | the form starts with no file, no result, no error, nothing saved and not uploading |
| `SermonOutlineUpload.UploadForm.HandleFileChange` | src/app/SermonOutlineUpload.tsx:48-53 | the first chosen file becomes the selection and clears the error; choosing nothing changes nothing |
| `SermonOutlineUpload.UploadForm.HandleSubmit` | src/app/SermonOutlineUpload.tsx:55-145 | a failed check sets only its message; otherwise an analysis becomes the result, is saved by `SaveAnalysis` and handed on by `UseResult`, and a failure sets `FailureMessage`; the file is kept |
| `SermonOutlineUpload.UploadForm.RecordReply` | src/app/SermonOutlineUpload.tsx:95-144 | the `try`/`finally` part: error cleared, reply recorded as above, uploading stops |
| `SermonOutlineUpload.UploadForm.DisplayedAnalyses` | src/app/SermonOutlineUpload.tsx:297-299 | the displayed list is newest-first and a permutation of the stored list, which is not reordered |

## Left out

- The backend calls and their prompts (src/app/api/questions/route.ts:24-41, src/app/api/sermon-analysis/route.ts:33-52) are foreign network calls. Their result is an input `BackendReply`. As a result, the file text and the request's `topic` do not influence the model.
- `JSON.parse` is a library function and is a parameter here. Object key order is not modelled, because a `map` stands for a parsed object.
- Logging with `console.error` is not modelled.
- `JsRuntime.NullReadError` and `JsRuntime.NullDestructureError` fix V8's wording of the `TypeError`. Other engines word it differently.
- `JsRuntime.Property` gives only own keys of parsed objects. Members inherited from prototypes are not modelled. None of the keys the routes read names one.
- `JsText.ToLower` maps only ASCII letters. The only non-ASCII character whose lower case is ASCII is the Kelvin sign, and it lowers to "k", which is in no allowed extension. So the accept/refuse decision is the same as with full Unicode case mapping.
- JSON numbers are reals, and their truthiness is "not zero". `JSON.parse` never produces `NaN`.
- `SavedAnalyses.AnalysisResult` takes the component's declared types: a string topic and an optional list of string verses. The model does not cover a server that sends other JSON types in these fields.
- React's asynchronous state updates and re-rendering are not modelled. `HandleSubmit` is one step that receives the fetch outcome as `reply`.
- Loading the saved list from `localStorage` on mount, writing it back, "Clear All Saved Analyses", date formatting, `isClient` and `showSaved` (src/app/SermonOutlineUpload.tsx:38-46, 128-131, 147-159) are browser storage and UI.
- Out of scope: src/app/utils/crypto.ts (Web Crypto), src/middleware.ts (constant headers), the page and layout, and the question and passage-search components (UI around `fetch`).
- SavedAnalyses.DecimalString: models `Number.prototype.toString` only for the values `Date.now()` returns, which are integers below 2^53. The exponent notation JavaScript uses from 1e21 up, and the loss of precision above 2^53, are not modelled.
