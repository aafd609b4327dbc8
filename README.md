# AI-AUDITOR core in Dafny

A model of the two core files of AI-AUDITOR, a web page that sends a Solidity
smart contract to a generative model for an audit report and, on request, for
a corrected contract.

- `components/contract-input.tsx` — the contract editor. Its gate
  `isValidSolidityContract` tests the text against two unanchored regular
  expressions: an SPDX licence comment and a `pragma solidity` directive.
  `handleAnalyze` shows an alert when the gate rejects and calls `analyze`
  when it accepts. A file upload or an edit replaces the contract text.
- `utils/ai-prompt.ts` — the two requests. `analyzeContract` builds the audit
  prompt, strips the code fences from the reply, parses it as JSON and stores
  the results. `fixIssues` builds the fix prompt, strips the fences and
  stores the reply as the new contract. Both switch the loading flag on
  before the request and off afterwards, on success and on failure.

Modules:

- `Options` — the optional value.
- `Text` — the JavaScript string primitives the core uses:
  - the whitespace class shared by `\s` and `trim`;
  - `trim`;
  - greedy whitespace runs;
  - first-index search;
  - occurrence of one text in another.
- `ContractInput` — the gate and the editor:
  - each regular expression is defined twice, once declaratively as a choice
    of split points and once as a matcher that needs no backtracking;
  - lemmas prove the two definitions equal;
  - the `CustomCodeEditor` class holds the contract text, the alerts shown and the
    number of `analyze` calls.
- `AiPrompt` — the prompt templates, the fence strippers and the `Session`
  class. `Session` holds the page state (`loading`, `results`, `contract`)
  that the setters passed to both requests update. Each request returns, as
  a ghost value, the state the page shows while the model call is awaited:
  loading on, nothing else changed. Its final state is proved to be the one
  obtained by replaying, in order, the setter calls the source makes.

Consequences of the source that the model proves:

- The alert says a contract must *start with* the licence comment and the
  pragma, yet the gate is unanchored. It accepts the two in any order and
  anywhere in the text (`HeaderNeedNotComeFirst`, `GateIgnoresOrder`).
- `\s*` in the SPDX pattern crosses line breaks. A licence line with no
  identifier is therefore accepted when any word follows on the next line
  (`SpdxValueAfterLineBreak`, `EmptyLicenceAccepted`).
- The fix prompt cannot be split back into suggestions and contract: a
  suggestion containing the template's own "Original Contract:" line gives
  the same prompt as a different split (`FixPromptAmbiguous`).
- `/```\s*$/` has no `g` flag, so it removes at most one trailing fence
  (`OnlyOneTrailingFenceRemoved`).
- Only a lower-case `json` tag is removed before JSON parsing
  (`OtherOpenerKept`).

## Model

| member | source | states |
|---|---|---|
| ContractInput.SpdxAtIsRegexMatch | components/contract-input.tsx:21 | the SPDX matcher `SpdxAt` succeeds at an index exactly when `//\s*SPDX-License-Identifier:\s*[^\s]+` matches there under regular-expression semantics (both directions) |
| ContractInput.PragmaAtIsRegexMatch | components/contract-input.tsx:22 | the pragma matcher `PragmaAt` succeeds at an index exactly when `pragma\s+solidity\s+[^;]+;` matches there, backtracking included (both directions) |
| ContractInput.GateMeaning | components/contract-input.tsx:20-24 | `isValidSolidityContract` accepts exactly the texts in which both patterns match at some index |
| ContractInput.GateFindsMatches | components/contract-input.tsx:23 | an accepted text contains a match of each pattern |
| ContractInput.GateAcceptsMatches | components/contract-input.tsx:23 | a match of each pattern anywhere makes the gate accept |
| ContractInput.GateMonotone | components/contract-input.tsx:20-24 | adding text before or after an accepted contract never makes the gate reject it |
| ContractInput.SpdxOccursInJoin | components/contract-input.tsx:21 | an SPDX match in either of two texts is a match in their concatenation |
| ContractInput.PragmaOccursInJoin | components/contract-input.tsx:22 | a pragma match in either of two texts is a match in their concatenation |
| ContractInput.GateIgnoresOrder | components/contract-input.tsx:20-24 | a licence part and a pragma part are accepted in either order |
| ContractInput.EmptyRejected | components/contract-input.tsx:20-24 | the empty text is rejected |
| ContractInput.PragmaLineMatches | components/contract-input.tsx:22 | `pragma solidity <v>;` matches at its start for every non-empty version `v` without ';' |
| ContractInput.SpdxLineMatches | components/contract-input.tsx:21 | `// SPDX-License-Identifier: MIT` matches at its start |
| ContractInput.HeaderNeedNotComeFirst | components/contract-input.tsx:20-37 | a text that starts with the pragma line, followed by the licence line, is accepted although it does not start with the licence comment the alert asks for |
| ContractInput.SpdxValueAfterLineBreak | components/contract-input.tsx:21 | the tag followed by a line break and any word matches, taking that word as the identifier |
| ContractInput.EmptyLicenceAccepted | components/contract-input.tsx:20-24 | a licence line with no identifier followed by a pragma line is accepted |
| ContractInput.BareSpdxTagRejected | components/contract-input.tsx:21 | the tag followed by nothing but whitespace does not match anywhere |
| ContractInput.PragmaVersionNeedsACharacter | components/contract-input.tsx:22 | with only whitespace between `solidity` and `;`, the pragma matches exactly when there are at least two whitespace characters (`\s+` and `[^;]+` each take one) |
| ContractInput.CustomCodeEditor.constructor | components/contract-input.tsx:26-30 | the editor starts with the contract it is given, no alerts and no `analyze` calls |
| ContractInput.CustomCodeEditor.HandleAnalyze | components/contract-input.tsx:33-41 | when the gate rejects, exactly the alert text is added and `analyze` is not called; when it accepts, `analyze` is called once and no alert is shown; the contract never changes |
| ContractInput.CustomCodeEditor.HandleFileUpload | components/contract-input.tsx:43-53 | the selected file's text becomes the contract; with no file nothing changes |
| ContractInput.CustomCodeEditor.Edit | components/contract-input.tsx:74 | the edited text becomes the contract; nothing else changes |
| Text.Trim | utils/ai-prompt.ts:48 | `String.prototype.trim`: the result has no whitespace at either end and is the text left between a leading and a trailing whitespace run |
| Text.TrimUnique | utils/ai-prompt.ts:48 | `trim` of whitespace + r + whitespace is r whenever r has no whitespace at its ends |
| Text.TrimIdempotent | utils/ai-prompt.ts:48 | trimming twice is trimming once |
| Text.TrimDropsLeadingSpace | utils/ai-prompt.ts:46-48 | dropping part of the leading whitespace before `trim` does not change its result |
| AiPrompt.AuditPromptEmbedsContract | utils/ai-prompt.ts:15-40 | in `AuditPrompt`, the template copied character for character, the contract appears verbatim right after the fixed instructions; the prompt's length is the template's plus the contract's |
| AiPrompt.AuditPromptInjective | utils/ai-prompt.ts:15-40 | different contracts give different audit prompts |
| AiPrompt.FixPromptEmbedsBoth | utils/ai-prompt.ts:70-75 | in `FixPrompt`, the template copied character for character, the suggestions and the contract both appear verbatim, at fixed offsets |
| AiPrompt.FixPromptAmbiguous | utils/ai-prompt.ts:70-75 | moving the template's middle line between the suggestions and the contract gives the same prompt |
| AiPrompt.StripJsonOpener | utils/ai-prompt.ts:46 | the result is a suffix of the reply; a reply not starting with "```json" is unchanged; otherwise exactly the opener and the whitespace after it are removed |
| AiPrompt.SkipLower | utils/ai-prompt.ts:79 | `[a-z]*` consumes the longest run of lower-case letters |
| AiPrompt.StripCodeOpener | utils/ai-prompt.ts:79 | the result is a suffix of the reply; a reply not starting with "```" is unchanged; otherwise exactly the fence, the longest run of lower-case letters after it and the longest whitespace run after that are removed |
| AiPrompt.FindTrailingFence | utils/ai-prompt.ts:47 | the search finds a position where `/```\s*$/` matches, or proves there is none from the start index |
| AiPrompt.TrailingFenceUnique | utils/ai-prompt.ts:47 | `/```\s*$/` matches at one position at most |
| AiPrompt.StripTrailingFence | utils/ai-prompt.ts:47 | the result is a prefix of its input; with no match the input is unchanged; with one it is cut exactly where the trailing fence starts |
| AiPrompt.StripTrailingFenceAt | utils/ai-prompt.ts:47 | when the fence pattern matches at i, the result is everything before i |
| AiPrompt.CleanJsonReply | utils/ai-prompt.ts:45-48 | the cleaned reply has no whitespace at its ends and occurs inside the reply |
| AiPrompt.CleanCodeReply | utils/ai-prompt.ts:78-81 | the cleaned reply has no whitespace at its ends and occurs inside the reply |
| AiPrompt.JsonFenceRoundTrip | utils/ai-prompt.ts:45-48 | "```json" + x + "```" + whitespace cleans to `trim(x)` for every x |
| AiPrompt.CodeFenceRoundTrip | utils/ai-prompt.ts:78-81 | "```" + lower-case tag + x + "```" + whitespace cleans to `trim(x)` whenever x does not start with a lower-case letter |
| AiPrompt.UnfencedReplyIsTrimmed | utils/ai-prompt.ts:45-48 | a reply with neither fence is only trimmed |
| AiPrompt.OtherOpenerKept | utils/ai-prompt.ts:46 | after a fence not followed by `j`, the cleaned text still starts with the fence |
| AiPrompt.OnlyOneTrailingFenceRemoved | utils/ai-prompt.ts:47 | of two closing fences, only the last is removed, and the text left ends in a fence again |
| AiPrompt.ReplayAppend | utils/ai-prompt.ts:11-57 | replaying setter calls in two batches equals replaying them together |
| AiPrompt.FirstSetterCall | utils/ai-prompt.ts:11 | the first setter call of a request switches loading on and changes nothing else |
| AiPrompt.LoadingOnUntilSettled | utils/ai-prompt.ts:11-57 | when the stored outcome is not a loading change, loading is on after every setter call but the last and off after the last |
| AiPrompt.AuditStore | utils/ai-prompt.ts:50-52 | `analyzeContract` stores an outcome exactly when the parse succeeds, and that outcome never changes loading |
| AiPrompt.FixStore | utils/ai-prompt.ts:78-83 | `fixIssues` stores an outcome exactly when the model answered, and that outcome never changes loading |
| AiPrompt.SetterCallsOutcome | utils/ai-prompt.ts:11-57 | after the setter calls, loading is off and only the stored outcome has been applied |
| AiPrompt.AnalyzeOutcome | utils/ai-prompt.ts:50-57 | after `analyzeContract` the results are the parsed reply when the parse succeeds and are unchanged otherwise; the contract is untouched |
| AiPrompt.FixOutcome | utils/ai-prompt.ts:78-88 | after `fixIssues` the contract is the cleaned reply when the model answered and is unchanged otherwise; the results are untouched |
| AiPrompt.Session.constructor | src/app/page.tsx:10-12 | the page starts not loading, with no results and an empty contract |
| AiPrompt.Session.AnalyzeContract | utils/ai-prompt.ts:6-58 | while the model call is awaited the state is the old one with loading on, which is the state after the first setter call; the new state is the old one after the setter calls `analyzeContract` makes: loading off, results set from the parsed reply or kept on any failure, contract unchanged |
| AiPrompt.Session.FixIssues | utils/ai-prompt.ts:60-89 | while the model call is awaited the state is the old one with loading on, which is the state after the first setter call; the new state is the old one after the setter calls `fixIssues` makes: loading off, contract replaced by the cleaned reply or kept when the call fails, results unchanged |

## Left out

- The React rendering, the Prism highlighting, the hidden file input and `openFileExplorer` are user interface only.
- `alert` is modelled as a list of messages shown; `analyze` is modelled as a call counter. Its body is in `src/app/page.tsx`, which is not part of this model beyond its initial state.
- The `FileReader` callback is asynchronous. `CustomCodeEditor.HandleFileUpload` models the handler once the read has finished, with the first selected file's text as an optional parameter.
- The generative model client (`getGenerativeModel`, `generateContent`, the API key) is an external service. The prompt is modelled by `AuditPrompt` and `FixPrompt`. The reply, or the exception the call throws, is a parameter of the request.
- AiPrompt.Session.AnalyzeContract: receives the model's reply to the audit prompt as a parameter. It is not tied to `AuditPrompt(contract)` inside the method.
- AiPrompt.Session.FixIssues: likewise receives the reply to the fix prompt as a parameter, not tied to `FixPrompt(contract, suggestions)`.
- The states between the setter calls that run after the model call (after `setResults` or `setContract` but before `setLoading(false)`) are not returned by the methods, since no `await` separates those calls. `LoadingOnUntilSettled` states them on the setter-call sequence instead.
- `JSON.parse` is a parameter `parse` returning an optional value. Its failure is the thrown exception that the `catch` block handles.
- `console.error` in both `catch` blocks only writes a log line.
- The modal state of `src/app/page.tsx` and its `fixIssues` handler are not part of this model. That handler's body is commented out, so the page never calls `fixIssues`.
- Overlapping requests are not modelled. The two `async` functions are modelled as completing one at a time.
- Strings are sequences of characters, not of UTF-16 code units. Both patterns and `trim` compare characters only with ASCII text and with the whitespace set, whose members all lie in the Basic Multilingual Plane, so their results do not depend on the encoding.
- AiPrompt.OtherOpenerKept: covers replies whose text after the fence does not start with `j`. A text starting with `j` but not with `json` is kept too, yet is not covered by the lemma.
- AiPrompt.CodeFenceRoundTrip: requires the body not to start with a lower-case letter. Such a letter would be taken as part of the tag, which `StripCodeOpener` states.
