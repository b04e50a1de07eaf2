# generateResult: structured completion with resilient reply normalisation

This project models `generateResult` from `backend/services/ai.service.js`. The
function turns a caller's prompt into one request for a text-generation
provider. It normalises the provider's reply and always hands back a JSON
value. That value is one of three things: the parsed reply, an "unparsed"
fallback envelope carrying the reply text, or a "request failed" envelope
flagged with `error: true`.

The model is pure, as the source is: datatypes, functions and lemmas.

- `wrappers.dfy` (`Wrappers`): the `Option` type. It stands for JavaScript's
  `undefined` and for a parse that throws.
- `string_ops.dfy` (`StringOps`): JavaScript `trim` and `startsWith`.
  `IsWhitespace` is the set of code points `String.prototype.trim` removes:
  the WhiteSpace and LineTerminator productions of ECMAScript. This module
  also defines occurrence of a substring (`OccursAt`, `Contains`) and
  `IsSubsequence` ("obtained by deleting characters").
- `fences.dfy` (`Fences`): the global replace `replace(/```json|```/g, "")`,
  written as a left-to-right scan (`StripFences`). At each position it tries
  "```json" first and then "```". A match is deleted and the scan goes on
  after it. Otherwise the character is kept and the scan moves on by one.
- `json.dfy` (`Json`): JSON values, property lookup (`Get`), and the two
  fallback envelopes `UnparsedFallback` and `FailureEnvelope`.
- `ai_service.dfy` (`AiService`): the request template (`BuildRequest`),
  reply normalisation (`NormalizeReply`), the try/catch choice between the
  three outcomes (`Select`, `Render`) and `GenerateResult`, which ties them
  together.

Three things the source gets from outside are parameters of `GenerateResult`:

- `provider`: the network call. It maps the request text to `Failed` (the
  call threw) or `Reply(text)`, where `text` is the optional reply.
- `parse`: `JSON.parse`. It maps a text to `Some(value)`, or to `None` where
  `JSON.parse` throws. Nothing is assumed about it in general. Two lemmas
  take what they need about it as a `requires`: `ResultOnBlankReply` assumes
  that the empty text does not parse, and `ResultOnFencedReply` assumes that
  the fenced body parses to the value it names.
- `instruction`: the text of the fixed system instruction.

Main results:

- After the fence branch, no "```" is left, even where deleting a fence brings
  backticks from both sides together (`StripRemovesAllFences`,
  `NormalizeFenced`).
- The normalised text is a subsequence of the trimmed reply (`NormalizeFenced`).
- The normalised text never has whitespace at either end, and never starts
  with a fence (`NormalizeReply`, `NormalizeNoLeadingFence`).
- Normalising twice changes nothing (`NormalizeIdempotent`).
- The two fallback envelopes differ only in their text and the trailing
  `error: true` member (`FailureEnvelope`, `Render`).
- The prompt can be recovered exactly from the request (`PromptRecoverable`).

The fence removal is global. In the fence branch it also deletes "```" and
"```json" that appear inside the JSON payload itself, for example inside a
string value. `StripRemovesAllFences` states that behaviour as written.

## Model

| member | source | states |
|---|---|---|
| `StringOps.SkipSpaceForward` | backend/services/ai.service.js:128 | the position returned is the first one at or after the start that is not whitespace: everything skipped is whitespace and the character there (if any) is not |
| `StringOps.SkipSpaceBackward` | backend/services/ai.service.js:128 | the position returned starts the run of whitespace ending at the given end, bounded below by the given start: everything skipped is whitespace and the character before it (if above the bound) is not |
| `StringOps.StartsWithCharwise` | backend/services/ai.service.js:131 | `startsWith("```")` holds exactly when the text is at least as long as the prefix and agrees with it at every position of the prefix (both directions) |
| `StringOps.Trim` | backend/services/ai.service.js:128 | `trim()` returns a slice of its input; only whitespace is removed, at both ends; no whitespace is left at either end |
| `StringOps.TrimEmptyIffBlank` | backend/services/ai.service.js:128 | trimming gives "" exactly when the input is all whitespace (both directions) |
| `StringOps.TrimWrapped` | backend/services/ai.service.js:128 | one whitespace character at each end of an otherwise trimmed non-empty text is removed and nothing else |
| `StringOps.TrimAvoids` | backend/services/ai.service.js:128 | trimming a text that does not contain a pattern cannot make it contain it |
| `StringOps.TrimIsSubsequence` | backend/services/ai.service.js:128 | trimming only deletes characters |
| `StringOps.TrimTrimmed` | backend/services/ai.service.js:132 | trimming text with no whitespace at either end returns it unchanged |
| `Fences.StripFences` | backend/services/ai.service.js:132 | the replace never lengthens the text |
| `Fences.StripRemovesAllFences` | backend/services/ai.service.js:132 | no "```" occurs anywhere in the result of the global replace, for every input |
| `Fences.StripIsSubsequence` | backend/services/ai.service.js:132 | the replace only deletes characters: the result is a subsequence of the input |
| `Fences.StripFenceFree` | backend/services/ai.service.js:132 | a text containing no "```" passes through the replace unchanged |
| `Fences.StripIdempotent` | backend/services/ai.service.js:132 | applying the replace twice is the same as applying it once |
| `Fences.StripTakesJsonFenceWhole` | backend/services/ai.service.js:132 | when the text being scanned starts with "```json", the whole tagged fence goes as one token, so no "json" is left behind (a "```json" preceded by a stray backtick is not: "````json" becomes "`json") |
| `Fences.StripStrayTickBeforeJsonFence` | backend/services/ai.service.js:132 | the replace matches leftmost: "````json" becomes "`json", because its first three backticks are taken as a bare fence |
| `Fences.StripBareFence` | backend/services/ai.service.js:132 | a bare "```" is removed entirely |
| `Fences.StripBodyThenFence` | backend/services/ai.service.js:132 | a text containing no "```" followed by a closing "```" comes out of the replace as that text, even when it ends in backticks that run into the closing fence |
| `Fences.BacktickFreeAvoidsFence` | backend/services/ai.service.js:132 | a text without backticks contains no "```" |
| `Fences.StripBacktickFree` | backend/services/ai.service.js:132 | a stretch without backticks is kept verbatim, whatever follows it |
| `Fences.TrimmedStripAvoidsFence` | backend/services/ai.service.js:132 | the re-trim after the replace cannot bring a "```" back |
| `Fences.TrimmedStripIsSubsequence` | backend/services/ai.service.js:132 | replace followed by trim still only deletes characters |
| `Json.UnparsedFallback` | backend/services/ai.service.js:139-146 | the unparsed fallback has exactly the members text, fileTree, buildCommand and startCommand, in that order; text is the given text; the three placeholders are `{}`; there is no `error` member |
| `Json.FailureEnvelope` | backend/services/ai.service.js:153-159 | the failure envelope has the fixed message as text, the same three `{}` placeholders and `error: true`; its members are those of the unparsed fallback for that message plus `error: true` at the end |
| `AiService.BuildRequest` | backend/services/ai.service.js:112-117 | the request starts with a newline, the instruction and the delimiter; the instruction appears unaltered; the request ends with the prompt and a newline; its length is the two lengths plus 18 |
| `AiService.PromptRecoverable` | backend/services/ai.service.js:112-117 | extracting the prompt from a request gives `p` exactly when the request is the one built from `p` (both directions): the prompt is carried verbatim, neither truncated nor escaped |
| `AiService.BuildRequestInjective` | backend/services/ai.service.js:112-117 | two prompts that give the same request are the same prompt |
| `AiService.TrimmedReply` | backend/services/ai.service.js:128 | `response.text?.trim() \|\| ""` has no whitespace at either end |
| `AiService.NormalizeReply` | backend/services/ai.service.js:128-133 | the normalised text has no whitespace at either end, whichever branch is taken |
| `AiService.NormalizeBlankReply` | backend/services/ai.service.js:128 | a missing or whitespace-only reply normalises to "" |
| `AiService.NormalizeUnfenced` | backend/services/ai.service.js:131-133 | when the trimmed reply does not start with "```", normalisation returns exactly the trimmed reply |
| `AiService.NormalizeKeepsInnerFence` | backend/services/ai.service.js:131-133 | a "```" in the middle of a reply that does not start with one survives (" a```b\n" becomes "a```b") |
| `AiService.NormalizeFenced` | backend/services/ai.service.js:131-133 | when the trimmed reply starts with "```", the result contains no "```" and is a subsequence of the trimmed reply |
| `AiService.NormalizeNoLeadingFence` | backend/services/ai.service.js:128-133 | in either branch the normalised text does not start with "```" |
| `AiService.NormalizeIdempotent` | backend/services/ai.service.js:128-133 | normalising an already normalised reply changes nothing |
| `AiService.NormalizeJsonFenced` | backend/services/ai.service.js:128-133 | a reply of "```json", a body containing no "```" and a closing "```" normalises to the trimmed body: the tag leaves with the opening fence, the closing fence is removed, and single or double backticks in the body are kept |
| `AiService.NormalizeJsonFenceExample` | backend/services/ai.service.js:132 | "```json\n{\"text\":\"hi\"}\n```" normalises to `{"text":"hi"}`, with no leftover tag |
| `AiService.GenerateResult` | backend/services/ai.service.js:109-161 | a failed provider call yields the failure envelope, whatever the prompt; otherwise, when the normalised reply parses, the result is exactly the parsed value, of whatever JSON kind; when it does not, the result is the unparsed fallback carrying the normalised text |
| `AiService.Select` | backend/services/ai.service.js:136-159 | the request-failed outcome is chosen exactly when the call failed; a parsed outcome carries the parse of the normalised reply; an unparsed one carries the normalised reply, which does not parse |
| `AiService.Render` | backend/services/ai.service.js:136-159 | a parsed reply is returned as it is; both fallbacks have `{}` for fileTree, buildCommand and startCommand; the unparsed fallback has no `error` member at all, and `error: true` is present in a fallback exactly when the request failed |
| `AiService.ResultOnBlankReply` | backend/services/ai.service.js:128-146 | if "" does not parse, a missing or blank reply yields the unparsed fallback with text "" and no `error` member |
| `AiService.ResultOnFencedReply` | backend/services/ai.service.js:128-149 | a reply of "```json", a body containing no "```" and a closing "```", whose trimmed body parses, yields that parsed value, untouched by the fences (a body containing "```" loses it: no fence survives the replace) |

## Left out

- Creating the provider client and reading `GEMINI_API_KEY` through dotenv (lines 1-8). This is environment and SDK setup.
- The `ai.models.generateContent` call and its `await` (lines 119-126). The network and the asynchrony become the `provider` parameter. Its outcome is `Failed` or `Reply` with an optional text.
- The generation options: the model identifier, temperature 0.2 and the response mime type (lines 120-125). They are passed through opaquely and do not affect the logic.
- The wording of the system instruction (lines 11-108). It is the `instruction` parameter. The source's constant starts and ends with a newline, but its rules are not enforced by any code.
- The inside of `JSON.parse`. It is the `parse` parameter.
- `JSON.stringify` (lines 149 and 153). `GenerateResult` stops at the JSON value that is serialised. "The result is always valid JSON" is therefore stated by the result type `Json`, not about serialised text.
- The `console.error` log on failure (line 151). It is a side effect with no behavioural content.
- JSON numbers are exact decimals here, not IEEE doubles. Only `parse` produces them, and the model never inspects them.
- JavaScript strings are UTF-16 code units, while Dafny strings here are Unicode scalar values. Every code point `trim` removes, and every fence character, is a single unit in both.
- Objects are lists of members, in the property order of the parsed object. JavaScript lists integer-like keys first, in ascending order, whatever order they were written in; the model leaves that order to `parse`. `Get` returns the first member with a given name. `JSON.parse` never produces duplicate names, and the envelopes have none.
