# scgptApp request pipeline, modelled in Dafny

scgptApp is a retrieval-augmented chat assistant for Star Citizen. A browser chat client
validates and rewrites what the user types, then posts it to an API route. The route
validates and rewrites the query again, resolves the client's IP from request headers, logs
the request and runs the pipeline. The pipeline sanitises the query, embeds it, asks a
vector index for 50 neighbours, builds a two-message prompt from the retrieved passages and
streams the completion back. The home page resolves and validates the client IP to display
a daily request count, and the client disables its input once more than 5 requests were
made in a day.

This project models the deterministic logic in front of the third-party services:

- the validators and string rewriters;
- the header selection;
- the IP validator;
- the prompt assembly;
- the order and branching of the service calls;
- the chunk-forwarding stream;
- the chat client's message list.

Each operation carries a contract that states what the source promises of it. Lemmas relate the operations to partners: each rewrite to its replacing and its no-op cases, the prompt to its parts, the IP derivation to the validator, and each method to the function that specifies it.

The modules, one per file:

- `JsText` (js_text.dfy) holds the JavaScript string operations these files use, written
  out on `string`:
  - `trim()`, which strips WhiteSpace and LineTerminator, the same set the regex class
    `\s` matches;
  - ASCII case folding for `/i`;
  - `split`, `join` and concatenation.
- `JsRegex` (js_regex.dfy) holds each regular expression of the core as a hand-written
  match function. It drives them with JavaScript's `replace` semantics:
  - a global replace resumes at `lastIndex`;
  - after an empty match it advances by one;
  - a non-global replace replaces the first match only.
- `Rag` (rag.dfy) models the helpers of src/lib/rag.ts and the completion requests, and `RagStream` (rag_stream.dfy) models `askRAGStream`. The three services
  are a `Services` value: each one returns its result or fails.
- `RagRoute` (route.dfy) models route.ts: `getIpAddress`, `validateAndSanitizeQuery`, the `POST`
  status decision, and a `StreamController` class whose `start` loop fills its queue.
- `HomePage` (page.dfy) models page.tsx: `validateIpAddress` as a method with its octet loop, proved
  equal to a specification function, and the IP derivation.
- `ChatClient` (chat_client.dfy) models chatClient.tsx:
  - `validateAndSanitizeInput`;
  - the `limitExceeded` threshold and the disabled controls;
  - a `ChatSession` class whose `HandleSendMessage` and `ReadBody` methods update the
    message list as the source's `setMessages` calls do.

Two consequences of the code as written are stated as lemmas, not hidden:

- The route's first rewrite `.replace(/.*/gs, "[code block removed]")` matches the whole
  trimmed query and then the empty string at its end. Every accepted query therefore
  becomes exactly `[code block removed][code block removed]`, and the four phrase filters
  after it change nothing.
  - The comments beside the chain (route.ts:60-64) say it removes code blocks and common
    injection phrases.
  - The model follows the code: `RagRoute.RewriteQuery`,
    `RagRoute.ValidateAndSanitizeQuery` and `RagRoute.PostLogsRewrittenQuery`.
  - The user's words never reach the log or the pipeline.
- `handleSendMessage` returns early on blank input before it validates. The
  "Input cannot be empty." message is therefore never shown, and a refused input always
  shows the length error (`ChatClient.RefusedInputShowsLengthError`). For the same reason
  the fallback "Invalid input. Please try again." is never shown.

The home page validates the address it derives (page.tsx:44-49). The API route logs
whatever `getIpAddress` returns, unvalidated, and that may be `""`. The model follows the
code (`RagRoute.BlankFirstEntryGivesEmptyIp`).

## Model

| member | source | states |
|---|---|---|
| Rag.StripControl | src/lib/rag.ts:17 | the result has no character in U+0000–U+001F or U+007F–U+009F and is no longer than the input; a single character is dropped iff it is a control character |
| Rag.StripControlAppend | src/lib/rag.ts:17 | the removal distributes over concatenation, so the kept characters keep their number and order |
| Rag.StripControlChars | src/lib/rag.ts:17 | a character occurs in the result exactly when it occurs in the input and is not a control character |
| Rag.StripControlClean | src/lib/rag.ts:17 | a string without control code units is left unchanged |
| Rag.SanitizeInput | src/lib/rag.ts:14-27 | the result has no control code unit, neither starts nor ends with whitespace, and is at most 2003 long |
| Rag.SanitizeInputShape | src/lib/rag.ts:16-26 | a stripped-and-trimmed string of length ≤ 2000 is returned as it is; a longer one becomes its first 2000 code units followed by "..." |
| Rag.SanitizeInputFixpoint | src/lib/rag.ts:14-27 | a trimmed, control-free string of length ≤ 2000 is its own sanitisation |
| Rag.SanitizeInputIdempotent | src/lib/rag.ts:14-27 | sanitising twice is sanitising once, so the double sanitisation in the pipeline is harmless |
| Rag.IsNonBlankTrim | src/lib/rag.ts:34 | the filter `item && item.trim() !== ''` keeps an item iff its trim is non-empty |
| Rag.NonBlank | src/lib/rag.ts:34 | the filter keeps only non-blank items, each taken from the input |
| Rag.NonBlankAppend | src/lib/rag.ts:34 | the filter distributes over concatenation, so it keeps the input order |
| Rag.NonBlankKeeps | src/lib/rag.ts:34 | every non-blank input item survives the filter |
| Rag.ValidateContext | src/lib/rag.ts:30-37 | at most 50 items and never more than the input; item i is the sanitised i-th non-blank input item, in order |
| Rag.ControlOnlyPassageBecomesEmpty | src/lib/rag.ts:34-35 | a passage made only of U+0001 passes the filter and comes out as "", so the output can hold empty items |
| Rag.RetrievedTexts | src/lib/rag.ts:47-49 | the post-filter returns only non-empty texts, never more than the matches |
| Rag.RetrievedTextsAppend | src/lib/rag.ts:47-49 | the post-filter distributes over concatenation, so it keeps match order |
| Rag.RetrievedTextsMembers | src/lib/rag.ts:47-49 | a text is kept iff it is non-empty and some match carries it as `metadata.text` |
| Rag.StreamRequestMessages | src/lib/rag.ts:101-131 | exactly two messages, system then user; the user content has no control code unit, neither starts nor ends with whitespace and is at most 2003 long |
| Rag.RequestMessages | src/lib/rag.ts:52-81 | exactly two messages, system then user; the user content has no control code unit, neither starts nor ends with whitespace and is at most 2003 long |
| Rag.ContextBlockControls | src/lib/rag.ts:105-109 | the only control character a retrieved passage can bring into the system prompt is the newline of the blank-line separator |
| Rag.StreamSystemPromptShape | src/lib/rag.ts:107-120 | the streaming system prompt opens with the persona text, carries the context block right after it and ends with the safety guidelines |
| Rag.SystemPromptShape | src/lib/rag.ts:59-70 | the non-streaming system prompt opens with the persona text, carries the context block right after it and ends with the safety guidelines |
| Rag.StreamPromptAddsMarkdownNote | src/lib/rag.ts:59-120 | the streaming prompt is the non-streaming prompt with the markdown note inserted before the guidelines |
| Rag.EmptyRetrievalPrompt | src/lib/rag.ts:141-145 | with nothing retrieved the request is still two messages, with an empty context block |
| RagStream.RagPipeline | src/lib/rag.ts:133-148 | the calls run in order: embed the sanitised query, then search with topK 50 only after an embedding, then, only after a search, the completion with the sanitised query and the retrieved texts. The run streams iff all three services answer |
| RagStream.CompletionRequest | src/lib/rag.ts:101-148 | the completion call gets the retrieved texts as context, and its user message (the query sanitised again by the generator) is the raw query sanitised once |
| RagStream.AskRAGStream | src/lib/rag.ts:133-148 | the method's outcome and call trace are those of the pipeline specification, both retrieval branches included |
| RagRoute.QueryProperty | src/app/api/rag/route.ts:79-82 | reading `body.query` throws only on a `null` body, and gives `undefined` when the property is absent |
| RagRoute.ValidateAndSanitizeQuery | src/app/api/rag/route.ts:38-71 | valid iff the query is a string whose trim has 1 to 1000 code units; valid iff a sanitised query is returned, iff there is no error; a valid query always becomes "[code block removed][code block removed]" |
| RagRoute.QueryErrors | src/app/api/rag/route.ts:40-58 | the four error texts, in their order: required, must be a string, cannot be empty, exceeds 1000 |
| RagRoute.RewriteQuery | src/app/api/rag/route.ts:61-68 | `/.*/gs` replaces a non-empty query twice and "" once, and the four phrase filters find nothing in the result, so the chain yields "[code block removed]" once or twice |
| RagRoute.PhraseFiltersKeep | src/app/api/rag/route.ts:65-68 | the four phrase filters, in order, leave a text with none of their lead letters unchanged |
| RagRoute.IpSources | src/app/api/rag/route.ts:14-23 | the eight sources: the four headers of the platform list, then the same four of the request |
| RagRoute.FirstTruthy | src/app/api/rag/route.ts:26-27 | the index of the first source that is neither null nor empty, or none when no such source exists |
| RagRoute.GetIpAddress | src/app/api/rag/route.ts:9-35 | the loop's result equals the first-truthy selection cut at its first comma and trimmed; "unknown" when every source is empty; never contains a comma |
| RagRoute.BlankFirstEntryGivesEmptyIp | src/app/api/rag/route.ts:29 | a first source " ,1.2.3.4" yields the empty IP |
| RagRoute.UserAgent | src/app/api/rag/route.ts:97-98 | the platform user agent if truthy, else the request's if truthy, else "unknown"; never empty |
| RagRoute.Post | src/app/api/rag/route.ts:73-143 | nothing is logged or called iff the body is unreadable, null or its query fails validation; otherwise the log entry comes first and then one effect per pipeline call, at most four in all; a stream follows all three calls |
| RagRoute.PostStatus | src/app/api/rag/route.ts:77-142 | 400 iff the body's query fails validation, and then nothing is logged or called. The 400 response carries the validator's error text. An unreadable or null body gives 500 with "Failed to process request" and no effect. A stream is returned iff validation passes and all three services answer |
| RagRoute.PostLogsRewrittenQuery | src/app/api/rag/route.ts:104-119 | an accepted request is logged first, with the rewritten query, and the pipeline then embeds that same text |
| RagRoute.PostAcceptedEffects | src/app/api/rag/route.ts:104-119 | for an accepted request the first effect is the log entry with the client address, the sanitised query and the user agent, and the second is the embedding call on that query sanitised again |
| RagRoute.RewrittenQueryIsSanitized | src/app/api/rag/route.ts:119 | the rewritten query passes through the pipeline's sanitisation unchanged |
| RagRoute.DeltaText | src/app/api/rag/route.ts:126 | a chunk with a first choice carrying delta content contributes that content, otherwise "" |
| RagRoute.StreamController.Enqueue | src/app/api/rag/route.ts:127 | appends one item to the queue of a readable stream |
| RagRoute.StreamController.Close | src/app/api/rag/route.ts:129 | closes the stream, queue unchanged |
| RagRoute.StreamController.Error | src/app/api/rag/route.ts:124-130 | a `start` that rejects leaves the stream errored; the queue keeps what was enqueued |
| RagRoute.Start | src/app/api/rag/route.ts:124-130 | one enqueued item per upstream chunk, in order, each the chunk's delta text. What was enqueued concatenates to the streamed text, and the stream ends closed, or errored when the upstream fails mid-way |
| JsRegex.MatchSystemPrompt | src/app/api/rag/route.ts:67 | a match is `system:` in any case, a run of whitespace and `prompt` in any case, at least 13 long |
| JsRegex.SystemPromptMatched | src/app/api/rag/route.ts:67 | conversely, `system:`, a run of whitespace and `prompt` at a position match there, all of them |
| JsRegex.MatchScriptBlock | src/app/chatClient.tsx:61 | a match is `<script` in any case, not followed by a word character, up to and including the nearest closing tag; an opening with no closing tag after it never matches |
| JsRegex.MatchSlashCommand | src/app/chatClient.tsx:63 | a match is only at position 0: `/system`, `/admin` or `/debug` in any case followed by one whitespace code unit |
| JsRegex.MatchPromptMarker | src/app/chatClient.tsx:64 | a match opens with `[[`, closes with `]]` and is at least 10 long |
| JsRegex.MarkerMatchShape | src/app/chatClient.tsx:64 | between its brackets a match holds a run of whitespace, `prompt` in any case and a run of whitespace |
| JsRegex.MarkerMatched | src/app/chatClient.tsx:64 | conversely, `[[`, whitespace, `prompt` in any case, whitespace and `]]` match at their position, all of them |
| JsRegex.MarkerReplaced | src/app/chatClient.tsx:64 | a marker with no other `[[` around it is replaced by the replacement text and the text on both sides is kept |
| JsRegex.ScriptMatched | src/app/chatClient.tsx:61 | conversely, `<script>`, a body with no closing tag and `</script>` match at their position, all of them |
| JsRegex.ScriptReplaced | src/app/chatClient.tsx:61 | a script block with no other `<` around it is replaced by the replacement text and the text on both sides is kept |
| JsRegex.SingleMatchReplaced | src/app/chatClient.tsx:61-64 | a global replace whose only match is a non-empty one at a position (none before it, none from its end on) substitutes that match and keeps the text on both sides |
| JsRegex.DotStarReplacesTwice | src/app/api/rag/route.ts:63 | a global `/.*/gs` replace of a non-empty string yields the replacement twice, and of "" once |
| JsRegex.NoMatchWithoutLead | src/app/api/rag/route.ts:65-68 | a phrase filter finds no match in a string that lacks its first letter in either case |
| HomePage.GroupsSplit | src/app/page.tsx:18 | the scanner of `^\d{1,3}(\.\d{1,3}){3}$` accepts iff the dot-split parts are n groups of 1 to 3 digits |
| HomePage.GroupsCharacters | src/app/page.tsx:18 | a string the quad pattern accepts holds only digits and dots |
| HomePage.DottedQuadSplit | src/app/page.tsx:18-19 | the quad pattern holds iff the split has exactly four digit groups |
| HomePage.ParseInt10 | src/app/page.tsx:21 | `parseInt(s, 10)` gives a number iff, after leading whitespace, a digit follows an optional sign; only a `-` sign gives a negative value |
| HomePage.ParseDigits | src/app/page.tsx:21 | the digit run gives a value iff the text starts with a digit, and the value is non-negative |
| HomePage.ParseIntOfDigits | src/app/page.tsx:21 | `parseInt(g, 10)` of a digit group is its non-negative decimal value, so the NaN and negative checks never fire |
| HomePage.IpValidation | src/app/page.tsx:14-39 | the validator returns null or its argument unchanged |
| HomePage.CheckOctets | src/app/page.tsx:20-25 | the octet loop succeeds iff every octet is at most 255 |
| HomePage.ValidateIpAddress | src/app/page.tsx:14-39 | the method equals the specification; the result is null or the non-empty argument, so null and "" give null |
| HomePage.DottedQuadAccepted | src/app/page.tsx:18-26 | four digit groups joined by dots are accepted iff each value is at most 255 |
| HomePage.DottedQuadIsJoin | src/app/page.tsx:18-19 | a dotted quad is its four parts joined with dots |
| HomePage.OctetAboveBoundRefused | src/app/page.tsx:22 | "256.0.0.1" is refused |
| HomePage.LeadingZeroAccepted | src/app/page.tsx:21 | "010.0.0.1" is accepted |
| HomePage.NonQuadValidation | src/app/page.tsx:30-38 | a string that is not a dotted quad is accepted iff it contains ':' and only hex digits and colons |
| HomePage.ColonFormsAccepted | src/app/page.tsx:30-35 | "::1" and ":" are accepted |
| HomePage.AddressWithPortRefused | src/app/page.tsx:30-34 | "1.2.3.4:80" is refused |
| HomePage.QuadHasNoColon | src/app/page.tsx:18 | a string the dotted-quad check accepts holds no `:` |
| HomePage.ColonAndDotRefused | src/app/page.tsx:14-39 | any string holding both `:` and `.`, such as an address with a port, is refused |
| HomePage.OtherFormsRefused | src/app/page.tsx:38 | "localhost" and "1.2.3" are refused |
| HomePage.DeriveIp | src/app/page.tsx:46-49 | the IP is "unknown" for a missing or empty header; otherwise it is the trimmed first comma-separated entry exactly when the validator accepts that entry, and "unknown" otherwise; never empty and never with a comma |
| HomePage.FirstEntryKept | src/app/page.tsx:47-49 | a trimmed entry that the validator accepts, followed by a comma and anything, is the derived address |
| HomePage.ValidFirstEntryKept | src/app/page.tsx:47-49 | "1.2.3.4, 5.6.7.8" derives "1.2.3.4" |
| HomePage.RefusedFirstEntry | src/app/page.tsx:47-49 | "localhost, 1.2.3.4" derives "unknown": only the first entry is considered |
| ChatClient.RewriteInput | src/app/chatClient.tsx:59-64 | text with no `<`, no `[[` and no leading `/` comes through the three rewrites unchanged |
| ChatClient.ValidateAndSanitizeInput | src/app/chatClient.tsx:41-67 | valid iff the trim is non-empty and at most 5000 long, and valid iff there is no error message. An invalid input has an empty sanitised text and the empty or length message. A valid input's sanitised text is the trim after the three rewrites |
| ChatClient.UnterminatedScriptKept | src/app/chatClient.tsx:61 | with no closing tag anywhere, the script rewrite changes nothing |
| ChatClient.ScriptBlockWhole | src/app/chatClient.tsx:61 | "<script>" + body + "</script>" with no '<' in the body is one whole match of the script pattern |
| ChatClient.ScriptOnlyInputAcceptedEmpty | src/app/chatClient.tsx:59-66 | an input that is only a script block is valid with an empty sanitised text |
| ChatClient.CommandRewritten | src/app/chatClient.tsx:63 | a leading /system, /admin or /debug (any case) plus one whitespace is replaced by "blocked-command:" once, the rest untouched |
| ChatClient.CommandKept | src/app/chatClient.tsx:63 | without a leading command the command rewrite changes nothing |
| ChatClient.CommandsExclusive | src/app/chatClient.tsx:63 | at most one of the three commands can start a string |
| ChatClient.MarkerFreeKept | src/app/chatClient.tsx:64 | a string without "[[" is left unchanged by the marker rewrite |
| ChatClient.ScriptFreeKept | src/app/chatClient.tsx:61 | a string without `<` is left unchanged by the script rewrite |
| ChatClient.SlashFreeKept | src/app/chatClient.tsx:63 | a string that does not start with `/` is left unchanged by the command rewrite |
| ChatClient.MarkerDefused | src/app/chatClient.tsx:59-64 | an input holding one prompt marker, with no `<`, no other `[[` and no leading `/`, becomes the text before it, "[blocked-prompt-injection]" and the text after it |
| ChatClient.ScriptDropped | src/app/chatClient.tsx:59-64 | an input holding one `<script>` block, with no other `<`, no `[[` and no leading `/`, becomes the text before and after the block |
| ChatClient.LimitBlocksSending | src/app/chatClient.tsx:18 | more than 5 recent requests disables both controls; at most 5, not loading and a non-blank input enables sending; sending enabled implies input enabled |
| ChatClient.AfterSend | src/app/chatClient.tsx:69-148 | a send keeps every earlier message and appends at most three; a blank input changes nothing and any other input appends at least one |
| ChatClient.RefusedInputShowsLengthError | src/app/chatClient.tsx:70-83 | a non-blank refused input appends exactly one assistant message, the length error, and its trim is over 5000 long |
| ChatClient.AcceptedInputMessages | src/app/chatClient.tsx:85-142 | an accepted input appends the user message with the sanitised text, then the answer as the concatenated chunks when a body arrives, then the apology when the fetch, status or read fails |
| ChatClient.ChatSession.HandleSendMessage | src/app/chatClient.tsx:69-148 | the new message list is the send specification of the old list and input. The input is cleared unless blank, and the sanitised text is posted iff valid. Each screen during streaming, from the empty answer on, shows the chunks read so far in the last message |
| ChatClient.ChatSession.ReadBody | src/app/chatClient.tsx:109-133 | the read loop leaves one assistant message holding all chunks in order. It first shows an empty answer, after j chunks it shows chunks 0..j-1, and an apology follows a failed read |
| ChatClient.ChatSession.SetInput | src/app/chatClient.tsx:172 | typing replaces the input and leaves the messages unchanged |

## Left out

- A `char` is a Unicode scalar value, while a JavaScript string is a sequence of UTF-16 code units. The model's lengths count code points, so they agree with the source only for text inside the Basic Multilingual Plane. A character outside it counts once in the model and twice in JavaScript. This affects three limits: the 1000-unit query limit (route.ts:56), the 2000-unit cut in `sanitizeInput` (rag.ts:21-23) and the 5000-unit input limit (chatClient.tsx:49-50). For example, 600 copies of U+1F600 pass the model's query check, but the route refuses them. Lone surrogates, which JavaScript strings can hold, are outside the model.
- JSON numbers are modelled as integers. Only whether `body.query` is absent, null, a string or something else matters to the route.
- src/lib/embed.ts, the vector index and the chat-completion service are not part of this model. Each is a `Services` field that either gives its result or fails, and the model does not compute embeddings, similarity or completions.
- The non-streaming `askRAG` and `generateResponse` are not modelled as a pipeline, because nothing in the core calls them. Only their message construction (`Rag.RequestMessages`) is modelled.
- `TextEncoder`/`TextDecoder`: chunks are strings on both sides of the network.
- `RequestLog.create` is modelled as a log effect in the route's result. The write itself, its timestamp and its fire-and-forget failure are not modelled.
- `countDocuments` and the 24-hour clock arithmetic in page.tsx are not modelled. The client's `recentRequests` is an input.
- `connectToDatabase` is not modelled, including its failure outside the route's `try`.
- Console logging is not modelled.
- React rendering is not modelled: scrolling, the `isLoading`/`isStreaming` flags, `router.refresh`, the Enter-key handler and the layout, logo and coffee components. `isLoading` appears only as an input of the control predicates.
- Header names are looked up as lower-case map keys. The case-insensitive matching that `Headers.get` performs is not modelled.
- Cancellation of the response stream by the client is not modelled. An upstream that fails mid-way is modelled as the stream becoming errored after the chunks enqueued so far.
- RagRoute.StreamController.Error: when `start` rejects, the stream is errored and chunks enqueued but not yet read by the client are discarded. The model's `queue` keeps everything that was enqueued, so it does not say which of those chunks the client reads before the error.
- Retrieved `metadata.text` values are modelled as strings or absent. A truthy non-string value (a number, `true`, an array) passes `filter(Boolean)` (rag.ts:49); `item.trim()` (rag.ts:34) then throws and the route answers 500, a run the model cannot produce.
- db/index.ts and db/schema.ts are not part of this model.
- ChatClient.ChatSession.ReadBody: the source overwrites `content` of the last message object in place, inside a copy of the list. The model replaces the last element of the sequence, so the aliasing between the old and new lists is not modelled.
- ChatClient.ChatSession.HandleSendMessage: the intermediate screens are recorded in a ghost out-parameter. React's batching of `setMessages` updates is not modelled.
- RagRoute.GetIpAddress: "unknown" is claimed only when every source is empty, not the converse, because a header whose value is the text "unknown" yields the same result.
