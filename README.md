# Chat stream engine: a Dafny model

This project models the conversation engine of the voice/chat front end: the
`useChatStream` hook and the input-slot editing of the configuration panel.

The hook keeps the session state:
- the transcript of messages;
- the phase (`idle`, `initializing`, `ready`, `streaming`, `error`);
- the bot settings, the last error, the turn counter and the conversation identifier.

It offers five operations:
- `initConversation` starts a conversation against the initialisation endpoint.
- `sendMessage` appends the user turn and an empty assistant placeholder. It then posts the request and reads the streamed reply. The reply is framed as events separated by a blank line, whose `data:` lines carry payloads. Each payload appends text to the placeholder, until a `[DONE]` payload or the end of the body.
- `cancel` stops a streaming session.
- `reset` returns to the state of a new session.
- `parseInputSlots` turns the form's named input slots into structured values, or keeps them as literal text.

The configuration panel edits those slots: set a value, rename a key, add a slot under a fresh key, remove a slot.

Layout, one module per file:

- `optional.dfy` (`Optional`): `Option`, standing in for `undefined`/`null`.
- `text.dfy` (`Text`): the JavaScript string operations the code relies on:
  - ECMAScript whitespace, `trim`, the `^\s*` strip;
  - `startsWith`;
  - `split` on a non-empty separator, and `join`;
  - decimal rendering of a status code.
- `json.dfy` (`Json`): JSON values, and the `Codec` through which `JSON.parse` and the rendering of a parsed `content` field are supplied.
- `transcript.dfy` (`Transcript`): messages, the two kinds of message patch, `updateAssistantMessage`'s map over the transcript, and the history sent with a request.
- `frames.dfy` (`Frames`): the event framing of `flushBuffer`, as the payloads of one decoder call and its carry-over, and the chunk-boundary properties.
- `input_slots.dfy` (`InputSlots`): `parseInputSlots`, as a loop over the form's entries.
- `stream_spec.dfy` (`StreamSpec`): the session as a value. Every operation of the hook is a function on that value, and the lemmas state what the operations promise.
- `chat_stream.dfy` (`ChatStream`): the hook as a class `ChatSession` whose fields are the session state. Its methods update them in place, mirroring the source statement by statement. Each method's postcondition ties the new state, as `Snapshot()`, to the matching `StreamSpec` function.
- `slot_editor.dfy` (`SlotEditor`): the slot helpers of the configuration panel.

Network replies, identifiers and clock readings are parameters:
- How the stream request resolves is a `StreamOpen`. The reads of its body are a sequence of `ReadEvent`s: a chunk, the end of the body, an abort, or a failed read.
- How the initialisation request resolves is an `InitReply`.
- The identifiers and timestamps drawn by `uuid()` and `Date.now()` are a `Fresh` record or explicit arguments.

Properties that involve identifiers assume the identifiers drawn for one send are distinct from each other and from every identifier in the transcript, as random UUIDs are.

## Model

| member | source | states |
|---|---|---|
| `Text.TrimEmptyIffBlank` | src/hooks/useChatStream.ts:32 | a value's `trim()` is empty exactly when every character is ECMAScript whitespace |
| `Text.TrimParts` | src/hooks/useChatStream.ts:215 | trimming removes only whitespace and only from the two ends: the text is the leading whitespace, the trimmed text, then the trailing whitespace |
| `Text.TrimStartShape` | src/hooks/useChatStream.ts:215 | the `^\s*` strip drops exactly the leading whitespace, and what it keeps does not start with whitespace |
| `Text.TrimEndShape` | src/hooks/useChatStream.ts:215 | stripping trailing whitespace drops exactly that, and what remains does not end with whitespace |
| `Text.TrimShape` | src/hooks/useChatStream.ts:215 | a trimmed string is empty, or starts and ends with a non-whitespace character |
| `Text.SplitJoin` | src/hooks/useChatStream.ts:208 | joining the pieces of `split(sep)` with `sep` gives the text back |
| `Text.SplitLastFree` | src/hooks/useChatStream.ts:208-209 | the last piece of a split, the carry-over, contains no separator |
| `Text.SplitAppend` | src/hooks/useChatStream.ts:239-240 | splitting `x + y` finds the separators of `x`, and re-splits only the last piece of `x` together with `y` |
| `Text.Decimal` | src/hooks/useChatStream.ts:91 | a status code renders as a non-empty string of decimal digits |
| `Text.DecimalRoundTrip` | src/hooks/useChatStream.ts:168 | the rendered digits read back as the status code |
| `Transcript.UpdateMessage` | src/hooks/useChatStream.ts:54-64 | every message with the given id is patched (merged fields, or the updater's result); every other message is unchanged; the length is kept |
| `Transcript.UpdateUnknownId` | src/hooks/useChatStream.ts:56-57 | patching an id no message carries leaves the transcript unchanged |
| `Transcript.UpdateOneMessage` | src/hooks/useChatStream.ts:54-64 | with unique ids, a patch replaces exactly the one message carrying the id |
| `Transcript.UpdateAppend` | src/hooks/useChatStream.ts:54-64 | patching distributes over concatenated transcripts |
| `Transcript.History` | src/hooks/useChatStream.ts:140-142 | the history sent holds no system entry and is no longer than the transcript |
| `Transcript.HistoryAppend` | src/hooks/useChatStream.ts:140-142 | the history of a concatenation is the concatenation of the histories, order preserved |
| `Transcript.HistoryWithoutSystem` | src/hooks/useChatStream.ts:140-142 | without system messages, the history is the transcript's roles and contents, entry by entry |
| `Frames.LinePayload` | src/hooks/useChatStream.ts:214-216 | a line carries a payload only if it starts with `data:`, and the payload is never empty |
| `Frames.LinePayloadShape` | src/hooks/useChatStream.ts:215-216 | a payload neither starts nor ends with whitespace |
| `Frames.LinePayloadInLine` | src/hooks/useChatStream.ts:214-216 | a payload sits in its line as `data:`, whitespace, the payload, whitespace |
| `Frames.LinePayloadOfLine` | src/hooks/useChatStream.ts:214-216 | every line of that shape yields exactly that payload |
| `Frames.Frame` | src/hooks/useChatStream.ts:207-209 | a final decoder call carries nothing over |
| `Frames.FrameCarry` | src/hooks/useChatStream.ts:207-209 | a non-final call carries over a tail of its input that holds no blank line |
| `Frames.FrameAtBoundary` | src/hooks/useChatStream.ts:239-240 | decoding `x`, then its carry-over plus `y`, yields the payloads and carry-over of decoding `x + y` at once |
| `Frames.LinesPayloadsAppend` | src/hooks/useChatStream.ts:212-213 | the payloads of concatenated lines are the concatenated payloads, in order |
| `Frames.EventsPayloadsAppend` | src/hooks/useChatStream.ts:211-212 | the payloads of concatenated events are the concatenated payloads, in order |
| `InputSlots.ParseInputSlots` | src/hooks/useChatStream.ts:29-40 | a key is sent exactly when its value is not blank; it maps to the parse when the value parses and to the literal text otherwise |
| `StreamSpec.Consume` | src/hooks/useChatStream.ts:211-221 | handling payloads keeps the transcript's length |
| `StreamSpec.ConsumeEffect` | src/hooks/useChatStream.ts:178-205 | handling payloads appends exactly the text of those before the first `[DONE]` to the reply, touching no other message; `finishStream` runs exactly when a `[DONE]` occurs, then turn+1, phase ready, reply not streaming; otherwise phase and turn are unchanged |
| `StreamSpec.ConsumeAppend` | src/hooks/useChatStream.ts:217-220 | handling `a + b` is handling `a`, then `b` unless `a` completed the stream |
| `StreamSpec.ConsumeLine` | src/hooks/useChatStream.ts:213-220 | a line without a payload is skipped; a line with one hands it to `handlePayload`, and stops if that completed the stream |
| `StreamSpec.CollectedStopsAtDone` | src/hooks/useChatStream.ts:186-189 | nothing after a `[DONE]` is appended, and `[DONE]` never is |
| `StreamSpec.TwoPieceReply` | src/hooks/useChatStream.ts:185-205 | the payloads `{"content":"Hi "}`, `{"content":"there"}` and `[DONE]` leave `Hi there` appended, the reply not streaming, phase ready, turn+1 |
| `StreamSpec.DrainEffect` | src/hooks/useChatStream.ts:227-260 | however the read loop ends: turn+1 exactly on completion; ready after completion or abort; error with the message recorded after a failed read; phase unchanged while open. The reply only grows until then, stops streaming at any end, and on failure holds the error text; no other message changes |
| `StreamSpec.DrainChunked` | src/hooks/useChatStream.ts:227-241 | a body read to its end gives the same session however it is chunked: that of handling the whole text in one final decoder call, then `finishStream` unless `[DONE]` ran it |
| `StreamSpec.ChunkedWithoutDone` | src/hooks/useChatStream.ts:230-236 | a body without `[DONE]` read to its end finishes exactly once: turn+1, phase ready, the reply holds the whole body's text and stops streaming |
| `StreamSpec.WholeAtBoundary` | src/hooks/useChatStream.ts:239-240 | handling the whole text equals one non-final call on a prefix, then the rest with its carry-over |
| `StreamSpec.DrainFirstChunk` | src/hooks/useChatStream.ts:239-240 | a chunk is appended to the carry-over and flushed; reading stops if that completed the stream |
| `StreamSpec.Truthy` | src/hooks/useChatStream.ts:152-154 | an optional field is sent exactly when it is a non-empty string; an empty one is dropped |
| `StreamSpec.SendEffect` | src/hooks/useChatStream.ts:110-171 | without a conversation a send changes nothing. Otherwise it appends the user message and then the placeholder after the untouched earlier messages. Turn+1 exactly on completion. The reply stops streaming at every end except a rejected request or a still-open stream. A non-ok reply yields phase error, `Stream failed (<status>): <body>` recorded, and the body as the reply's error content |
| `StreamSpec.SendSettles` | src/hooks/useChatStream.ts:165-171 | a send that completed, was cancelled, failed or got a non-ok reply leaves no message streaming if none was before |
| `StreamSpec.StreamingNotUnique` | src/hooks/useChatStream.ts:158-163 | two rejected stream requests in a row leave two messages streaming |
| `StreamSpec.ChosenId` | src/hooks/useChatStream.ts:72 | the supplied conversation id, trimmed, unless blank; then the fresh one |
| `StreamSpec.ChosenIdTrimmed` | src/hooks/useChatStream.ts:72 | a supplied id is used without surrounding whitespace |
| `StreamSpec.InitAllowsSend` | src/hooks/useChatStream.ts:72-73 | the id is adopted before the request is made, so after any initialisation, even a failed one, a send is not refused |
| `StreamSpec.InitEffect` | src/hooks/useChatStream.ts:66-108 | turn reset to 0, id adopted. On success: phase ready, only the opening assistant message, bot settings stored. On failure: transcript and bot settings kept. A non-ok reply yields phase error and `Init failed (<status>): <body>`; a rejected request leaves phase initializing |
| `StreamSpec.CancelStatus` | src/hooks/useChatStream.ts:267 | streaming becomes ready; every other phase is left as it is |
| `StreamSpec.CancelIdempotent` | src/hooks/useChatStream.ts:265-268 | cancelling twice is cancelling once |
| `StreamSpec.ResetRefusesSend` | src/hooks/useChatStream.ts:270-278 | after reset, a send is refused as not initialised and changes nothing |
| `ChatStream.ChatSession.constructor` | src/hooks/useChatStream.ts:45-52 | a new session: empty transcript, idle, no bot settings, no error, turn 0, no conversation |
| `ChatStream.ChatSession.UpdateAssistantMessage` | src/hooks/useChatStream.ts:54-64 | the transcript becomes `UpdateMessage` of the old one; nothing else changes |
| `ChatStream.ChatSession.FinishStream` | src/hooks/useChatStream.ts:178-183 | the state becomes `Finish` of the old one |
| `ChatStream.ChatSession.HandlePayload` | src/hooks/useChatStream.ts:185-205 | the state and completion flag are `Handle` of the old state and the payload |
| `ChatStream.ChatSession.FlushBuffer` | src/hooks/useChatStream.ts:207-225 | the nested loops with early return give `Flush`'s state, completion flag and carry-over |
| `ChatStream.ChatSession.ReadStream` | src/hooks/useChatStream.ts:227-260 | the read loop and its catch give `Drain`'s state and outcome |
| `ChatStream.ChatSession.SendMessage` | src/hooks/useChatStream.ts:110-171 | the state and outcome are `Send` of the old state; the request body is `Request` of the old state when a conversation exists |
| `ChatStream.ChatSession.InitConversation` | src/hooks/useChatStream.ts:66-108 | the state and outcome are `Init` of the old state; the request body is `InitBody` |
| `ChatStream.ChatSession.Cancel` | src/hooks/useChatStream.ts:265-268 | only the phase changes, to `CancelStatus` of the old phase |
| `ChatStream.ChatSession.Reset` | src/hooks/useChatStream.ts:270-278 | the state becomes that of a new session |
| `SlotEditor.SetSlotValue` | src/components/ConfigPanel.tsx:30-36 | the key holds the new value; every other entry is kept |
| `SlotEditor.SetSlotValueSent` | src/components/ConfigPanel.tsx:30-36 | after an edit, a blank value is not sent, any other value is sent parsed, and the other slots are sent as before |
| `SlotEditor.RenameSlot` | src/components/ConfigPanel.tsx:38-55 | no change when the trimmed key is empty, equals the old key, names a slot with a value, or names an unshadowed property inherited from `Object.prototype` (the lookup at :44 reads the prototype chain); otherwise the new key takes the old value, the old key is gone, and the rest is kept |
| `SlotEditor.RenameToInheritedRefused` | src/components/ConfigPanel.tsx:44-46 | renaming to an inherited name such as `constructor` that no slot shadows leaves the slots unchanged |
| `SlotEditor.RenameRoundTrip` | src/components/ConfigPanel.tsx:38-55 | renaming a slot to an unused, non-inherited key and back restores the slots |
| `SlotEditor.AddSlot` | src/components/ConfigPanel.tsx:57-70 | the key is the first of `slot_<count+1>`, `slot_<count+1>_x`, … without a value; it is bound to `""`; the loop terminates |
| `SlotEditor.AddedSlotNotSent` | src/components/ConfigPanel.tsx:57-70 | a slot just added is blank and is not sent with a request |
| `SlotEditor.RemoveSlot` | src/components/ConfigPanel.tsx:72-76 | the key is gone, every other entry is kept, and removing an absent key changes nothing |

## Where the intended behaviour and the code differ

The model follows the code in each case.

- **Two streaming messages.** The hook is meant to have at most one message streaming at any time. In the code, when the stream request itself rejects (useChatStream.ts:158-163, outside the `try`), the placeholder is left streaming and the phase stays `streaming`. A later send adds a second streaming placeholder. `StreamSpec.StreamingNotUnique` exhibits this. `StreamSpec.SendSettles` proves the invariant for every other way a send ends.
- **Failed init transport.** A transport failure during initialisation is meant to set the phase to `error`. In the code the phase is set to `initializing`, the last error cleared, the turn reset to 0 and the conversation id replaced (useChatStream.ts:68-73) before the request at :82. The rejection then escapes before any further state update, so the phase stays `initializing` (`StreamSpec.InitEffect`).
- **Reply content on failure.** While a reply streams, its content is meant only to grow, each payload appending its text. The failure paths instead replace the whole content with the error text (useChatStream.ts:169 for a non-OK response, :257 for an error raised while reading), discarding the text received so far. `StreamSpec.SendEffect` states this: on those outcomes the reply's content is the error text.

## Left out

- Concurrency is not modelled. The operations run one at a time, to completion or to the point where no further read resolves (the `Pending` outcome). The following are therefore out of scope:
  - interleavings of an in-flight send with `initConversation`, `cancel`, `reset` or a second send;
  - the abort controller in `abortRef`. An abort reaches the model only as the `Aborted` read event, or as the rejected request of `StreamOpen.OpenRejected`.
- React state batching and the stale `messages`/`turn` captured by the `sendMessage` closure are not modelled. The model reads the current state, which is what the closure holds once the previous update has rendered.
- The HTTP exchange is not modelled:
  - `fetch`, its URL and the base-URL resolution;
  - `JSON.stringify` of the request bodies. The bodies are modelled as the records `StreamRequest` and `InitRequest`, and JavaScript object key order is not modelled;
  - `response.json()` failing;
  - `response.text()`.
- Byte decoding (`TextDecoder`) is not modelled. Chunks arrive as decoded text.
- `JSON.parse` and the rendering of `${parsed.content}` when it is truthy are supplied through `Json.Codec`, not implemented.
- Random identifiers (`uuid`) and `Date.now()` are parameters.
- The categorisation of a failed read's error into a message is out of scope. `ReadFailed` carries the message already chosen.
- The index override is modelled as an optional integer. `typeof … === 'number'` admitting NaN and fractions is not modelled.
- SlotEditor.RenameSlot: requires the old key to be present. The panel only binds the handler to existing keys, and an absent key would insert `undefined`, which a string map cannot hold.
- ChatStream.ChatSession.SendMessage: requires nothing of the drawn identifiers. The properties that need them distinct and unused (`StreamSpec.SendEffect`, `StreamSpec.SendSettles`) state that as a precondition.
- Console logging and the `API_BASE` fallback are not modelled. The rest of the repository (booking hook, webhook service, UI components) is not part of this model.
