# oatmilk: a verified model of the response stream, the summary text processing and the upload filter

This project models, in Dafny, the core of the oatmilk medical-recording application:

- **`ResponseStream`** (the streaming helper that turns a stream of Responses API events into a
  growing response snapshot, named events and an async iterator). The model has three layers:
  - `Accumulator`: pure functions for `#accumulateResponse` and `#addEvent` over one event, and
    `Pump` for the drain loop over a timeline of arrivals (events, the caller's cancellation, a
    transport failure).
  - `PullAdapter`: pure functions for the queues behind `[Symbol.asyncIterator]()`, that is, the
    buffered events, the waiting readers and the `done` flag.
  - `ResponseStreams.ResponseStream`: a class whose methods update the snapshot, the emitter's log,
    the `ended` and `aborted` flags and the iterator's queues in place. Each method is proved
    against the functions of the other two layers.
- **The recording page script** (`public/app.js`):
  - `parseSummary`, which reads a Markdown summary into key points, action items, medical terms
    and free text;
  - the classification of a reminder as a medicine or an appointment.
- **The summaries page script** (`public/js/app.js`):
  - `markdownToHtml`;
  - `buildSummaryFromOldFormat`;
  - the preview text of a summary card;
  - the search filter;
  - the `mm:ss` recording clock.
- **The upload middleware's `fileFilter`**, which accepts audio files by MIME type.

The JavaScript string built-ins these use are modelled once, in `JsStrings`: `trim`, `split`,
`join`, `indexOf`, `includes`, `replace` with a string pattern, `toLowerCase`, `toString` and
`padStart`. Files: `wrappers.dfy`, `js_strings.dfy`, `response_types.dfy`, `accumulator.dfy`,
`pull_adapter.dfy`, `response_stream.dfy`, `summary_parser.dfy`, `summary_view.dfy`,
`upload_filter.dfy`.

## Model

| member | source | states |
|---|---|---|
| Accumulator.Accumulate | ResponseStream.ts:203-264 | `#accumulateResponse`. Accepting any event but `response.completed` onto a bound snapshot keeps its id and never shortens its output. |
| Accumulator.Emissions | ResponseStream.ts:106-146 | The publications of an accepted event: first the event under `event`, then at most one more. A failure in the repeated lookups leaves out the second. |
| Accumulator.AddEventSpec | ResponseStream.ts:97-148 | `#addEvent`. An event at or below `starting_after` publishes nothing. An event that raises no error always leaves a bound snapshot. |
| Accumulator.Pump | ResponseStream.ts:194-196 | The drain loop over a timeline of arrivals. It never ends both with an error and aborted. |
| Accumulator.CreatedBindsSnapshot | ResponseStream.ts:203-215 | Before a snapshot exists, exactly `response.created` is accepted, and it binds the event's response. Any other type fails with the "expected 'response.created'" error naming that type. |
| Accumulator.OutputItemAddedAppends | ResponseStream.ts:216-219 | `response.output_item.added` appends exactly the event's item. Every earlier item and the response id are kept. |
| Accumulator.ContentPartAddedRule | ResponseStream.ts:220-229 | `content_part.added` appends the part to the addressed item when that item is a message. It changes nothing else. A missing item is an error; an item that is not a message is left alone. |
| Accumulator.TextDeltaRule | ResponseStream.ts:230-246 | `output_text.delta` appends the delta to the addressed `output_text` part and changes nothing else. A missing item, a missing part or a part that is not `output_text` is an error; an item that is not a message is left alone. |
| Accumulator.ArgumentsDeltaRule | ResponseStream.ts:247-256 | `function_call_arguments.delta` appends the delta to the addressed function call's arguments. A missing item is an error; an item that is not a function call is left alone. |
| Accumulator.CompletedReplacesOthersKeep | ResponseStream.ts:257-263 | `response.completed` replaces the snapshot with the event's response. `response.created` and the other types keep it. |
| Accumulator.RecheckNeverFails | ResponseStream.ts:106-146 | Once the accumulator has accepted an event, the item and part lookups that `#addEvent` repeats never throw. |
| Accumulator.EmissionsCarryEvent | ResponseStream.ts:106-146 | Every publication of one `#addEvent` call carries that call's event. |
| Accumulator.PublicationRule | ResponseStream.ts:97-146 | An accepted event is published under `event` and then under its own type, each unless it is at or below `starting_after`. Delta events carry the whole text or the whole arguments as `snapshot`. |
| Accumulator.FailedEventPublishesNothing | ResponseStream.ts:106-107 | An event the accumulator refuses publishes nothing, leaves the snapshot unchanged and raises the accumulator's error. |
| Accumulator.KeepAfterAppend | ResponseStream.ts:100-104 | The `starting_after` filter distributes over concatenation of publications. |
| Accumulator.KeepAfterAllOf | ResponseStream.ts:100-104 | Publications that all carry one event are kept or dropped together, by that event's sequence number. |
| Accumulator.ResumeFiltersOnlyPublication | ResponseStream.ts:179-196 | A drain resumed after sequence number `k` reaches the same snapshot, error and abort as a drain with no threshold. Its publications are exactly the unresumed ones about events numbered above `k`. |
| Accumulator.RawEventsAppend | ResponseStream.ts:107 | The events published under `event` distribute over concatenation of publications. |
| Accumulator.RawEventsOfStep | ResponseStream.ts:106-146 | Of one well-formed event's publications, exactly one goes out under the generic `event` name. An event is well-formed unless it has an unhandled type whose name is a handled one or `event`. |
| Accumulator.AsArrivals | ResponseStream.ts:194-196 | A plain event stream is a timeline of deliveries of those events, position by position. |
| Accumulator.PumpNext | ResponseStream.ts:194-196 | The drain over one more arrival either has already stopped, or takes one more turn on that arrival. |
| Accumulator.PumpLastEvent | ResponseStream.ts:194-196 | Over events alone, the drain takes one `#addEvent` step for the last event. |
| Accumulator.EventsNeverAbort | ResponseStream.ts:194-199 | Without a cancellation in the timeline, the drain loop never ends aborted. |
| Accumulator.EveryEventPublishedOnce | ResponseStream.ts:97-196 | If a drain of well-formed events raises no error, the events published under `event` are the drained events above `starting_after`. Each appears exactly once, in arrival order. |
| Accumulator.LastEventApplied | ResponseStream.ts:194-196 | If a drain raises no error, so does its drain without the last event, and the accumulator accepts that last event. The final snapshot is what the accumulator returns for it. |
| Accumulator.DrainedSnapshotIsReplay | ResponseStream.ts:194-263 | A drain that raises no error leaves exactly the snapshot reached by folding the accumulator over the events, and that fold never fails. |
| Accumulator.TextStep | ResponseStream.ts:230-246 | An accepted event other than `response.completed` extends an existing text part by exactly the delta it addresses to that part, if any. |
| Accumulator.ArgumentsStep | ResponseStream.ts:247-256 | An accepted event other than `response.completed` extends an existing function call's arguments by exactly the delta it addresses to it, if any. |
| Accumulator.ReplayedText | ResponseStream.ts:230-246 | Folding the accumulator over events without `response.completed` leaves an existing text part as its old text followed by every delta addressed to it, in order. |
| Accumulator.ReplayedArguments | ResponseStream.ts:247-256 | The same holds for a function call's arguments and its argument deltas. |
| Accumulator.TextIsConcatenationOfDeltas | ResponseStream.ts:194-246 | After a drain with no error and no `response.completed`, an existing text part holds its old text followed by all its deltas, in order. |
| Accumulator.ArgumentsAreConcatenationOfDeltas | ResponseStream.ts:194-256 | After such a drain, an existing function call's arguments are its old arguments followed by all its deltas, in order. |
| Accumulator.ReplayAppend | ResponseStream.ts:203-264 | Folding the accumulator over two batches of events is folding over the first, then over the second from where it stopped. A failure in the first is final. |
| Accumulator.FailureSticks | ResponseStream.ts:194-196 | A drain that has raised an error by some point ends with an error. |
| Accumulator.DrainFromCreated | ResponseStream.ts:194-263 | An errorless drain of a stream that opens with `response.created` leaves what the accumulator alone reaches from that event's response with the remaining events. |
| Accumulator.DrainResumesAt | ResponseStream.ts:194-196 | Splitting such a drain after any event: the first part leaves a bound snapshot, and the whole leaves what the accumulator reaches from it with the rest. |
| Accumulator.PartAddedAt | ResponseStream.ts:220-229 | Right after the `content_part.added` that adds a text part to a message, that part holds the event's initial text. |
| Accumulator.CallAddedAt | ResponseStream.ts:216-219 | Right after the `output_item.added` that adds a function call, the call holds the event's initial arguments. |
| Accumulator.TextOfCreatedPart | ResponseStream.ts:194-246 | From its creating `content_part.added` on, with no error and no later `response.completed`, a text part ends as its initial text followed by every delta addressed to it, in order. |
| Accumulator.ArgumentsOfAddedCall | ResponseStream.ts:194-256 | From its `output_item.added` on, with no error and no later `response.completed`, a function call's arguments end as the initial arguments followed by every argument delta addressed to it, in order. |
| Accumulator.PumpStopsAt | ResponseStream.ts:194-199 | Once an error is thrown, or the aborted transport has stopped delivering (a cancellation arrival), the drain loop takes nothing more from the timeline. The loop itself never checks the abort. |
| Accumulator.EmptyStreamRaisesNoEvents | ResponseStream.ts:154-157 | A request that receives no events fails with "request ended without sending any events". |
| Accumulator.FirstEventMustBeCreated | ResponseStream.ts:205-213 | A stream whose first event is not `response.created` fails with that complaint, whatever follows. |
| Accumulator.CancellationRaisesAbort | ResponseStream.ts:194-199 | A cancellation reached before any error makes the request fail with the user-abort error. |
| Accumulator.CompletedResponseIsFinal | ResponseStream.ts:194-260 | If the last event is `response.completed` and the request succeeds, it resolves with that event's response. |
| Accumulator.RequestOutcome | ResponseStream.ts:165-201 | A request whose signal was already aborted fails with the user-abort error. A request succeeds only if it was not aborted, its create or retrieve call was not rejected, and its drain did not end aborted. |
| PullAdapter.OnEvent | ResponseStream.ts:274-281 | The `event` listener settles one more reader or buffers one more event, so the two together grow by one. `done` is unchanged and no reader is added. |
| PullAdapter.OnEnd | ResponseStream.ts:283-289 | The `end` listener sets `done`, settles every waiting reader and keeps the buffered events. |
| PullAdapter.OnFailure | ResponseStream.ts:291-305 | The `abort` and `error` listeners set `done`, settle every waiting reader and keep the buffered events. |
| PullAdapter.Next | ResponseStream.ts:308-319 | `next()` returns a value exactly when an event is buffered, and `done: true` exactly when none is buffered and the iterator is done. It never changes `done` or settles anyone. |
| PullAdapter.SettleAll | ResponseStream.ts:285-288 | Settling the waiting readers settles each of them, in queue order, with the same outcome. |
| PullAdapter.SettleAllSnoc | ResponseStream.ts:285-288 | Settling one more reader appends its settlement. |
| PullAdapter.FeedAppend | ResponseStream.ts:274-305 | The listeners' reaction to two batches of signals is the reaction to the first, then to the second. |
| PullAdapter.OnSignalValid | ResponseStream.ts:274-305 | Each listener keeps the queues consistent: events are never buffered while a reader waits, and no reader waits once `done` is set. |
| PullAdapter.FeedValid | ResponseStream.ts:274-305 | Any sequence of signals keeps the queues consistent. |
| PullAdapter.NextValid | ResponseStream.ts:308-319 | `next()` keeps the queues consistent. |
| PullAdapter.NextRule | ResponseStream.ts:308-319 | `next()` returns the oldest buffered event and removes it, or `done: true` once done, or otherwise adds a new waiting reader at the end. |
| PullAdapter.TerminalSettlesEveryReader | ResponseStream.ts:283-305 | `end` resolves every waiting reader as exhausted, and `abort` and `error` reject every one with the error. Each leaves the iterator done with no reader waiting and the buffered events kept. |
| PullAdapter.EmitKeepsOrder | ResponseStream.ts:274-305 | An emitted signal neither loses nor reorders events: what was handed out, then what is buffered, grows by exactly the events that signal publishes. |
| PullAdapter.PullKeepsOrder | ResponseStream.ts:308-319 | `next()` neither loses nor reorders events: what was handed out, then what is buffered, is unchanged. |
| PullAdapter.PullIsFifo | ResponseStream.ts:266-325 | Under any interleaving of emissions and `next()` calls, the consumer gets the published events in order, with none lost or duplicated, and the queues stay consistent. |
| ResponseStreams.StartingAfter | ResponseStream.ts:178-191 | Only a retrieval by response id carries a `starting_after`, and it is the one given. A new response carries none. |
| ResponseStreams.TerminalFor | ResponseStream.ts:83-88 | The signal that ends the stream is always terminal: `end` on success, `abort` or `error` on failure. |
| ResponseStreams.EndsOnceAppend | ResponseStream.ts:102 | Emitting onto a live stream keeps the log ending with its only terminal signal exactly when the stream has ended. |
| ResponseStreams.EmitInSync | ResponseStream.ts:274-305 | Every signal emitted on a live stream keeps an attached iterator in step with the log. Received events, then buffered ones, are exactly the events published under `event` since it was attached. |
| ResponseStreams.ResponseStream.constructor | ResponseStream.ts:72-75 | A new stream has an empty log, has not ended or aborted, holds no snapshot and no final response, and has no iterator attached. |
| ResponseStreams.ResponseStream.SettleReaders | ResponseStream.ts:283-305 | Every waiting reader is settled with the outcome, oldest first. The wait list is emptied and the iterator is done. |
| ResponseStreams.ResponseStream.Dispatch | ResponseStream.ts:274-305 | The iterator's queues change exactly as its listeners react to the signal, and the consumer receives what that signal hands over. |
| ResponseStreams.ResponseStream.Emit | ResponseStream.ts:102 | Once ended, emitting does nothing. Otherwise the signal is appended to the log, a terminal one ends the stream, and an attached iterator reacts to it. |
| ResponseStreams.ResponseStream.MaybeEmit | ResponseStream.ts:100-104 | The event is logged under the name, and fed to an attached iterator, exactly when it is above `starting_after`. |
| ResponseStreams.ResponseStream.Connected | ResponseStream.ts:193 | `connect` is logged unless the stream has ended, and the iterator is unaffected. |
| ResponseStreams.ResponseStream.Abort | ResponseStream.ts:321 | The controller is aborted. |
| ResponseStreams.ResponseStream.BeginRequest | ResponseStream.ts:92-95 | The snapshot is forgotten unless the stream has ended. |
| ResponseStreams.ResponseStream.AccumulateResponse | ResponseStream.ts:203-264 | The stored snapshot becomes what the accumulator computes for the event. On failure it is unchanged and the accumulator's error is returned. |
| ResponseStreams.ResponseStream.Recheck | ResponseStream.ts:107-146 | Publishes under `event`, then at most one more publication of the same event, as `Emissions` specifies. A failure leaves out the second publication. |
| ResponseStreams.ResponseStream.AddEvent | ResponseStream.ts:97-148 | Once ended, nothing changes. Otherwise the snapshot, the log, the thrown error and an attached iterator's queues are exactly as `AddEventSpec` specifies. |
| ResponseStreams.ResponseStream.EndRequest | ResponseStream.ts:150-163 | Fails if the stream has ended or no snapshot was bound. Otherwise the snapshot is cleared and becomes the final response that is returned. |
| ResponseStreams.ResponseStream.Consume | ResponseStream.ts:194-199 | One turn of the drain loop leaves the snapshot, the log, the error and the abort flag as `Arrive` specifies. |
| ResponseStreams.ResponseStream.DrainStep | ResponseStream.ts:194-196 | After one more turn, the state is the drain over one more arrival. |
| ResponseStreams.ResponseStream.Drain | ResponseStream.ts:194-196 | The whole loop leaves the snapshot, the log, the error and the abort flag exactly as `Pump` specifies. |
| ResponseStreams.ResponseStream.CreateOrRetrieveResponse | ResponseStream.ts:165-201 | The result is `RequestOutcome`. An aborted signal fails the request before connecting. A rejected create or retrieve call fails it with that error, also before connecting, with the log unchanged. Otherwise the log gains `connect` and the drain's publications, and a success becomes the final response. |
| ResponseStreams.ResponseStream.HandleError | ResponseStream.ts:83-88 | A user abort ends the stream with `abort`, and any other error ends it with `error`. |
| ResponseStreams.ResponseStream.Run | ResponseStream.ts:83-88 | The stream ends with the terminal signal for the request's outcome, including a rejected create or retrieve call. `finalResponse()` then gives the response on success and the error otherwise. |
| ResponseStreams.ResponseStream.FinalResponse | ResponseStream.ts:331-336 | `finalResponse()` is pending until the stream has ended, and any response it gives is the stored final response. |
| ResponseStreams.ResponseStream.AsyncIterator | ResponseStream.ts:266-273 | Attaching an iterator starts it with empty queues, in step with the log from that point on. |
| ResponseStreams.ResponseStream.Next | ResponseStream.ts:308-319 | `next()` changes the queues and answers exactly as `PullAdapter.Next` specifies. A new waiting reader takes a fresh id. |
| ResponseStreams.ResponseStream.Return | ResponseStream.ts:320-323 | `return()` aborts the stream and reports `done: true`. |
| JsStrings.TrimStartRule | public/app.js:145 | `trim` removes exactly the longest all-white-space prefix. |
| JsStrings.TrimEndRule | public/app.js:145 | `trim` removes exactly the longest all-white-space suffix. |
| JsStrings.TrimRule | public/app.js:145 | A trimmed string is empty or neither begins nor ends with white space. |
| JsStrings.TrimEmpty | public/js/app.js:485-487 | A line trims to nothing exactly when it is all white space. |
| JsStrings.TrimUntouched | public/app.js:176 | A string with no white space at either end is its own trim. |
| JsStrings.IndexOfFirst | public/js/app.js:242 | `indexOf` finds the first occurrence. |
| JsStrings.FirstIndexAt | src/middleware/uploadMiddleware.js:16 | The first occurrence of a character is the position holding it with none before it. |
| JsStrings.SplitRule | public/app.js:141 | No part of a split holds the separator, a string without the separator splits into itself, and the first part is everything before the first separator. |
| JsStrings.JoinSplit | public/js/app.js:480-546 | Splitting on a separator and joining with it again gives back the string. |
| JsStrings.SplitHeadAndRest | public/app.js:161-164 | A split is the part before the first separator followed by the split of the rest. |
| JsStrings.ToLowerAt | public/js/app.js:704-706 | The ASCII lowercasing that stands for `toLowerCase` maps each character independently and keeps the length. |
| JsStrings.ToLowerIdempotent | public/js/app.js:704-706 | Lowercasing twice is lowercasing once. |
| JsStrings.NumberToStringRoundTrip | public/js/app.js:192-193 | Reading back the decimal digits `toString` writes gives the number. |
| JsStrings.PadStartZerosRule | public/js/app.js:192-193 | `padStart(2, '0')` puts zeros, and only zeros, before the string. |
| JsStrings.PadStartZerosValue | public/js/app.js:192-193 | Zero padding keeps a string of digits a string of digits with the same value. |
| SummaryParser.SummaryOf | public/app.js:132-179 | The value `parseSummary` returns. Its summary text is empty or begins and ends with a character that is not white space. |
| SummaryParser.ClassifyRule | public/app.js:145-172 | Each trimmed line is classified in the parser's order. A `### ` heading names its lowercased rest; a `•`/`-` bullet's point is the rest, trimmed; a text line is non-blank, does not start with `#`, and is already trimmed. |
| SummaryParser.Kinds | public/app.js:141-145 | Each line is classified independently, position by position. |
| SummaryParser.ParseLineStep | public/app.js:144-173 | One pass of the loop body updates the section and the object exactly as `Step` specifies. |
| SummaryParser.ParseSummary | public/app.js:132-179 | The loop over the lines, then the final trim, computes `SummaryOf`. |
| SummaryParser.MedicalPrefixEntry | public/app.js:160-165 | A kept medical point starts with `Medications:`, `Conditions:` or `Vitals/Metrics:`. Its term is that prefix's name and its definition the rest of the point, trimmed. |
| SummaryParser.TermBeforeColon | public/app.js:161-165 | A point that opens with a trimmed, colon-free name and then `:` splits into that name and the trimmed rest. |
| SummaryParser.SectionTracked | public/app.js:147-148 | After any prefix of the lines, the parser is in the section named by the last heading seen, or in none before any heading. |
| SummaryParser.KeyPointsTracked | public/app.js:149-155 | `keyPoints` holds the points of exactly the bullets under "key points", in input order. |
| SummaryParser.ActionItemsTracked | public/app.js:149-158 | `actionItems` holds the points of exactly the bullets under "action items", in input order. |
| SummaryParser.MedicalTermsTracked | public/app.js:149-167 | `medicalTerms` holds, in input order, the entries of exactly the bullets under "medical information" that start with one of the three prefixes. |
| SummaryParser.TextTracked | public/app.js:169-172 | Before its final trim, the summary is the text lines, each followed by a newline. |
| SummaryParser.JoinSnoc | public/app.js:169-172 | Joining one more part appends the separator and that part. |
| SummaryParser.TerminatedIsJoin | public/app.js:169-172 | Lines each followed by a newline are the lines joined with newlines, plus one newline. |
| SummaryParser.JoinOfTrimmed | public/app.js:169-176 | Joined trimmed non-empty lines begin and end with a character that is not white space. |
| SummaryParser.TrimDropsFinalNewline | public/app.js:176 | The final trim removes exactly the trailing newline. |
| SummaryParser.TextLinesAreTrimmed | public/app.js:145-172 | Every text line the parser keeps is non-empty and already trimmed. |
| SummaryParser.SummaryIsJoinedTextLines | public/app.js:169-176 | The summary is the text lines, each trimmed, joined with newlines. With no text lines it is empty. |
| SummaryParser.ReminderFor | public/app.js:77-84 | Information containing `Medications:` becomes a medicine reminder titled with the information less its first `Medications:`, trimmed. Anything else becomes an appointment. The notes are the information itself. |
| SummaryView.ClassifyLineRule | public/js/app.js:485-538 | A line is blank exactly when it trims to nothing. Headings are tried longest prefix first; `• ` and `- ` start a list item whose content is the trimmed rest; any other line is a paragraph of the trimmed line. |
| SummaryView.Blocks | public/js/app.js:480-485 | Each line is classified independently, position by position. |
| SummaryView.RenderLineStep | public/js/app.js:484-539 | One turn of the loop on a raw line updates `result` and `inList` exactly as `RenderBlock` specifies. |
| SummaryView.MarkdownToHtml | public/js/app.js:476-547 | The output is the concatenation of `MarkdownParts`: nothing for empty input; otherwise the loop's parts, then the last list closed. |
| SummaryView.RenderLines | public/js/app.js:484-539 | The loop over the lines leaves `result` and `inList` as `RenderBlocks` specifies. |
| SummaryView.MarkdownParts | public/js/app.js:476-547 | The parts `markdownToHtml` joins. A non-empty input gives at least one part per line. |
| SummaryView.RenderBlocksGrow | public/js/app.js:484-539 | Every line pushes at least one part. |
| SummaryView.EmptyMarkdown | public/js/app.js:477 | Empty input renders as the empty string. |
| SummaryView.ListMarksAppend | public/js/app.js:476-547 | List markers distribute over concatenation of parts. |
| SummaryView.ListMarksOne | public/js/app.js:476-547 | A single part is a marker exactly when it is `<ul>` or `</ul>`. |
| SummaryView.ElementNotAMark | public/js/app.js:497-538 | An element whose tag does not start with `u` or `/` is not a list marker. |
| SummaryView.AppendNonMark | public/js/app.js:497-538 | Appending a part that is not a marker leaves the markers unchanged. |
| SummaryView.CloseListMarks | public/js/app.js:488-491 | Closing adds one `</ul>` exactly when a list is open, and leaves none open. |
| SummaryView.OpenListMarks | public/js/app.js:518-521 | Opening adds one `<ul>` exactly when no list is open, and leaves one open. |
| SummaryView.LinePartNotAMark | public/js/app.js:492-537 | The element a line pushes is never a list marker. |
| SummaryView.RenderBlockMarks | public/js/app.js:484-539 | One turn adds at most one marker: `<ul>` for a list item after a non-item, `</ul>` for a non-item after an item. Afterwards a list is open exactly when the line was a list item. |
| SummaryView.AlternatingSnoc | public/js/app.js:484-539 | A marker that continues the alternation keeps it. |
| SummaryView.RenderBlocksNesting | public/js/app.js:484-539 | After any number of lines, the markers alternate starting with `<ul>`. A list is open exactly when the last marker is `<ul>`, and exactly when the last line was a list item. |
| SummaryView.ListsAlwaysClosed | public/js/app.js:476-547 | The output never leaves a `<ul>` unclosed: markers alternate starting with `<ul>` and the last one is `</ul>`. |
| SummaryView.LineOutput | public/js/app.js:484-539 | Line `n` adds exactly its own parts: `<br>`, a heading or a paragraph after closing an open list, or a `<li>` after opening a list when the line before was not an item. |
| SummaryView.AppendItems | public/js/app.js:449-451 | The `forEach` appends each point's `<li>`, in order. |
| SummaryView.AppendTerms | public/js/app.js:458-460 | The `forEach` appends each term's `<li>`, with the term in bold, in order. |
| SummaryView.AppendItemsSection | public/js/app.js:447-453 | Appends the titled section of the points. |
| SummaryView.AppendTermsSection | public/js/app.js:456-462 | Appends the titled section of the medical terms. |
| SummaryView.OldFormatHtml | public/js/app.js:443-474 | `buildSummaryFromOldFormat`'s value is never empty. With all three lists empty it is the placeholder. |
| SummaryView.BuildSummaryFromOldFormat | public/js/app.js:443-474 | The output is the non-empty sections in fixed order, or the placeholder. |
| SummaryView.SectionOpensWithHeading | public/js/app.js:447-471 | Every section starts with `<h`, which the placeholder does not. |
| SummaryView.FallbackOnlyWhenEmpty | public/js/app.js:473 | Content made of pieces that are empty or start with `<h` is replaced by the placeholder exactly when every piece is empty. |
| SummaryView.PlaceholderIffNoSections | public/js/app.js:443-474 | The placeholder is shown exactly when all three lists are empty. |
| SummaryView.SectionOrder | public/js/app.js:443-474 | Key Points come first when present, then Medical Information, and Action Items always come last. A lone non-empty list gives its section alone. |
| SummaryView.PiecesInOrder | public/js/app.js:443-474 | Concatenated pieces start with the first non-empty piece and end with the last. |
| SummaryView.TranscriptionPreview | public/js/app.js:231-236 | The preview is the transcription if it fits in 100 characters. Otherwise it is its first 100 characters followed by `...`. |
| SummaryView.KeyPointLine | public/js/app.js:239-241 | The chosen line is the first that contains `• ` and does not say `None mentioned`. None means no such line. |
| SummaryView.KeyPointPreviewAsWritten | public/js/app.js:242-244 | As written: the line less its first `• `, cut to 100 characters, followed by `...` exactly when the whole line is longer than 100 characters. |
| SummaryView.KeyPointEllipsisWithoutCut | public/js/app.js:242-244 | As written: a 101-character line, `• ` then 99 letters, is shown whole yet followed by `...`. |
| SummaryView.KeyPointPreview | public/js/app.js:242-244 | Corrected: the line less its first `• `, cut to 100 characters, with `...` exactly when something was cut. |
| SummaryView.CardPreview | public/js/app.js:230-251 | A card with a transcription previews it. Without a transcription or summary text it shows "No content available". Otherwise it shows the first key-point line by the as-written rule, or "No content preview available" when there is none. |
| SummaryView.CardPreviewCorrected | public/js/app.js:230-251 | The same card preview with the corrected key-point rule. |
| SummaryView.CorrectionOnlyDropsSpuriousEllipsis | public/js/app.js:242-244 | Both key-point rules show the same text. They differ exactly when the line is over 100 characters but its text without `• ` is not, where the as-written rule adds `...`. |
| SummaryView.Shown | public/js/app.js:700-712 | Decides one flag per card. |
| SummaryView.ShownRule | public/js/app.js:700-712 | A card is displayed exactly when the term is empty or its lowercased title or content includes the lowercased term. |
| SummaryView.ShownStep | public/js/app.js:700-712 | Deciding one more card appends its match to the flags. |
| SummaryView.CountTrue | public/js/app.js:698-708 | The count of displayed cards never exceeds the number of cards. |
| SummaryView.CountMatches | public/js/app.js:698-708 | The number of matching cards never exceeds the number of cards. |
| SummaryView.CountTrueSnoc | public/js/app.js:708 | One more card adds one to the count exactly when it is displayed. |
| SummaryView.CountTrueZero | public/js/app.js:716 | The count is zero exactly when no card is displayed. |
| SummaryView.FilterSummaries | public/js/app.js:694-732 | Exactly the matching cards are displayed and counted. "No summaries found for "term"" is shown exactly when none matches, the term is non-empty and there are cards. |
| SummaryView.MatchIgnoresCase | public/js/app.js:704-706 | Lowercasing the title, the content or the term first does not change whether a card matches. |
| SummaryView.NoneShownIffNoneMatches | public/js/app.js:716 | The visible count is zero exactly when no card matches. |
| SummaryView.EmptySearchShowsAll | public/js/app.js:704 | An empty term displays every card and shows no message. |
| SummaryView.RecordingClock | public/js/app.js:189-195 | `updateRecordingTime`'s text: at least five characters with a colon before the last two. |
| SummaryView.RecordingClockReadsBack | public/js/app.js:189-195 | The clock is `mm:ss` with at least two digits each. Reading the clock back gives the whole minutes and the remaining seconds of the elapsed time. |
| UploadFilter.BaseMimeType | src/middleware/uploadMiddleware.js:16 | The base type is a prefix with no `;`: everything before the first `;`, or the whole type when there is none. |
| UploadFilter.FileFilter | src/middleware/uploadMiddleware.js:7-23 | A file is accepted exactly when its base type is on the allow-list. Otherwise it is rejected with "Invalid file type. Only audio files are allowed." |
| UploadFilter.ParametersIgnored | src/middleware/uploadMiddleware.js:16-22 | Parameters after the first `;` never change the decision. |
| UploadFilter.AcceptedWithParameters | src/middleware/uploadMiddleware.js:16-22 | An allowed type stays accepted whatever parameters follow it. |
| UploadFilter.WebmWithCodecsAccepted | src/middleware/uploadMiddleware.js:9-22 | A recorder's `audio/webm;codecs=opus` is accepted. |
| UploadFilter.UpperCaseRejected | src/middleware/uploadMiddleware.js:18-22 | The comparison is case-sensitive, so `AUDIO/MPEG` is rejected. |
| UploadFilter.OnlyAudioAccepted | src/middleware/uploadMiddleware.js:9-22 | An accepted file's type always starts with `audio/`. |

## Left out

- The network and the OpenAI client are left out. A rejection of `client.responses.create`/`retrieve` is a parameter (`requestFailure`, its message), and the event stream they return is replaced by a timeline of arrivals: an event, the caller's cancellation, or a transport failure.
- The wiring of an `AbortSignal` listener is reduced to the controller's `aborted` flag. A signal that is already aborted fails the request before it connects.
- The `EventStream` base class (`_run`, `_emit`, `_connected`, `done()`, `abort()`) is not part of this model beyond what the stream uses. That use is reduced to an emission log plus the `ended` flag, and a terminal signal (`end`, `abort`, `error`) stands for the emission that ends the stream.
- Promises are modelled as reader ids with their settlements. The asynchronous scheduling of the consumer and the emitter is modelled as an interleaving of operations.
- Response snapshots are values. The in-place mutation of the shared snapshot object becomes reassignment of a field, and aliasing between the snapshot and the event payloads is not modelled.
- `maybeParseResponse` and `finalizeResponse` are the identity: the parsing of structured output is not part of this model.
- Only one iterator per stream is modelled. The TypeScript allows several listeners.
- The DOM is left out: element lookups, `innerHTML`, styles, event listeners, modals and loading states. The search filter works on the cards' title and content strings.
- The bold and italic rewriting of `markdownToHtml` (two regular expressions) is a parameter `inline` of the renderer.
- `SummaryView.MatchIgnoresCase`: `toLowerCase` maps ASCII letters only, not full Unicode case mapping.
- JsStrings.ToLowerAt: JavaScript's `toLowerCase` uses full Unicode case mapping, which can change the length (`'İ'` becomes two code units) and maps letters such as the Kelvin sign; the model lowercases ASCII letters only, one character to one.
- SummaryView.TranscriptionPreview: lengths and cuts count characters, while JavaScript's `length` and `substring` count UTF-16 code units, so a transcription of 60 emoji (120 code units) is cut in the source but not in the model.
- Strings are sequences of code points in `JsStrings`, `SummaryView.TranscriptionPreview`, `SummaryView.CardPreview` and `SummaryParser.Classify`, not of UTF-16 code units: lengths and 100-character cuts count code points, a cut inside a surrogate pair cannot be represented, and `toLowerCase` is ASCII-only everywhere, so a heading such as `### \u212Aey points` (Kelvin sign) is not recognised as "key points" by the model though it is by the source.
- `SummaryView.RecordingClock`: the elapsed time is a natural number of milliseconds passed in, because `Date.now()` is a clock. A negative elapsed time cannot be represented.
- A missing (`undefined` or `null`) field or list is modelled as an empty string or list.
- Multer's memory storage and its 25 MB file-size limit in the upload middleware are configuration, not logic, and are left out. So are the server-side controllers, services and routes.
- `loadSummaries` is modelled only through the card preview text. Its fetching, sorting and card markup are left out.

## Findings

| source | as written | input that shows it | evidently intended | confidence | as-written member | corrected member |
|---|---|---|---|---|---|---|
| public/js/app.js:242-244 | the preview appends `...` when the key-point line is longer than 100 characters, measured before its first `• ` is removed | `• ` followed by 99 letters: the 99 letters are shown whole, followed by `...` | append `...` only when the shown text was cut | not executed | SummaryView.KeyPointEllipsisWithoutCut | SummaryView.KeyPointPreview |
