/**
 * The values a Responses stream carries: the response object under construction, its output
 * items and content parts, the typed stream events, the errors the stream raises, and the
 * signals its event emitter publishes.
 */
module ResponseTypes {
  import opened Wrappers

  /** A part of a message's `content`: text that grows by deltas, or a part of another kind. */
  datatype ContentPart =
    | OutputText(text: string)
    | OtherPart(kind: string)

  /** An element of a response's `output`. */
  datatype OutputItem =
    | Message(content: seq<ContentPart>)
    | FunctionCall(arguments: string)
    | OtherItem(kind: string)

  /** The response object; `id` stands for all of its identity fields. */
  datatype Response = Response(id: string, output: seq<OutputItem>)

  /** The type-specific payload of a stream event, one constructor per `type` the accumulator tells apart. */
  datatype EventBody =
    | Created(response: Response)
    | OutputItemAdded(item: OutputItem)
    | ContentPartAdded(outputIndex: int, part: ContentPart)
    | OutputTextDelta(outputIndex: int, contentIndex: int, delta: string)
    | FunctionCallArgumentsDelta(outputIndex: int, delta: string)
    | Completed(response: Response)
    | OtherEvent(name: string)

  /** A stream event: its `sequence_number` and its typed payload. */
  datatype Event = Event(sequenceNumber: int, body: EventBody)

  /** The event's `type` discriminant. */
  function TypeName(b: EventBody): string
  {
    match b
    case Created(_) => "response.created"
    case OutputItemAdded(_) => "response.output_item.added"
    case ContentPartAdded(_, _) => "response.content_part.added"
    case OutputTextDelta(_, _, _) => "response.output_text.delta"
    case FunctionCallArgumentsDelta(_, _) => "response.function_call_arguments.delta"
    case Completed(_) => "response.completed"
    case OtherEvent(name) => name
  }

  /** The `type` names that have their own constructor, and `event`, the emitter's generic name. */
  const ReservedNames: seq<string> := [
    "response.created", "response.output_item.added", "response.content_part.added",
    "response.output_text.delta", "response.function_call_arguments.delta", "response.completed", "event"]

  /** An event as the API sends it: one of another type never carries a reserved name. */
  predicate WellFormed(e: Event)
  {
    e.body.OtherEvent? ==> e.body.name !in ReservedNames
  }

  function PartKind(p: ContentPart): string
  {
    match p
    case OutputText(_) => "output_text"
    case OtherPart(kind) => kind
  }

  /** The errors a stream can end with. */
  datatype StreamError =
    | NotCreatedFirst(got: string)   // an event other than `response.created` before any snapshot
    | MissingOutput(outputIndex: int)
    | MissingContent(contentIndex: int)
    | NotOutputText(got: string)     // a text delta aimed at a content part of another kind
    | StreamAlreadyEnded             // `#endRequest` on an ended stream
    | NoEvents                       // the request ended without sending any events
    | UserAbort                      // the stream was aborted
    | NoFinalResponse                // the stream ended without producing a response
    | TransportFailure(message: string)

  /** What the event emitter publishes, in order, into its log. */
  datatype Signal =
    | Connect
    | Published(name: string, event: Event, snapshot: Option<string>)
    | End
    | AbortSignal(abortError: StreamError)
    | ErrorSignal(failure: StreamError)

  predicate IsTerminal(s: Signal)
  {
    s.End? || s.AbortSignal? || s.ErrorSignal?
  }
}
