/**
 * The accumulation and emission rules of `ResponseStream` as functions of values:
 * `#accumulateResponse` (Accumulate), what `#addEvent` publishes (Emissions, AddEventSpec),
 * and the drain loop of `_createOrRetrieveResponse` over a timeline of arrivals (Pump).
 * The class in response_stream.dfy is proved against these; the lemmas here state what the
 * stream promises about them.
 */
module Accumulator {
  import opened Wrappers
  import opened ResponseTypes

  /** `response` with `output[i]` replaced by `item`. */
  function WithItem(response: Response, i: int, item: OutputItem): (r: Response)
    requires 0 <= i < |response.output|
  {
    response.(output := response.output[i := item])
  }

  /** `b` is `a` except possibly for `output[i]`. */
  ghost predicate SameExceptItem(a: Response, b: Response, i: int)
  {
    && a.id == b.id
    && |a.output| == |b.output|
    && forall k :: 0 <= k < |a.output| && k != i ==> a.output[k] == b.output[k]
  }

  /**
   * The snapshot after `#accumulateResponse` has applied `e` to the current snapshot `current`
   * (None while unset), or the error it throws.
   */
  function Accumulate(current: Option<Response>, e: Event): (r: Result<Response, StreamError>)
    ensures current.Some? && r.Success? && !e.body.Completed? ==>
      r.value.id == current.value.id && |r.value.output| >= |current.value.output|
  {
    match current
    case None =>
      if e.body.Created? then Success(e.body.response) else Failure(NotCreatedFirst(TypeName(e.body)))
    case Some(snapshot) =>
      match e.body
      case OutputItemAdded(item) =>
        Success(snapshot.(output := snapshot.output + [item]))
      case ContentPartAdded(i, part) =>
        if !(0 <= i < |snapshot.output|) then Failure(MissingOutput(i))
        else (
          match snapshot.output[i]
          case Message(content) => Success(WithItem(snapshot, i, Message(content + [part])))
          case _ => Success(snapshot))
      case OutputTextDelta(i, j, delta) =>
        if !(0 <= i < |snapshot.output|) then Failure(MissingOutput(i))
        else (
          match snapshot.output[i]
          case Message(content) =>
            if !(0 <= j < |content|) then Failure(MissingContent(j))
            else (
              match content[j]
              case OutputText(text) =>
                Success(WithItem(snapshot, i, Message(content[j := OutputText(text + delta)])))
              case OtherPart(kind) => Failure(NotOutputText(kind)))
          case _ => Success(snapshot))
      case FunctionCallArgumentsDelta(i, delta) =>
        if !(0 <= i < |snapshot.output|) then Failure(MissingOutput(i))
        else (
          match snapshot.output[i]
          case FunctionCall(arguments) => Success(WithItem(snapshot, i, FunctionCall(arguments + delta)))
          case _ => Success(snapshot))
      case Completed(response) =>
        Success(response)
      case _ =>
        Success(snapshot)
  }

  /**
   * The value `#accumulateResponse` returns once the new snapshot is `next`: its local
   * `snapshot`, which on `response.completed` is still the snapshot from before the event.
   */
  function Returned(current: Option<Response>, e: Event, next: Response): Response
  {
    if current.Some? && e.body.Completed? then current.value else next
  }

  /** The `starting_after` test of `maybeEmit`. */
  predicate Visible(e: Event, startingAfter: Option<int>)
  {
    startingAfter.None? || e.sequenceNumber > startingAfter.value
  }

  /** Publications of one `#addEvent` call before the threshold filter, and the error its re-checks throw. */
  datatype Emitted = Emitted(signals: seq<Signal>, failure: Option<StreamError>)

  /** What `#addEvent` publishes for `e` (unfiltered) when `#accumulateResponse` returned `response`. */
  function Emissions(response: Response, e: Event): (em: Emitted)
    ensures 1 <= |em.signals| <= 2 && em.signals[0] == Published("event", e, None)
    ensures em.failure.Some? ==> |em.signals| == 1
  {
    var raw := Published("event", e, None);
    match e.body
    case OutputTextDelta(i, j, _) =>
      if !(0 <= i < |response.output|) then Emitted([raw], Some(MissingOutput(i)))
      else (
        match response.output[i]
        case Message(content) =>
          if !(0 <= j < |content|) then Emitted([raw], Some(MissingContent(j)))
          else (
            match content[j]
            case OutputText(text) => Emitted([raw, Published(TypeName(e.body), e, Some(text))], None)
            case OtherPart(kind) => Emitted([raw], Some(NotOutputText(kind))))
        case _ => Emitted([raw], None))
    case FunctionCallArgumentsDelta(i, _) =>
      if !(0 <= i < |response.output|) then Emitted([raw], Some(MissingOutput(i)))
      else (
        match response.output[i]
        case FunctionCall(arguments) => Emitted([raw, Published(TypeName(e.body), e, Some(arguments))], None)
        case _ => Emitted([raw], None))
    case _ =>
      Emitted([raw, Published(TypeName(e.body), e, None)], None)
  }

  /** The outcome of one `#addEvent` on a stream that has not ended. */
  datatype Step = Step(snapshot: Option<Response>, emitted: seq<Signal>, failure: Option<StreamError>)

  function AddEventSpec(current: Option<Response>, e: Event, startingAfter: Option<int>): (step: Step)
    ensures !Visible(e, startingAfter) ==> step.emitted == []
    ensures step.failure.None? ==> step.snapshot.Some?
  {
    match Accumulate(current, e)
    case Failure(err) => Step(current, [], Some(err))
    case Success(next) =>
      var em := Emissions(Returned(current, e, next), e);
      Step(Some(next), if Visible(e, startingAfter) then em.signals else [], em.failure)
  }

  /**
   * What the drain loop sees next: an event, the point where the transport stops delivering
   * because the controller was aborted (the loop itself never tests the flag), or a failure of
   * the transport.
   */
  datatype Arrival =
    | Delivered(event: Event)
    | CallerCancelled
    | TransportFailed(message: string)

  function AsArrivals(events: seq<Event>): (r: seq<Arrival>)
    ensures |r| == |events|
    ensures forall k :: 0 <= k < |events| ==> r[k] == Delivered(events[k])
  {
    seq(|events|, k requires 0 <= k < |events| => Delivered(events[k]))
  }

  /** State of the drain loop: snapshot, publications so far, the error that stopped it, and the abort flag. */
  datatype Drained = Drained(snapshot: Option<Response>, emitted: seq<Signal>, failure: Option<StreamError>, aborted: bool)

  /**
   * The drain loop (`for await (const event of stream) this.#addEvent(event, starting_after)`)
   * run from snapshot `current` over `arrivals`: it stops at the first error, and at the point
   * where the aborted transport stops delivering.
   */
  function Pump(current: Option<Response>, arrivals: seq<Arrival>, startingAfter: Option<int>): (d: Drained)
    ensures !(d.failure.Some? && d.aborted)
    decreases |arrivals|
  {
    if arrivals == [] then Drained(current, [], None, false)
    else
      var prev := Pump(current, arrivals[..|arrivals| - 1], startingAfter);
      if prev.failure.Some? || prev.aborted then prev
      else Arrive(prev, arrivals[|arrivals| - 1], startingAfter)
  }

  /** One turn of the drain loop from a state that has not stopped: the step Pump takes for `a`. */
  function Arrive(prev: Drained, a: Arrival, startingAfter: Option<int>): Drained
  {
    match a
    case Delivered(e) =>
      var step := AddEventSpec(prev.snapshot, e, startingAfter);
      Drained(step.snapshot, prev.emitted + step.emitted, step.failure, false)
    case CallerCancelled => prev.(aborted := true)
    case TransportFailed(message) => prev.(failure := Some(TransportFailure(message)))
  }

  /** The drain loop over a prefix one arrival longer: stopped, or one more turn. */
  lemma PumpNext(current: Option<Response>, arrivals: seq<Arrival>, startingAfter: Option<int>, i: nat)
    requires i < |arrivals|
    ensures var prev := Pump(current, arrivals[..i], startingAfter);
      Pump(current, arrivals[..i + 1], startingAfter)
        == if prev.failure.Some? || prev.aborted then prev else Arrive(prev, arrivals[i], startingAfter)
  {
    assert arrivals[..i + 1][..i] == arrivals[..i];
  }

  // ---------------------------------------------------------------------------------------
  // One event at a time

  /** Before a snapshot is bound only `response.created` is accepted, and it binds exactly `event.response`. */
  lemma CreatedBindsSnapshot(e: Event)
    ensures Accumulate(None, e).Success? <==> e.body.Created?
    ensures e.body.Created? ==> Accumulate(None, e) == Success(e.body.response)
    ensures !e.body.Created? ==> Accumulate(None, e) == Failure(NotCreatedFirst(TypeName(e.body)))
  {
  }

  /** `response.output_item.added` appends exactly `event.item` and leaves every earlier item alone. */
  lemma OutputItemAddedAppends(s: Response, item: OutputItem, n: int)
    ensures var r := Accumulate(Some(s), Event(n, OutputItemAdded(item)));
      && r.Success?
      && r.value.id == s.id
      && |r.value.output| == |s.output| + 1
      && r.value.output[..|s.output|] == s.output
      && r.value.output[|s.output|] == item
  {
  }

  /**
   * `response.content_part.added` fails on a missing output item, appends the part to a
   * message's content, and leaves the snapshot unchanged for any other kind of item.
   */
  lemma ContentPartAddedRule(s: Response, i: int, part: ContentPart, n: int)
    ensures var r := Accumulate(Some(s), Event(n, ContentPartAdded(i, part)));
      && (r.Failure? <==> !(0 <= i < |s.output|))
      && (r.Failure? ==> r.error == MissingOutput(i))
      && (0 <= i < |s.output| && !s.output[i].Message? ==> r == Success(s))
      && (0 <= i < |s.output| && s.output[i].Message? ==>
            && SameExceptItem(s, r.value, i)
            && r.value.output[i] == Message(s.output[i].content + [part]))
  {
  }

  /**
   * `response.output_text.delta` appends `delta` to the addressed text part of a message, fails on
   * a missing item, a missing part or a part that is not `output_text`, and leaves the snapshot
   * unchanged when the item is not a message.
   */
  lemma TextDeltaRule(s: Response, i: int, j: int, delta: string, n: int)
    ensures var r := Accumulate(Some(s), Event(n, OutputTextDelta(i, j, delta)));
      && (!(0 <= i < |s.output|) ==> r == Failure(MissingOutput(i)))
      && (0 <= i < |s.output| && !s.output[i].Message? ==> r == Success(s))
      && (0 <= i < |s.output| && s.output[i].Message? ==>
            var content := s.output[i].content;
            && (!(0 <= j < |content|) ==> r == Failure(MissingContent(j)))
            && (0 <= j < |content| && content[j].OtherPart? ==> r == Failure(NotOutputText(content[j].kind)))
            && (0 <= j < |content| && content[j].OutputText? ==>
                  && r.Success? && SameExceptItem(s, r.value, i)
                  && r.value.output[i].Message?
                  && |r.value.output[i].content| == |content|
                  && r.value.output[i].content[j] == OutputText(content[j].text + delta)
                  && forall k :: 0 <= k < |content| && k != j ==> r.value.output[i].content[k] == content[k]))
  {
  }

  /**
   * `response.function_call_arguments.delta` appends `delta` to a function call's arguments,
   * fails on a missing item and changes nothing for any other kind of item.
   */
  lemma ArgumentsDeltaRule(s: Response, i: int, delta: string, n: int)
    ensures var r := Accumulate(Some(s), Event(n, FunctionCallArgumentsDelta(i, delta)));
      && (!(0 <= i < |s.output|) ==> r == Failure(MissingOutput(i)))
      && (0 <= i < |s.output| && !s.output[i].FunctionCall? ==> r == Success(s))
      && (0 <= i < |s.output| && s.output[i].FunctionCall? ==>
            && r.Success? && SameExceptItem(s, r.value, i)
            && r.value.output[i] == FunctionCall(s.output[i].arguments + delta))
  {
  }

  /**
   * `response.completed` replaces the snapshot wholesale, whatever was accumulated; `response.created`
   * on a bound snapshot and every type without a case branch leave it as it is.
   */
  lemma CompletedReplacesOthersKeep(s: Response, e: Event)
    ensures e.body.Completed? ==> Accumulate(Some(s), e) == Success(e.body.response)
    ensures e.body.Created? || e.body.OtherEvent? ==> Accumulate(Some(s), e) == Success(s)
  {
  }

  /**
   * The re-checks `#addEvent` makes on the returned snapshot before publishing a derived delta
   * never fail once `#accumulateResponse` has succeeded: every error comes from accumulation.
   */
  lemma RecheckNeverFails(current: Option<Response>, e: Event)
    requires Accumulate(current, e).Success?
    ensures Emissions(Returned(current, e, Accumulate(current, e).value), e).failure.None?
  {
  }

  /** Every publication of one `#addEvent` carries that event. */
  lemma EmissionsCarryEvent(response: Response, e: Event)
    ensures forall k :: 0 <= k < |Emissions(response, e).signals| ==>
      Emissions(response, e).signals[k].Published? && Emissions(response, e).signals[k].event == e
  {
  }

  /**
   * An applied event is published once under `event` and once more: a text delta on a
   * message under its own type with `snapshot` the whole text so far (old text then delta), an
   * arguments delta on a function call likewise with the whole arguments, and every type but the
   * two deltas under its own type without a snapshot. Nothing is published when the event is at
   * or below `starting_after`; the snapshot is the same either way.
   */
  lemma PublicationRule(s: Response, e: Event, startingAfter: Option<int>)
    requires Accumulate(Some(s), e).Success?
    ensures var step := AddEventSpec(Some(s), e, startingAfter);
      && step.snapshot == Some(Accumulate(Some(s), e).value)
      && step.failure.None?
      && (!Visible(e, startingAfter) ==> step.emitted == [])
      && (Visible(e, startingAfter) ==> |step.emitted| >= 1 && step.emitted[0] == Published("event", e, None))
      && (Visible(e, startingAfter) && !e.body.OutputTextDelta? && !e.body.FunctionCallArgumentsDelta? ==>
            step.emitted == [Published("event", e, None), Published(TypeName(e.body), e, None)])
      && (Visible(e, startingAfter) && e.body.OutputTextDelta? && s.output[e.body.outputIndex].Message? ==>
            var text := s.output[e.body.outputIndex].content[e.body.contentIndex].text;
            step.emitted == [Published("event", e, None),
                             Published("response.output_text.delta", e, Some(text + e.body.delta))])
      && (Visible(e, startingAfter) && e.body.FunctionCallArgumentsDelta? && s.output[e.body.outputIndex].FunctionCall? ==>
            var arguments := s.output[e.body.outputIndex].arguments;
            step.emitted == [Published("event", e, None),
                             Published("response.function_call_arguments.delta", e, Some(arguments + e.body.delta))])
      && (Visible(e, startingAfter) && e.body.OutputTextDelta? && !s.output[e.body.outputIndex].Message? ==>
            step.emitted == [Published("event", e, None)])
      && (Visible(e, startingAfter) && e.body.FunctionCallArgumentsDelta? && !s.output[e.body.outputIndex].FunctionCall? ==>
            step.emitted == [Published("event", e, None)])
  {
  }

  /** A failed event publishes nothing and leaves the snapshot as it was. */
  lemma FailedEventPublishesNothing(current: Option<Response>, e: Event, startingAfter: Option<int>)
    requires Accumulate(current, e).Failure?
    ensures AddEventSpec(current, e, startingAfter) == Step(current, [], Some(Accumulate(current, e).error))
  {
  }

  // ---------------------------------------------------------------------------------------
  // Whole streams

  /** The publications about events with a sequence number above `k`. */
  function KeepAfter(signals: seq<Signal>, k: int): seq<Signal>
    decreases |signals|
  {
    if signals == [] then []
    else
      var last := signals[|signals| - 1];
      KeepAfter(signals[..|signals| - 1], k) + (if last.Published? && last.event.sequenceNumber > k then [last] else [])
  }

  lemma {:induction false} KeepAfterAppend(a: seq<Signal>, b: seq<Signal>, k: int)
    ensures KeepAfter(a + b, k) == KeepAfter(a, k) + KeepAfter(b, k)
    decreases |b|
  {
    if b != [] {
      var b' := b[..|b| - 1];
      assert (a + b)[..|a + b| - 1] == a + b';
      KeepAfterAppend(a, b', k);
    } else {
      assert a + b == a;
    }
  }

  lemma {:induction false} KeepAfterAllOf(signals: seq<Signal>, e: Event, k: int)
    requires forall m :: 0 <= m < |signals| ==> signals[m].Published? && signals[m].event == e
    ensures KeepAfter(signals, k) == if e.sequenceNumber > k then signals else []
    decreases |signals|
  {
    if signals != [] {
      KeepAfterAllOf(signals[..|signals| - 1], e, k);
    }
  }

  /**
   * Resuming with `starting_after = k` rebuilds exactly the state of an unfiltered run (same
   * snapshot, same error, same abort) and publishes exactly the unfiltered run's publications
   * about events numbered above `k`, in order: events are always applied, only publication is filtered.
   */
  lemma {:induction false} ResumeFiltersOnlyPublication(current: Option<Response>, arrivals: seq<Arrival>, k: int)
    ensures var resumed := Pump(current, arrivals, Some(k));
      var full := Pump(current, arrivals, None);
      && resumed.snapshot == full.snapshot
      && resumed.failure == full.failure
      && resumed.aborted == full.aborted
      && resumed.emitted == KeepAfter(full.emitted, k)
    decreases |arrivals|
  {
    if arrivals != [] {
      var init := arrivals[..|arrivals| - 1];
      ResumeFiltersOnlyPublication(current, init, k);
      var prevR := Pump(current, init, Some(k));
      var prevF := Pump(current, init, None);
      if !(prevF.failure.Some? || prevF.aborted) {
        match arrivals[|arrivals| - 1]
        case Delivered(e) =>
          var stepR := AddEventSpec(prevF.snapshot, e, Some(k));
          var stepF := AddEventSpec(prevF.snapshot, e, None);
          if Accumulate(prevF.snapshot, e).Success? {
            var next := Accumulate(prevF.snapshot, e).value;
            EmissionsCarryEvent(Returned(prevF.snapshot, e, next), e);
            KeepAfterAllOf(stepF.emitted, e, k);
          }
          KeepAfterAppend(prevF.emitted, stepF.emitted, k);
        case CallerCancelled =>
        case TransportFailed(_) =>
      }
    }
  }

  /** The events published under the generic `event` name, in order. */
  function RawEvents(signals: seq<Signal>): seq<Event>
    decreases |signals|
  {
    if signals == [] then []
    else
      var last := signals[|signals| - 1];
      RawEvents(signals[..|signals| - 1]) + (if last.Published? && last.name == "event" then [last.event] else [])
  }

  lemma {:induction false} RawEventsAppend(a: seq<Signal>, b: seq<Signal>)
    ensures RawEvents(a + b) == RawEvents(a) + RawEvents(b)
    decreases |b|
  {
    if b != [] {
      var b' := b[..|b| - 1];
      assert (a + b)[..|a + b| - 1] == a + b';
      RawEventsAppend(a, b');
    } else {
      assert a + b == a;
    }
  }

  /** The events of `events` whose sequence number is above the threshold (all of them without one). */
  function After(events: seq<Event>, startingAfter: Option<int>): seq<Event>
    decreases |events|
  {
    if events == [] then []
    else
      var e := events[|events| - 1];
      After(events[..|events| - 1], startingAfter) + (if Visible(e, startingAfter) then [e] else [])
  }

  /** Of the publications of one applied event, only the first goes out under `event`. */
  lemma RawEventsOfStep(response: Response, e: Event)
    requires WellFormed(e)
    ensures RawEvents(Emissions(response, e).signals) == [e]
  {
    var signals := Emissions(response, e).signals;
    assert signals[0].name == "event";
    assert |signals| == 2 ==> signals[1].name != "event" by {
      if |signals| == 2 { assert signals[1].name == TypeName(e.body); }
    }
    assert RawEvents(signals[..1]) == [e] by {
      assert signals[..1][..0] == [];
    }
    if |signals| == 2 {
      assert signals[..2][..1] == signals[..1];
      assert signals[..2] == signals;
    }
  }

  /** The drain loop over events alone takes one `#addEvent` step per event. */
  lemma PumpLastEvent(current: Option<Response>, events: seq<Event>, startingAfter: Option<int>)
    requires events != []
    ensures var prev := Pump(current, AsArrivals(events[..|events| - 1]), startingAfter);
      Pump(current, AsArrivals(events), startingAfter)
        == if prev.failure.Some? || prev.aborted then prev
           else
             var step := AddEventSpec(prev.snapshot, events[|events| - 1], startingAfter);
             Drained(step.snapshot, prev.emitted + step.emitted, step.failure, false)
  {
    assert AsArrivals(events)[..|events| - 1] == AsArrivals(events[..|events| - 1]);
  }

  /** Without a cancellation in the timeline nothing aborts the drain loop. */
  lemma {:induction false} EventsNeverAbort(current: Option<Response>, events: seq<Event>, startingAfter: Option<int>)
    ensures !Pump(current, AsArrivals(events), startingAfter).aborted
    decreases |events|
  {
    if events != [] {
      PumpLastEvent(current, events, startingAfter);
      EventsNeverAbort(current, events[..|events| - 1], startingAfter);
    }
  }

  /**
   * When a stream of events is drained without an error, every event is published under
   * `event` exactly once and in arrival order, less those at or below `starting_after`.
   */
  lemma {:induction false} EveryEventPublishedOnce(current: Option<Response>, events: seq<Event>, startingAfter: Option<int>)
    requires forall k :: 0 <= k < |events| ==> WellFormed(events[k])
    requires Pump(current, AsArrivals(events), startingAfter).failure.None?
    ensures RawEvents(Pump(current, AsArrivals(events), startingAfter).emitted) == After(events, startingAfter)
    decreases |events|
  {
    if events != [] {
      var init := events[..|events| - 1];
      var e := events[|events| - 1];
      var prev := Pump(current, AsArrivals(init), startingAfter);
      PumpLastEvent(current, events, startingAfter);
      EventsNeverAbort(current, init, startingAfter);
      assert prev.failure.None?;
      EveryEventPublishedOnce(current, init, startingAfter);
      var step := AddEventSpec(prev.snapshot, e, startingAfter);
      assert Accumulate(prev.snapshot, e).Success?;
      var next := Accumulate(prev.snapshot, e).value;
      RawEventsOfStep(Returned(prev.snapshot, e, next), e);
      RawEventsAppend(prev.emitted, step.emitted);
    }
  }

  /** The text of part `j` of message `i`, when there is one. */
  function TextAt(r: Response, i: int, j: int): Option<string>
  {
    if 0 <= i < |r.output| && r.output[i].Message? && 0 <= j < |r.output[i].content|
       && r.output[i].content[j].OutputText?
    then Some(r.output[i].content[j].text)
    else None
  }

  /** The arguments of function call `i`, when there is one. */
  function ArgumentsAt(r: Response, i: int): Option<string>
  {
    if 0 <= i < |r.output| && r.output[i].FunctionCall? then Some(r.output[i].arguments) else None
  }

  /** The text `e` adds to part `j` of item `i` if it is a text delta addressed there. */
  function TextDeltaOf(e: Event, i: int, j: int): string
  {
    var b := e.body;
    if b.OutputTextDelta? && b.outputIndex == i && b.contentIndex == j then b.delta else ""
  }

  /** The concatenation, in order, of the `output_text.delta` payloads addressed to part `j` of item `i`. */
  function TextDeltas(events: seq<Event>, i: int, j: int): string
    decreases |events|
  {
    if events == [] then ""
    else TextDeltas(events[..|events| - 1], i, j) + TextDeltaOf(events[|events| - 1], i, j)
  }

  /** The text `e` adds to the arguments of item `i` if it is an arguments delta addressed there. */
  function ArgumentDeltaOf(e: Event, i: int): string
  {
    var b := e.body;
    if b.FunctionCallArgumentsDelta? && b.outputIndex == i then b.delta else ""
  }

  /** The concatenation, in order, of the `function_call_arguments.delta` payloads addressed to item `i`. */
  function ArgumentDeltas(events: seq<Event>, i: int): string
    decreases |events|
  {
    if events == [] then ""
    else ArgumentDeltas(events[..|events| - 1], i) + ArgumentDeltaOf(events[|events| - 1], i)
  }

  predicate NoCompleted(events: seq<Event>)
  {
    forall k :: 0 <= k < |events| ==> !events[k].body.Completed?
  }

  /**
   * In a drain of events that ends without an error, the last event was accepted by the snapshot
   * the earlier ones left, and the final snapshot is what it returned.
   */
  lemma LastEventApplied(current: Option<Response>, events: seq<Event>, startingAfter: Option<int>)
    requires events != []
    requires Pump(current, AsArrivals(events), startingAfter).failure.None?
    ensures var prev := Pump(current, AsArrivals(events[..|events| - 1]), startingAfter);
      var e := events[|events| - 1];
      && prev.failure.None?
      && Accumulate(prev.snapshot, e).Success?
      && Pump(current, AsArrivals(events), startingAfter).snapshot == Some(Accumulate(prev.snapshot, e).value)
  {
    PumpLastEvent(current, events, startingAfter);
    EventsNeverAbort(current, events[..|events| - 1], startingAfter);
  }

  /** The snapshot the accumulator alone reaches from `s` by taking the events in turn, if none is refused. */
  function Replay(s: Response, events: seq<Event>): Option<Response>
  {
    if events == [] then Some(s)
    else
      match Replay(s, events[..|events| - 1])
      case None => None
      case Some(prev) =>
        match Accumulate(Some(prev), events[|events| - 1])
        case Success(next) => Some(next)
        case Failure(_) => None
  }

  /** A drain of events that raises no error leaves exactly the snapshot the accumulator alone reaches. */
  lemma {:induction false} DrainedSnapshotIsReplay(s: Response, events: seq<Event>, startingAfter: Option<int>)
    requires Pump(Some(s), AsArrivals(events), startingAfter).failure.None?
    ensures Replay(s, events).Some?
    ensures Pump(Some(s), AsArrivals(events), startingAfter).snapshot == Replay(s, events)
    decreases |events|
  {
    if events != [] {
      LastEventApplied(Some(s), events, startingAfter);
      DrainedSnapshotIsReplay(s, events[..|events| - 1], startingAfter);
    } else {
      assert AsArrivals(events) == [];
    }
  }

  lemma TextStep(s: Response, e: Event, i: int, j: int)
    requires Accumulate(Some(s), e).Success? && !e.body.Completed?
    requires TextAt(s, i, j).Some?
    ensures TextAt(Accumulate(Some(s), e).value, i, j) == Some(TextAt(s, i, j).value + TextDeltaOf(e, i, j))
  {
    var r := Accumulate(Some(s), e).value;
    var t := TextAt(s, i, j).value;
    if e.body.OutputTextDelta? && e.body.outputIndex == i && e.body.contentIndex == j {
      assert r.output[i].content[j] == OutputText(t + e.body.delta);
    } else {
      assert TextDeltaOf(e, i, j) == "";
      assert r.output[i].content[j] == s.output[i].content[j] by {
        match e.body
        case OutputItemAdded(item) =>
          assert r.output[i] == s.output[i];
        case ContentPartAdded(i', part) =>
          if i' != i { assert r.output[i] == s.output[i]; }
        case OutputTextDelta(i', j', d) =>
          if i' != i { assert r.output[i] == s.output[i]; }
        case FunctionCallArgumentsDelta(i', d) =>
          assert r.output[i] == s.output[i];
        case Created(_) =>
        case OtherEvent(_) =>
      }
      assert t + "" == t;
    }
  }

  lemma ArgumentsStep(s: Response, e: Event, i: int)
    requires Accumulate(Some(s), e).Success? && !e.body.Completed?
    requires ArgumentsAt(s, i).Some?
    ensures ArgumentsAt(Accumulate(Some(s), e).value, i) == Some(ArgumentsAt(s, i).value + ArgumentDeltaOf(e, i))
  {
    var r := Accumulate(Some(s), e).value;
    var a := ArgumentsAt(s, i).value;
    if e.body.FunctionCallArgumentsDelta? && e.body.outputIndex == i {
      assert r.output[i] == FunctionCall(a + e.body.delta);
    } else {
      assert ArgumentDeltaOf(e, i) == "";
      assert r.output[i] == s.output[i];
      assert a + "" == a;
    }
  }

  /**
   * Once part `j` of message `i` holds text `t`, draining any further errorless stream without a
   * `response.completed` leaves that part holding `t` followed by every text delta addressed to
   * it, in arrival order; the same holds after every prefix, which is what the derived
   * `response.output_text.delta` publication's `snapshot` shows.
   */
  lemma TextIsConcatenationOfDeltas(s: Response, events: seq<Event>, startingAfter: Option<int>, i: int, j: int)
    requires TextAt(s, i, j).Some?
    requires NoCompleted(events)
    requires Pump(Some(s), AsArrivals(events), startingAfter).failure.None?
    ensures var final := Pump(Some(s), AsArrivals(events), startingAfter).snapshot;
      final.Some? && TextAt(final.value, i, j) == Some(TextAt(s, i, j).value + TextDeltas(events, i, j))
  {
    DrainedSnapshotIsReplay(s, events, startingAfter);
    ReplayedText(s, events, i, j);
  }

  /** The accumulator alone appends every text delta addressed to part `j` of message `i`, in order. */
  lemma {:induction false} ReplayedText(s: Response, events: seq<Event>, i: int, j: int)
    requires TextAt(s, i, j).Some? && NoCompleted(events) && Replay(s, events).Some?
    ensures TextAt(Replay(s, events).value, i, j) == Some(TextAt(s, i, j).value + TextDeltas(events, i, j))
    decreases |events|
  {
    var t0 := TextAt(s, i, j).value;
    if events == [] {
      assert t0 + "" == t0;
    } else {
      var init := events[..|events| - 1];
      var e := events[|events| - 1];
      assert NoCompleted(init) by { assert forall k :: 0 <= k < |init| ==> init[k] == events[k]; }
      ReplayedText(s, init, i, j);
      var prev := Replay(s, init).value;
      TextStep(prev, e, i, j);
      var d0 := TextDeltas(init, i, j);
      var d := TextDeltaOf(e, i, j);
      assert t0 + d0 + d == t0 + (d0 + d);
    }
  }

  /** The same for the arguments of function call `i` and its `function_call_arguments.delta` events. */
  lemma ArgumentsAreConcatenationOfDeltas(s: Response, events: seq<Event>, startingAfter: Option<int>, i: int)
    requires ArgumentsAt(s, i).Some?
    requires NoCompleted(events)
    requires Pump(Some(s), AsArrivals(events), startingAfter).failure.None?
    ensures var final := Pump(Some(s), AsArrivals(events), startingAfter).snapshot;
      final.Some? && ArgumentsAt(final.value, i) == Some(ArgumentsAt(s, i).value + ArgumentDeltas(events, i))
  {
    DrainedSnapshotIsReplay(s, events, startingAfter);
    ReplayedArguments(s, events, i);
  }

  /** The accumulator alone appends every arguments delta addressed to function call `i`, in order. */
  lemma {:induction false} ReplayedArguments(s: Response, events: seq<Event>, i: int)
    requires ArgumentsAt(s, i).Some? && NoCompleted(events) && Replay(s, events).Some?
    ensures ArgumentsAt(Replay(s, events).value, i) == Some(ArgumentsAt(s, i).value + ArgumentDeltas(events, i))
    decreases |events|
  {
    var a0 := ArgumentsAt(s, i).value;
    if events == [] {
      assert a0 + "" == a0;
    } else {
      var init := events[..|events| - 1];
      var e := events[|events| - 1];
      assert NoCompleted(init) by { assert forall k :: 0 <= k < |init| ==> init[k] == events[k]; }
      ReplayedArguments(s, init, i);
      var prev := Replay(s, init).value;
      ArgumentsStep(prev, e, i);
      var d0 := ArgumentDeltas(init, i);
      var d := ArgumentDeltaOf(e, i);
      assert a0 + d0 + d == a0 + (d0 + d);
    }
  }

  /** Replaying two runs of events in turn is replaying the first, then the second from where it left off. */
  lemma {:induction false} ReplayAppend(s: Response, a: seq<Event>, b: seq<Event>)
    ensures Replay(s, a + b) == if Replay(s, a).None? then None else Replay(Replay(s, a).value, b)
    decreases |b|
  {
    if b == [] {
      assert a + b == a;
    } else {
      var b' := b[..|b| - 1];
      assert (a + b)[..|a + b| - 1] == a + b';
      assert (a + b)[|a + b| - 1] == b[|b| - 1];
      ReplayAppend(s, a, b');
    }
  }

  /** An error at some point of the drain is still there at its end. */
  lemma FailureSticks(current: Option<Response>, arrivals: seq<Arrival>, startingAfter: Option<int>, n: nat)
    requires n <= |arrivals|
    ensures Pump(current, arrivals[..n], startingAfter).failure.Some? ==> Pump(current, arrivals, startingAfter).failure.Some?
  {
    if Pump(current, arrivals[..n], startingAfter).failure.Some? {
      PumpStopsAt(current, arrivals, startingAfter, n);
    }
  }

  /**
   * A request's drain, which starts from an unset snapshot, when it raises no error and its first
   * event is `response.created`: it leaves exactly the snapshot the accumulator alone reaches from
   * that event's response by taking the remaining events in turn.
   */
  lemma {:induction false} DrainFromCreated(events: seq<Event>, startingAfter: Option<int>)
    requires events != [] && events[0].body.Created?
    requires Pump(None, AsArrivals(events), startingAfter).failure.None?
    ensures Replay(events[0].body.response, events[1..]).Some?
    ensures Pump(None, AsArrivals(events), startingAfter).snapshot == Replay(events[0].body.response, events[1..])
    decreases |events|
  {
    var r := events[0].body.response;
    LastEventApplied(None, events, startingAfter);
    var init := events[..|events| - 1];
    if |events| == 1 {
      assert AsArrivals(init) == [];
      assert events[1..] == [];
    } else {
      DrainFromCreated(init, startingAfter);
      assert events[1..][..|events[1..]| - 1] == init[1..];
      assert events[1..][|events[1..]| - 1] == events[|events| - 1];
    }
  }

  /**
   * An errorless request drain, split after its first `n` events: the first part leaves a bound
   * snapshot, and the whole leaves what the accumulator alone reaches from it with the rest.
   */
  lemma DrainResumesAt(events: seq<Event>, startingAfter: Option<int>, n: nat)
    requires 1 <= n <= |events| && events[0].body.Created?
    requires Pump(None, AsArrivals(events), startingAfter).failure.None?
    ensures var mid := Pump(None, AsArrivals(events[..n]), startingAfter);
      && mid.failure.None? && mid.snapshot.Some? && Replay(mid.snapshot.value, events[n..]).Some?
      && Pump(None, AsArrivals(events), startingAfter).snapshot == Replay(mid.snapshot.value, events[n..])
  {
    var r := events[0].body.response;
    var upTo := events[..n];
    assert AsArrivals(events)[..n] == AsArrivals(upTo);
    FailureSticks(None, AsArrivals(events), startingAfter, n);
    DrainFromCreated(upTo, startingAfter);
    DrainFromCreated(events, startingAfter);
    assert events[1..] == upTo[1..] + events[n..];
    ReplayAppend(r, upTo[1..], events[n..]);
  }

  /** The snapshot right after a `response.content_part.added` that adds a text part to message `i` as its part `j`. */
  lemma PartAddedAt(events: seq<Event>, startingAfter: Option<int>, m: nat, i: int, j: int)
    requires m < |events| && events[m].body.ContentPartAdded? && events[m].body.outputIndex == i
    requires events[m].body.part.OutputText?
    requires Pump(None, AsArrivals(events[..m + 1]), startingAfter).failure.None?
    requires var before := Pump(None, AsArrivals(events[..m]), startingAfter).snapshot;
      before.Some? && 0 <= i < |before.value.output| && before.value.output[i].Message?
      && j == |before.value.output[i].content|
    ensures var mid := Pump(None, AsArrivals(events[..m + 1]), startingAfter).snapshot;
      mid.Some? && TextAt(mid.value, i, j) == Some(events[m].body.part.text)
  {
    var upTo := events[..m + 1];
    LastEventApplied(None, upTo, startingAfter);
    assert upTo[..|upTo| - 1] == events[..m];
    var before := Pump(None, AsArrivals(events[..m]), startingAfter).snapshot.value;
    ContentPartAddedRule(before, i, events[m].body.part, events[m].sequenceNumber);
  }

  /** The snapshot right after a `response.output_item.added` that adds a function call as item `i`. */
  lemma CallAddedAt(events: seq<Event>, startingAfter: Option<int>, m: nat, i: int)
    requires m < |events| && events[m].body.OutputItemAdded? && events[m].body.item.FunctionCall?
    requires Pump(None, AsArrivals(events[..m + 1]), startingAfter).failure.None?
    requires var before := Pump(None, AsArrivals(events[..m]), startingAfter).snapshot;
      before.Some? && i == |before.value.output|
    ensures var mid := Pump(None, AsArrivals(events[..m + 1]), startingAfter).snapshot;
      mid.Some? && ArgumentsAt(mid.value, i) == Some(events[m].body.item.arguments)
  {
    var upTo := events[..m + 1];
    LastEventApplied(None, upTo, startingAfter);
    assert upTo[..|upTo| - 1] == events[..m];
    var before := Pump(None, AsArrivals(events[..m]), startingAfter).snapshot.value;
    OutputItemAddedAppends(before, events[m].body.item, events[m].sequenceNumber);
  }

  /**
   * The text of a part, from the `response.content_part.added` at position `m` that creates it:
   * in a request whose drain raises no error and sees no `response.completed` after `m`, the part
   * ends holding its initial text followed by every `response.output_text.delta` addressed to it
   * after `m`, in order. The part is created as part `j` of message `i` when message `i` had `j`
   * parts before event `m`.
   */
  lemma TextOfCreatedPart(events: seq<Event>, startingAfter: Option<int>, m: nat, i: int, j: int)
    requires 1 <= m < |events| && events[0].body.Created?
    requires events[m].body.ContentPartAdded? && events[m].body.outputIndex == i && events[m].body.part.OutputText?
    requires NoCompleted(events[m + 1..])
    requires Pump(None, AsArrivals(events), startingAfter).failure.None?
    requires var before := Pump(None, AsArrivals(events[..m]), startingAfter).snapshot;
      before.Some? && 0 <= i < |before.value.output| && before.value.output[i].Message?
      && j == |before.value.output[i].content|
    ensures var final := Pump(None, AsArrivals(events), startingAfter).snapshot;
      final.Some? && TextAt(final.value, i, j) == Some(events[m].body.part.text + TextDeltas(events[m + 1..], i, j))
  {
    DrainResumesAt(events, startingAfter, m + 1);
    PartAddedAt(events, startingAfter, m, i, j);
    var mid := Pump(None, AsArrivals(events[..m + 1]), startingAfter).snapshot.value;
    ReplayedText(mid, events[m + 1..], i, j);
  }

  /**
   * The arguments of a function call, from the `response.output_item.added` at position `m` that
   * adds it as item `i`: in a request whose drain raises no error and sees no `response.completed`
   * after `m`, they end as its initial arguments followed by every
   * `response.function_call_arguments.delta` addressed to it after `m`, in order.
   */
  lemma ArgumentsOfAddedCall(events: seq<Event>, startingAfter: Option<int>, m: nat, i: int)
    requires 1 <= m < |events| && events[0].body.Created?
    requires events[m].body.OutputItemAdded? && events[m].body.item.FunctionCall?
    requires NoCompleted(events[m + 1..])
    requires Pump(None, AsArrivals(events), startingAfter).failure.None?
    requires var before := Pump(None, AsArrivals(events[..m]), startingAfter).snapshot;
      before.Some? && i == |before.value.output|
    ensures var final := Pump(None, AsArrivals(events), startingAfter).snapshot;
      final.Some? && ArgumentsAt(final.value, i) == Some(events[m].body.item.arguments + ArgumentDeltas(events[m + 1..], i))
  {
    DrainResumesAt(events, startingAfter, m + 1);
    CallAddedAt(events, startingAfter, m, i);
    var mid := Pump(None, AsArrivals(events[..m + 1]), startingAfter).snapshot.value;
    ReplayedArguments(mid, events[m + 1..], i);
  }

  /**
   * After an error, or once the transport has stopped delivering because the controller was
   * aborted (a `CallerCancelled` arrival), the drain loop takes nothing more from the timeline.
   */
  lemma {:induction false} PumpStopsAt(current: Option<Response>, arrivals: seq<Arrival>, startingAfter: Option<int>, n: nat)
    requires n <= |arrivals|
    requires Pump(current, arrivals[..n], startingAfter).failure.Some? || Pump(current, arrivals[..n], startingAfter).aborted
    ensures Pump(current, arrivals, startingAfter) == Pump(current, arrivals[..n], startingAfter)
    decreases |arrivals| - n
  {
    if n < |arrivals| {
      assert arrivals[..n + 1][..n] == arrivals[..n];
      PumpStopsAt(current, arrivals, startingAfter, n + 1);
    } else {
      assert arrivals[..n] == arrivals;
    }
  }

  // ---------------------------------------------------------------------------------------
  // The request as a whole

  /**
   * What `_createOrRetrieveResponse` resolves with or rejects with: a request whose controller
   * was aborted before it was made rejects at once; a `create` or `retrieve` call that itself
   * rejects (`requestFailure`) rejects with that failure; otherwise the drain loop runs from an
   * unset snapshot, its error propagates, an abort raises the user-abort error, and `#endRequest`
   * finalises the snapshot or fails when none was ever bound.
   */
  function RequestOutcome(abortedBefore: bool, requestFailure: Option<string>, arrivals: seq<Arrival>, startingAfter: Option<int>): (r: Result<Response, StreamError>)
    ensures abortedBefore ==> r == Failure(UserAbort)
    ensures r.Success? ==> !abortedBefore && requestFailure.None? && !Pump(None, arrivals, startingAfter).aborted
  {
    if abortedBefore then Failure(UserAbort)
    else if requestFailure.Some? then Failure(TransportFailure(requestFailure.value))
    else
      var p := Pump(None, arrivals, startingAfter);
      if p.failure.Some? then Failure(p.failure.value)
      else if p.aborted then Failure(UserAbort)
      else if p.snapshot.None? then Failure(NoEvents)
      else Success(p.snapshot.value)
  }

  /** A request that receives no events at all fails with "request ended without sending any events". */
  lemma EmptyStreamRaisesNoEvents(startingAfter: Option<int>)
    ensures RequestOutcome(false, None, [], startingAfter) == Failure(NoEvents)
  {
  }

  /** A stream whose first event is not `response.created` fails with that complaint, whatever follows. */
  lemma FirstEventMustBeCreated(events: seq<Event>, startingAfter: Option<int>)
    requires events != [] && !events[0].body.Created?
    ensures RequestOutcome(false, None, AsArrivals(events), startingAfter) == Failure(NotCreatedFirst(TypeName(events[0].body)))
  {
    var arrivals := AsArrivals(events);
    assert arrivals[..1][..0] == [];
    PumpStopsAt(None, arrivals, startingAfter, 1);
  }

  /**
   * A cancellation that reaches the drain loop before any error makes the request raise the
   * user-abort error instead of finalising, whatever arrives after it.
   */
  lemma CancellationRaisesAbort(arrivals: seq<Arrival>, startingAfter: Option<int>, n: nat)
    requires n < |arrivals| && arrivals[n].CallerCancelled?
    requires Pump(None, arrivals[..n], startingAfter).failure.None?
    ensures RequestOutcome(false, None, arrivals, startingAfter) == Failure(UserAbort)
  {
    assert arrivals[..n + 1][..n] == arrivals[..n];
    PumpStopsAt(None, arrivals, startingAfter, n + 1);
  }

  /** A request whose last event is `response.completed` resolves, if it resolves, with that event's response. */
  lemma CompletedResponseIsFinal(events: seq<Event>, startingAfter: Option<int>)
    requires events != [] && events[|events| - 1].body.Completed?
    requires RequestOutcome(false, None, AsArrivals(events), startingAfter).Success?
    ensures RequestOutcome(false, None, AsArrivals(events), startingAfter).value == events[|events| - 1].body.response
  {
    PumpLastEvent(None, events, startingAfter);
    EventsNeverAbort(None, events[..|events| - 1], startingAfter);
  }
}
