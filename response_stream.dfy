/**
 * `ResponseStream` as a class whose methods update its fields the way the TypeScript class does:
 * the current and final snapshots, the emitter's log and `ended` flag (the part of the
 * `EventStream` base the stream relies on), the controller's `aborted` flag, and the queues of
 * the one async iterator attached to it. Each method is proved against the functions of
 * Accumulator and PullAdapter.
 */
module ResponseStreams {
  import opened Wrappers
  import opened ResponseTypes
  import opened Accumulator
  import PullAdapter

  /** How the stream is opened: a new response, or an existing one by id, optionally resumed after a sequence number. */
  datatype StreamParams =
    | CreateParams
    | RetrieveParams(responseId: string, startingAfter: Option<int>)

  /** `starting_after` for the drain loop: only a retrieval carries one. */
  function StartingAfter(params: StreamParams): (r: Option<int>)
    ensures params.CreateParams? ==> r.None?
    ensures params.RetrieveParams? ==> r == params.startingAfter
  {
    match params
    case CreateParams => None
    case RetrieveParams(_, startingAfter) => startingAfter
  }

  /** What `finalResponse()` settles with: not yet (the stream has not ended), the response, or an error. */
  datatype FinalOutcome =
    | Pending
    | Produced(response: Response)
    | Raised(error: StreamError)

  /** The signal `_run` emits last for the request's outcome: `end` on success, `abort` or `error` otherwise. */
  function TerminalFor(outcome: Result<Response, StreamError>): (s: Signal)
    ensures IsTerminal(s)
  {
    if outcome.Success? then End
    else if outcome.error == UserAbort then AbortSignal(UserAbort)
    else ErrorSignal(outcome.error)
  }

  /** The log ends with its only terminal signal exactly when the stream has ended. */
  ghost predicate EndsOnce(log: seq<Signal>, ended: bool)
  {
    && (ended <==> log != [] && IsTerminal(log[|log| - 1]))
    && (forall k :: 0 <= k < |log| - 1 ==> !IsTerminal(log[k]))
  }

  lemma EndsOnceAppend(log: seq<Signal>, s: Signal)
    requires EndsOnce(log, false)
    ensures EndsOnce(log + [s], IsTerminal(s))
  {
  }

  /**
   * An iterator attached before the signals `window` were emitted: its queues are consistent, it
   * is done exactly when a terminal signal was emitted since, and it loses, duplicates and
   * reorders nothing: the events its consumer has received, then those still buffered, are the
   * events published under `event` in `window`.
   */
  ghost predicate InSync(q: PullAdapter.Queues, ended: bool, window: seq<Signal>, received: seq<Event>)
  {
    && PullAdapter.Valid(q)
    && (q.done <==> ended && window != [])
    && received + q.pushQueue == RawEvents(window)
  }

  /** Every signal emitted on a live stream keeps an attached iterator in step with the log. */
  lemma EmitInSync(q: PullAdapter.Queues, window: seq<Signal>, received: seq<Event>, s: Signal)
    requires InSync(q, false, window, received)
    ensures InSync(PullAdapter.OnSignal(q, s), IsTerminal(s), window + [s], received + PullAdapter.Delivered(q, s))
  {
    PullAdapter.OnSignalValid(q, s);
    PullAdapter.EmitKeepsOrder(q, received, RawEvents(window), s);
    RawEventsAppend(window, [s]);
    assert RawEvents([s]) == PullAdapter.EmittedEvents(s) by {
      assert [s][..0] == [];
    }
  }

  class ResponseStream {
    // The EventStream base: every emitted signal in order, and whether `end` (or `abort`/`error`) was emitted.
    var log: seq<Signal>
    var ended: bool
    // `this.controller.signal.aborted`
    var aborted: bool

    var currentSnapshot: Option<Response>
    var finalResponse: Option<Response>

    // The async iterator: whether one is attached, and its local state.
    var listening: bool
    var pushQueue: seq<Event>
    var readQueue: seq<nat>
    var done: bool
    var settled: seq<PullAdapter.Settlement>
    var nextReader: nat
    // Where in the log the iterator was attached, and the events its consumer has received so far.
    ghost var attachedAt: nat
    ghost var received: seq<Event>

    function Queue(): PullAdapter.Queues
      reads this
    {
      PullAdapter.Queues(pushQueue, readQueue, done, settled)
    }

    /** The emitter's log is well formed, and an attached iterator is in step with what was emitted since. */
    ghost predicate Valid()
      reads this
    {
      && EndsOnce(log, ended)
      && attachedAt <= |log|
      && (listening ==> InSync(Queue(), ended, log[attachedAt..], received))
    }

    constructor ()
      ensures Valid()
      ensures log == [] && !ended && !aborted
      ensures currentSnapshot.None? && finalResponse.None? && !listening
    {
      log := [];
      ended := false;
      aborted := false;
      currentSnapshot := None;
      finalResponse := None;
      listening := false;
      pushQueue := [];
      readQueue := [];
      done := false;
      settled := [];
      nextReader := 0;
      attachedAt := 0;
      received := [];
    }

    /** Settle every waiting reader with `outcome`, oldest first, and empty the wait list. */
    method SettleReaders(outcome: PullAdapter.ReaderOutcome)
      modifies this`done, this`readQueue, this`settled
      ensures done && readQueue == []
      ensures settled == old(settled) + PullAdapter.SettleAll(old(readQueue), outcome)
    {
      done := true;
      var k := 0;
      while k < |readQueue|
        invariant 0 <= k <= |readQueue|
        invariant done && readQueue == old(readQueue)
        invariant settled == old(settled) + PullAdapter.SettleAll(readQueue[..k], outcome)
      {
        PullAdapter.SettleAllSnoc(readQueue, k, outcome);
        settled := settled + [PullAdapter.Settlement(readQueue[k], outcome)];
        k := k + 1;
      }
      assert readQueue[..k] == old(readQueue);
      readQueue := [];
    }

    /** The iterator's listeners reacting to `s`. */
    method Dispatch(s: Signal)
      modifies this`pushQueue, this`readQueue, this`done, this`settled, this`received
      ensures Queue() == PullAdapter.OnSignal(old(Queue()), s)
      ensures received == old(received) + PullAdapter.Delivered(old(Queue()), s)
    {
      match s {
        case Published(name, e, _) =>
          if name == "event" {
            if readQueue != [] {
              settled := settled + [PullAdapter.Settlement(readQueue[0], PullAdapter.Resolved(e))];
              readQueue := readQueue[1..];
              received := received + [e];
            } else {
              pushQueue := pushQueue + [e];
            }
          }
        case End => SettleReaders(PullAdapter.Exhausted);
        case AbortSignal(err) => SettleReaders(PullAdapter.Rejected(err));
        case ErrorSignal(err) => SettleReaders(PullAdapter.Rejected(err));
        case Connect =>
      }
    }

    /**
     * `_emit`: nothing once the stream has ended; otherwise the signal is logged, a terminal one
     * ends the stream, and the iterator's listeners react to it.
     */
    method Emit(s: Signal)
      requires Valid()
      modifies this`log, this`ended, this`pushQueue, this`readQueue, this`done, this`settled, this`received
      ensures Valid()
      ensures log == if old(ended) then old(log) else old(log) + [s]
      ensures ended == (old(ended) || IsTerminal(s))
      ensures Queue() == if old(ended) || !listening then old(Queue()) else PullAdapter.OnSignal(old(Queue()), s)
    {
      if ended {
        return;
      }
      ghost var window := log[attachedAt..];
      EndsOnceAppend(log, s);
      log := log + [s];
      if IsTerminal(s) {
        ended := true;
      }
      assert log[attachedAt..] == window + [s];
      if listening {
        ghost var q, before := Queue(), received;
        EmitInSync(q, window, before, s);
        Dispatch(s);
        assert InSync(Queue(), ended, log[attachedAt..], received);
      }
    }

    /** `maybeEmit`: publish `event` under `name` unless it is at or below `starting_after`. */
    method MaybeEmit(name: string, e: Event, snapshot: Option<string>, startingAfter: Option<int>)
      requires Valid() && !ended
      modifies this`log, this`ended, this`pushQueue, this`readQueue, this`done, this`settled, this`received
      ensures Valid() && !ended
      ensures var published := if Visible(e, startingAfter) then [Published(name, e, snapshot)] else [];
        && log == old(log) + published
        && Queue() == if listening then PullAdapter.Feed(old(Queue()), published) else old(Queue())
    {
      if Visible(e, startingAfter) {
        Emit(Published(name, e, snapshot));
        assert [Published(name, e, snapshot)][..0] == [];
      }
    }

    /** `_connected`: emit `connect` unless the stream has ended. */
    method Connected()
      requires Valid()
      modifies this`log, this`ended, this`pushQueue, this`readQueue, this`done, this`settled, this`received
      ensures Valid() && ended == old(ended)
      ensures log == if old(ended) then old(log) else old(log) + [Connect]
      ensures Queue() == old(Queue())
    {
      Emit(Connect);
    }

    /** `abort()`: abort the controller; the drain loop notices it. */
    method Abort()
      modifies this`aborted
      ensures aborted
    {
      aborted := true;
    }

    /** `#beginRequest`: forget any snapshot unless the stream has ended. */
    method BeginRequest()
      modifies this`currentSnapshot
      ensures currentSnapshot == if ended then old(currentSnapshot) else None
    {
      if ended {
        return;
      }
      currentSnapshot := None;
    }

    /**
     * `#accumulateResponse`: apply `e` to the current snapshot, or fail leaving it as it was.
     * It returns its local `snapshot`, which on `response.completed` is the one being replaced.
     */
    method AccumulateResponse(e: Event) returns (r: Result<Response, StreamError>)
      modifies this`currentSnapshot
      ensures Accumulate(old(currentSnapshot), e).Failure? ==>
        r == Failure(Accumulate(old(currentSnapshot), e).error) && currentSnapshot == old(currentSnapshot)
      ensures Accumulate(old(currentSnapshot), e).Success? ==>
        var next := Accumulate(old(currentSnapshot), e).value;
        r == Success(Returned(old(currentSnapshot), e, next)) && currentSnapshot == Some(next)
    {
      if currentSnapshot.None? {
        if !e.body.Created? {
          return Failure(NotCreatedFirst(TypeName(e.body)));
        }
        currentSnapshot := Some(e.body.response);
        return Success(e.body.response);
      }
      var snapshot := currentSnapshot.value;
      match e.body {
        case OutputItemAdded(item) =>
          snapshot := snapshot.(output := snapshot.output + [item]);
        case ContentPartAdded(i, part) =>
          if !(0 <= i < |snapshot.output|) {
            return Failure(MissingOutput(i));
          }
          var output := snapshot.output[i];
          if output.Message? {
            snapshot := WithItem(snapshot, i, Message(output.content + [part]));
          }
        case OutputTextDelta(i, j, delta) =>
          if !(0 <= i < |snapshot.output|) {
            return Failure(MissingOutput(i));
          }
          var output := snapshot.output[i];
          if output.Message? {
            if !(0 <= j < |output.content|) {
              return Failure(MissingContent(j));
            }
            var content := output.content[j];
            if !content.OutputText? {
              return Failure(NotOutputText(content.kind));
            }
            snapshot := WithItem(snapshot, i, Message(output.content[j := OutputText(content.text + delta)]));
          }
        case FunctionCallArgumentsDelta(i, delta) =>
          if !(0 <= i < |snapshot.output|) {
            return Failure(MissingOutput(i));
          }
          var output := snapshot.output[i];
          if output.FunctionCall? {
            snapshot := WithItem(snapshot, i, FunctionCall(output.arguments + delta));
          }
        case Completed(response) =>
          currentSnapshot := Some(response);
          return Success(snapshot);
        case Created(_) =>
        case OtherEvent(_) =>
      }
      currentSnapshot := Some(snapshot);
      return Success(snapshot);
    }

    /**
     * The `switch` of `#addEvent` on the snapshot `#accumulateResponse` returned: the delta types
     * look up the addressed item again and publish the whole text or arguments under their own
     * type, failing on what is missing; every other type is published again under its own name.
     */
    method Recheck(response: Response, e: Event) returns (second: Option<Signal>, failure: Option<StreamError>)
      ensures Emissions(response, e).signals == [Published("event", e, None)] + (if second.Some? then [second.value] else [])
      ensures Emissions(response, e).failure == failure
      ensures failure.Some? ==> second.None?
      ensures second.Some? ==> second.value.Published? && second.value.event == e
    {
      second := None;
      failure := None;
      match e.body {
        case OutputTextDelta(i, j, _) =>
          if !(0 <= i < |response.output|) {
            return None, Some(MissingOutput(i));
          }
          var output := response.output[i];
          if output.Message? {
            if !(0 <= j < |output.content|) {
              return None, Some(MissingContent(j));
            }
            var content := output.content[j];
            if !content.OutputText? {
              return None, Some(NotOutputText(content.kind));
            }
            second := Some(Published(TypeName(e.body), e, Some(content.text)));
          }
        case FunctionCallArgumentsDelta(i, _) =>
          if !(0 <= i < |response.output|) {
            return None, Some(MissingOutput(i));
          }
          var output := response.output[i];
          if output.FunctionCall? {
            second := Some(Published(TypeName(e.body), e, Some(output.arguments)));
          }
        case _ =>
          second := Some(Published(TypeName(e.body), e, None));
      }
    }

    /**
     * `#addEvent`: nothing once the stream has ended; otherwise the event is applied and then
     * published as AddEventSpec says, and the error thrown, if any, is returned.
     */
    method AddEvent(e: Event, startingAfter: Option<int>) returns (failure: Option<StreamError>)
      requires Valid()
      modifies this`log, this`ended, this`pushQueue, this`readQueue, this`done, this`settled, this`received
      modifies this`currentSnapshot
      ensures Valid() && ended == old(ended)
      ensures old(ended) ==>
        failure.None? && log == old(log) && currentSnapshot == old(currentSnapshot) && Queue() == old(Queue())
      ensures !old(ended) ==>
        var step := AddEventSpec(old(currentSnapshot), e, startingAfter);
        && currentSnapshot == step.snapshot
        && log == old(log) + step.emitted
        && failure == step.failure
        && Queue() == if listening then PullAdapter.Feed(old(Queue()), step.emitted) else old(Queue())
    {
      if ended {
        return None;
      }
      ghost var q0 := Queue();
      var response := AccumulateResponse(e);
      if response.Failure? {
        return Some(response.error);
      }
      MaybeEmit("event", e, None, startingAfter);
      ghost var first := if Visible(e, startingAfter) then [Published("event", e, None)] else [];
      var second;
      second, failure := Recheck(response.value, e);
      if second.Some? {
        MaybeEmit(second.value.name, e, second.value.snapshot, startingAfter);
        ghost var later := if Visible(e, startingAfter) then [second.value] else [];
        PullAdapter.FeedAppend(q0, first, later);
      }
    }

    /**
     * `#endRequest`: fail if the stream has ended or no snapshot was ever bound; otherwise clear
     * the current snapshot and keep it as the final response.
     */
    method EndRequest() returns (r: Result<Response, StreamError>)
      modifies this`currentSnapshot, this`finalResponse
      ensures ended ==>
        r == Failure(StreamAlreadyEnded) && currentSnapshot == old(currentSnapshot) && finalResponse == old(finalResponse)
      ensures !ended && old(currentSnapshot).None? ==>
        r == Failure(NoEvents) && currentSnapshot.None? && finalResponse == old(finalResponse)
      ensures !ended && old(currentSnapshot).Some? ==>
        r == Success(old(currentSnapshot).value) && currentSnapshot.None? && finalResponse == old(currentSnapshot)
    {
      if ended {
        return Failure(StreamAlreadyEnded);
      }
      var snapshot := currentSnapshot;
      if snapshot.None? {
        return Failure(NoEvents);
      }
      currentSnapshot := None;
      finalResponse := snapshot;
      return Success(snapshot.value);
    }

    /**
     * One turn of the drain loop: `#addEvent` on an event, the controller aborted, or the
     * transport's error. `prev` is the drain so far, whose publications follow `start` in the log.
     */
    method Consume(arrival: Arrival, startingAfter: Option<int>, ghost start: seq<Signal>, ghost prev: Drained)
      returns (failure: Option<StreamError>)
      requires Valid() && !ended && !aborted
      requires prev.failure.None? && !prev.aborted
      requires currentSnapshot == prev.snapshot && log == start + prev.emitted
      modifies this`log, this`ended, this`pushQueue, this`readQueue, this`done, this`settled, this`received
      modifies this`currentSnapshot, this`aborted
      ensures Valid() && !ended
      ensures var d := Arrive(prev, arrival, startingAfter);
        && currentSnapshot == d.snapshot && failure == d.failure && aborted == d.aborted
        && log == start + d.emitted
    {
      match arrival {
        case Delivered(e) =>
          failure := AddEvent(e, startingAfter);
          ghost var step := AddEventSpec(prev.snapshot, e, startingAfter);
          assert start + prev.emitted + step.emitted == start + (prev.emitted + step.emitted);
        case CallerCancelled =>
          Abort();
          failure := None;
        case TransportFailed(message) =>
          failure := Some(TransportFailure(message));
      }
    }

    /** One turn of the drain loop: the state after the first `i + 1` arrivals. */
    method DrainStep(arrivals: seq<Arrival>, i: nat, startingAfter: Option<int>, ghost start: seq<Signal>, ghost initial: Option<Response>)
      returns (failure: Option<StreamError>)
      requires i < |arrivals|
      requires Valid() && !ended && !aborted
      requires var p := Pump(initial, arrivals[..i], startingAfter);
        && currentSnapshot == p.snapshot && p.failure.None? && !p.aborted && log == start + p.emitted
      modifies this`log, this`ended, this`pushQueue, this`readQueue, this`done, this`settled, this`received
      modifies this`currentSnapshot, this`aborted
      ensures Valid() && !ended
      ensures var p := Pump(initial, arrivals[..i + 1], startingAfter);
        && currentSnapshot == p.snapshot && failure == p.failure && aborted == p.aborted
        && log == start + p.emitted
    {
      ghost var prev := Pump(initial, arrivals[..i], startingAfter);
      PumpNext(initial, arrivals, startingAfter, i);
      failure := Consume(arrivals[i], startingAfter, start, prev);
    }

    /** `for await (const event of stream) this.#addEvent(event, starting_after)`, as Pump describes it. */
    method Drain(arrivals: seq<Arrival>, startingAfter: Option<int>) returns (failure: Option<StreamError>)
      requires Valid() && !ended && !aborted
      modifies this`log, this`ended, this`pushQueue, this`readQueue, this`done, this`settled, this`received
      modifies this`currentSnapshot, this`aborted
      ensures Valid() && !ended
      ensures var p := Pump(old(currentSnapshot), arrivals, startingAfter);
        && currentSnapshot == p.snapshot && failure == p.failure && aborted == p.aborted
        && log == old(log) + p.emitted
    {
      ghost var start := log;
      ghost var initial := currentSnapshot;
      var i := 0;
      failure := None;
      assert arrivals[..0] == [];
      while i < |arrivals| && failure.None? && !aborted
        invariant 0 <= i <= |arrivals|
        invariant Valid() && !ended
        invariant var p := Pump(initial, arrivals[..i], startingAfter);
          && currentSnapshot == p.snapshot && failure == p.failure && aborted == p.aborted
          && log == start + p.emitted
        decreases |arrivals| - i
      {
        failure := DrainStep(arrivals, i, startingAfter, start, initial);
        i := i + 1;
      }
      if i < |arrivals| {
        PumpStopsAt(initial, arrivals, startingAfter, i);
      } else {
        assert arrivals[..i] == arrivals;
      }
    }

    /**
     * `_createOrRetrieveResponse` once the transport has been reduced to a timeline of arrivals:
     * an already aborted signal aborts the controller and the request then rejects before
     * connecting; a `create` or `retrieve` call that rejects (`requestFailure`) rejects before
     * connecting too; otherwise the stream connects, drains the timeline as Pump does, raises the
     * drain's error or the abort, and finalises with `#endRequest`.
     */
    method CreateOrRetrieveResponse(params: StreamParams, signalAborted: bool, requestFailure: Option<string>, arrivals: seq<Arrival>)
      returns (r: Result<Response, StreamError>)
      requires Valid() && !ended
      modifies this`log, this`ended, this`pushQueue, this`readQueue, this`done, this`settled, this`received
      modifies this`currentSnapshot, this`finalResponse, this`aborted
      ensures Valid() && !ended
      ensures r == RequestOutcome(old(aborted) || signalAborted, requestFailure, arrivals, StartingAfter(params))
      ensures old(aborted) || signalAborted ==>
        aborted && log == old(log) && currentSnapshot.None? && finalResponse == old(finalResponse)
      ensures !(old(aborted) || signalAborted) && requestFailure.Some? ==>
        !aborted && log == old(log) && currentSnapshot.None? && finalResponse == old(finalResponse)
      ensures !(old(aborted) || signalAborted) && requestFailure.None? ==>
        var p := Pump(None, arrivals, StartingAfter(params));
        && log == old(log) + [Connect] + p.emitted
        && aborted == p.aborted
        && currentSnapshot == (if r.Success? then None else p.snapshot)
        && finalResponse == (if r.Success? then Some(r.value) else old(finalResponse))
    {
      var startingAfter := StartingAfter(params);
      if signalAborted {
        Abort();
      }
      BeginRequest();
      if aborted {
        return Failure(UserAbort);
      }
      if requestFailure.Some? {
        return Failure(TransportFailure(requestFailure.value));
      }
      Connected();
      var failure := Drain(arrivals, startingAfter);
      if failure.Some? {
        return Failure(failure.value);
      }
      if aborted {
        return Failure(UserAbort);
      }
      r := EndRequest();
    }

    /** `#handleError`: a user abort is emitted as `abort`, any other error as `error`. */
    method HandleError(err: StreamError)
      requires Valid() && !ended
      modifies this`log, this`ended, this`pushQueue, this`readQueue, this`done, this`settled, this`received
      ensures Valid() && ended
      ensures log == old(log) + [TerminalFor(Failure(err))]
    {
      if err == UserAbort {
        Emit(AbortSignal(err));
      } else {
        Emit(ErrorSignal(err));
      }
    }

    /** `_run` with `_createOrRetrieveResponse` as its executor: end the stream with the request's outcome. */
    method Run(params: StreamParams, signalAborted: bool, requestFailure: Option<string>, arrivals: seq<Arrival>)
      requires Valid() && !ended
      modifies this`log, this`ended, this`pushQueue, this`readQueue, this`done, this`settled, this`received
      modifies this`currentSnapshot, this`finalResponse, this`aborted
      ensures Valid() && ended
      ensures var outcome := RequestOutcome(old(aborted) || signalAborted, requestFailure, arrivals, StartingAfter(params));
        && log[|log| - 1] == TerminalFor(outcome)
        && FinalResponse() == if outcome.Success? then Produced(outcome.value) else Raised(outcome.error)
    {
      var r := CreateOrRetrieveResponse(params, signalAborted, requestFailure, arrivals);
      if r.Success? {
        Emit(End);
      } else {
        HandleError(r.error);
      }
    }

    /**
     * `finalResponse()`: pending until the stream has ended; then the error of an `abort` or
     * `error` ending, the final response, or an error when none was produced.
     */
    function FinalResponse(): (r: FinalOutcome)
      reads this
      ensures !ended ==> r.Pending?
      ensures r.Produced? ==> finalResponse == Some(r.response)
    {
      if !ended || log == [] then Pending
      else
        match log[|log| - 1]
        case AbortSignal(err) => Raised(err)
        case ErrorSignal(err) => Raised(err)
        case _ => if finalResponse.Some? then Produced(finalResponse.value) else Raised(NoFinalResponse)
    }

    /** `[Symbol.asyncIterator]()`: attach the iterator's listeners with empty queues. */
    method AsyncIterator()
      requires Valid() && !listening
      modifies this`listening, this`pushQueue, this`readQueue, this`done, this`settled, this`attachedAt, this`received
      ensures Valid() && listening && attachedAt == |log|
      ensures Queue() == PullAdapter.Fresh
    {
      listening := true;
      pushQueue := [];
      readQueue := [];
      done := false;
      settled := [];
      attachedAt := |log|;
      received := [];
    }

    /** The iterator's `next()`: a buffered event, `done: true` after the end, or a new waiting reader. */
    method Next() returns (r: PullAdapter.NextResult)
      requires Valid() && listening
      modifies this`pushQueue, this`readQueue, this`nextReader, this`received
      ensures Valid()
      ensures (Queue(), r) == PullAdapter.Next(old(Queue()), old(nextReader))
      ensures nextReader == if r.Waiting? then old(nextReader) + 1 else old(nextReader)
    {
      if pushQueue == [] {
        if done {
          return PullAdapter.Finished;
        }
        var reader := nextReader;
        nextReader := nextReader + 1;
        readQueue := readQueue + [reader];
        return PullAdapter.Waiting(reader);
      }
      var event := pushQueue[0];
      assert pushQueue == [event] + pushQueue[1..];
      pushQueue := pushQueue[1..];
      received := received + [event];
      return PullAdapter.Value(event);
    }

    /** The iterator's `return()`: abort the stream and report `done: true`. */
    method Return() returns (r: PullAdapter.NextResult)
      requires listening
      modifies this`aborted
      ensures aborted && r == PullAdapter.Finished
    {
      Abort();
      return PullAdapter.Finished;
    }
  }
}
