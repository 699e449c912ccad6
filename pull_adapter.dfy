/**
 * The pull side of `ResponseStream[Symbol.asyncIterator]`: a buffer of published events not yet
 * taken (`pushQueue`), the readers waiting for one (`readQueue`), a `done` flag, and the way each
 * waiting reader's promise was settled. Promises are modelled as reader ids settled with an
 * outcome; the class in response_stream.dfy keeps these queues as fields and is proved against
 * the functions here.
 */
module PullAdapter {
  import opened ResponseTypes

  /** How a waiting reader's promise is settled: with an event, as exhausted (`undefined`), or rejected. */
  datatype ReaderOutcome =
    | Resolved(event: Event)
    | Exhausted
    | Rejected(error: StreamError)

  datatype Settlement = Settlement(reader: nat, outcome: ReaderOutcome)

  datatype Queues = Queues(pushQueue: seq<Event>, readQueue: seq<nat>, done: bool, settled: seq<Settlement>)

  /** What `next()` gives back: an event at once, `done: true` at once, or a pending reader. */
  datatype NextResult =
    | Value(event: Event)
    | Finished
    | Waiting(reader: nat)

  const Fresh := Queues([], [], false, [])

  /** Every reader in `readers` settled with `outcome`, in queue order. */
  function SettleAll(readers: seq<nat>, outcome: ReaderOutcome): (r: seq<Settlement>)
    ensures |r| == |readers|
    ensures forall k :: 0 <= k < |readers| ==> r[k] == Settlement(readers[k], outcome)
  {
    seq(|readers|, k requires 0 <= k < |readers| => Settlement(readers[k], outcome))
  }

  lemma SettleAllSnoc(readers: seq<nat>, k: nat, outcome: ReaderOutcome)
    requires k < |readers|
    ensures SettleAll(readers[..k + 1], outcome) == SettleAll(readers[..k], outcome) + [Settlement(readers[k], outcome)]
  {
    assert |SettleAll(readers[..k + 1], outcome)| == k + 1;
  }

  /** The `event` listener: resolve the oldest waiting reader, or buffer the event. */
  function OnEvent(q: Queues, e: Event): (r: Queues)
    ensures |r.settled| + |r.pushQueue| == |q.settled| + |q.pushQueue| + 1
    ensures r.done == q.done && |r.readQueue| <= |q.readQueue|
  {
    if q.readQueue != [] then
      q.(readQueue := q.readQueue[1..], settled := q.settled + [Settlement(q.readQueue[0], Resolved(e))])
    else
      q.(pushQueue := q.pushQueue + [e])
  }

  /** The `end` listener: mark done and resolve every waiting reader as exhausted. */
  function OnEnd(q: Queues): (r: Queues)
    ensures r.done && r.readQueue == [] && r.pushQueue == q.pushQueue
    ensures |r.settled| == |q.settled| + |q.readQueue|
  {
    q.(done := true, readQueue := [], settled := q.settled + SettleAll(q.readQueue, Exhausted))
  }

  /** The `abort` and `error` listeners: mark done and reject every waiting reader with `err`. */
  function OnFailure(q: Queues, err: StreamError): (r: Queues)
    ensures r.done && r.readQueue == [] && r.pushQueue == q.pushQueue
    ensures |r.settled| == |q.settled| + |q.readQueue|
  {
    q.(done := true, readQueue := [], settled := q.settled + SettleAll(q.readQueue, Rejected(err)))
  }

  /** The listeners' response to one emitted signal. */
  function OnSignal(q: Queues, s: Signal): Queues
  {
    match s
    case Published(name, e, _) => if name == "event" then OnEvent(q, e) else q
    case End => OnEnd(q)
    case AbortSignal(err) => OnFailure(q, err)
    case ErrorSignal(err) => OnFailure(q, err)
    case Connect => q
  }

  /** The listeners' response to signals emitted in order. */
  function Feed(q: Queues, signals: seq<Signal>): Queues
    decreases |signals|
  {
    if signals == [] then q else OnSignal(Feed(q, signals[..|signals| - 1]), signals[|signals| - 1])
  }

  lemma {:induction false} FeedAppend(q: Queues, a: seq<Signal>, b: seq<Signal>)
    ensures Feed(q, a + b) == Feed(Feed(q, a), b)
    decreases |b|
  {
    if b == [] {
      assert a + b == a;
    } else {
      assert (a + b)[..|a + b| - 1] == a + b[..|b| - 1];
      FeedAppend(q, a, b[..|b| - 1]);
    }
  }

  /** `next()`, where `reader` is the id a new pending reader gets. */
  function Next(q: Queues, reader: nat): (r: (Queues, NextResult))
    ensures r.1.Value? <==> q.pushQueue != []
    ensures r.1.Finished? <==> q.pushQueue == [] && q.done
    ensures r.0.done == q.done && r.0.settled == q.settled
  {
    if q.pushQueue == [] then
      if q.done then (q, Finished)
      else (q.(readQueue := q.readQueue + [reader]), Waiting(reader))
    else
      (q.(pushQueue := q.pushQueue[1..]), Value(q.pushQueue[0]))
  }

  /**
   * The adapter's invariant: events are only buffered while nobody waits, readers only wait
   * while nothing is buffered, and nobody waits once the stream is done.
   */
  ghost predicate Valid(q: Queues)
  {
    && (q.pushQueue == [] || q.readQueue == [])
    && (q.done ==> q.readQueue == [])
  }

  lemma OnSignalValid(q: Queues, s: Signal)
    requires Valid(q)
    ensures Valid(OnSignal(q, s))
  {
  }

  lemma {:induction false} FeedValid(q: Queues, signals: seq<Signal>)
    requires Valid(q)
    ensures Valid(Feed(q, signals))
    decreases |signals|
  {
    if signals != [] {
      FeedValid(q, signals[..|signals| - 1]);
      OnSignalValid(Feed(q, signals[..|signals| - 1]), signals[|signals| - 1]);
    }
  }

  lemma NextValid(q: Queues, reader: nat)
    requires Valid(q)
    ensures Valid(Next(q, reader).0)
  {
  }

  /**
   * `next()` hands out buffered events oldest first, even once the stream is done; with an empty
   * buffer it answers `done: true` after the end and otherwise queues a new reader.
   */
  lemma NextRule(q: Queues, reader: nat)
    ensures q.pushQueue != [] ==> Next(q, reader) == (q.(pushQueue := q.pushQueue[1..]), Value(q.pushQueue[0]))
    ensures q.pushQueue == [] && q.done ==> Next(q, reader) == (q, Finished)
    ensures q.pushQueue == [] && !q.done ==>
      Next(q, reader).1 == Waiting(reader) && Next(q, reader).0.readQueue == q.readQueue + [reader]
  {
  }

  /**
   * The end of the stream settles every waiting reader as exhausted and empties the wait list; an
   * abort or an error rejects every one of them with its error. The buffer is kept.
   */
  lemma TerminalSettlesEveryReader(q: Queues, s: Signal)
    requires IsTerminal(s)
    ensures var q' := OnSignal(q, s);
      && q'.done && q'.readQueue == [] && q'.pushQueue == q.pushQueue
      && |q'.settled| == |q.settled| + |q.readQueue|
      && q'.settled[..|q.settled|] == q.settled
      && forall k :: 0 <= k < |q.readQueue| ==>
           q'.settled[|q.settled| + k] ==
             Settlement(q.readQueue[k], if s.End? then Exhausted else Rejected(if s.AbortSignal? then s.abortError else s.failure))
  {
  }

  /** A consumer's interaction with the adapter: the emitter publishes a signal, or the consumer calls `next()`. */
  datatype Op = Emit(signal: Signal) | Pull

  /** The events emitted under `event` in `ops`. */
  function EventsIn(ops: seq<Op>): seq<Event>
    decreases |ops|
  {
    if ops == [] then []
    else
      var op := ops[|ops| - 1];
      EventsIn(ops[..|ops| - 1])
        + (if op.Emit? && op.signal.Published? && op.signal.name == "event" then [op.signal.event] else [])
  }

  /**
   * `ops` run from `q`, giving new reader ids from `reader` on: the final queues and the events
   * the consumer received, in the order it received them (returned by `next()` at once, or
   * delivered to a waiting reader).
   */
  function Drive(q: Queues, ops: seq<Op>, reader: nat): (Queues, seq<Event>)
    decreases |ops|
  {
    if ops == [] then (q, [])
    else
      var prev := Drive(q, ops[..|ops| - 1], reader);
      var q0 := prev.0;
      match ops[|ops| - 1]
      case Emit(s) =>
        var taken := if s.Published? && s.name == "event" && q0.readQueue != [] then [s.event] else [];
        (OnSignal(q0, s), prev.1 + taken)
      case Pull =>
        var (q1, r) := Next(q0, reader + |ops| - 1);
        (q1, prev.1 + (if r.Value? then [r.event] else []))
  }

  /** The events an emitted signal hands to the consumer, and those it adds to the stream. */
  function Delivered(q0: Queues, s: Signal): seq<Event>
  {
    if s.Published? && s.name == "event" && q0.readQueue != [] then [s.event] else []
  }

  function EmittedEvents(s: Signal): seq<Event>
  {
    if s.Published? && s.name == "event" then [s.event] else []
  }

  lemma EmitKeepsOrder(q0: Queues, taken: seq<Event>, base: seq<Event>, s: Signal)
    requires Valid(q0)
    requires taken + q0.pushQueue == base
    ensures (taken + Delivered(q0, s)) + OnSignal(q0, s).pushQueue == base + EmittedEvents(s)
  {
    if s.Published? && s.name == "event" {
      if q0.readQueue != [] {
        assert taken == base;
      } else {
        assert (taken + []) + (q0.pushQueue + [s.event]) == (taken + q0.pushQueue) + [s.event];
      }
    } else {
      assert OnSignal(q0, s).pushQueue == q0.pushQueue;
      assert base + [] == base;
      assert taken + [] == taken;
    }
  }

  lemma PullKeepsOrder(q0: Queues, taken: seq<Event>, base: seq<Event>, reader: nat)
    requires taken + q0.pushQueue == base
    ensures var (q1, r) := Next(q0, reader);
      (taken + (if r.Value? then [r.event] else [])) + q1.pushQueue == base
  {
    if q0.pushQueue != [] {
      assert q0.pushQueue == [q0.pushQueue[0]] + q0.pushQueue[1..];
      assert (taken + [q0.pushQueue[0]]) + q0.pushQueue[1..] == taken + q0.pushQueue;
    } else {
      assert taken + [] == taken;
    }
  }

  /**
   * The pull adapter loses, duplicates and reorders nothing: whatever the interleaving of
   * emissions and `next()` calls, the events the consumer has received followed by those still
   * buffered are exactly the events that were buffered at the start followed by every event
   * emitted since, in emission order.
   */
  lemma {:induction false} PullIsFifo(q: Queues, ops: seq<Op>, reader: nat)
    requires Valid(q)
    ensures Valid(Drive(q, ops, reader).0)
    ensures Drive(q, ops, reader).1 + Drive(q, ops, reader).0.pushQueue == q.pushQueue + EventsIn(ops)
    decreases |ops|
  {
    if ops != [] {
      var init := ops[..|ops| - 1];
      PullIsFifo(q, init, reader);
      var prev := Drive(q, init, reader);
      var q0 := prev.0;
      var base := q.pushQueue + EventsIn(init);
      var op := ops[|ops| - 1];
      if op.Emit? {
        OnSignalValid(q0, op.signal);
        assert Drive(q, ops, reader) == (OnSignal(q0, op.signal), prev.1 + Delivered(q0, op.signal));
        assert EventsIn(ops) == EventsIn(init) + EmittedEvents(op.signal);
        EmitKeepsOrder(q0, prev.1, base, op.signal);
      } else {
        NextValid(q0, reader + |ops| - 1);
        assert EventsIn(ops) == EventsIn(init);
        PullKeepsOrder(q0, prev.1, base, reader + |ops| - 1);
      }
    }
  }
}
