/**
 Server-pushed events of one connection: the read loop decodes envelopes and queues those without
 a cid, the dispatch loop hands them out.  The queue is a channel of 1024 places; when it is full
 the read loop waits, and either loop leaves when the connection's done channel closes.
 */
module EventQueue {
  import opened Wrappers

  const QUEUE_SIZE: nat := 1024

  /** An inbound envelope frame: its decoding, if it decodes, and its cid. */
  datatype Inbound<E> = Undecodable | Decoded(env: E, cid: int)

  /**
   `read` is every envelope frame the read loop got; `awaiting` is the event it is trying to
   enqueue; `lost` the one it gave up on when leaving.
   */
  datatype State<E> = State(
    read: seq<Inbound<E>>,
    awaiting: Option<E>,
    lost: Option<E>,
    queue: seq<E>,
    dispatched: seq<E>,
    done: bool,
    reading: bool,
    dispatching: bool)

  datatype Step<E> =
    | ReadEnvelope(f: Inbound<E>)
    | Enqueue
    | Dispatch
    | CloseDone
    | ReaderLeaves
    | DispatcherLeaves

  predicate Enabled<E>(s: State<E>, step: Step<E>) {
    match step
    case ReadEnvelope(_) => s.reading && s.awaiting.None?
    case Enqueue => s.reading && s.awaiting.Some? && |s.queue| < QUEUE_SIZE
    case Dispatch => s.dispatching && s.queue != []
    case CloseDone => true
    case ReaderLeaves => s.reading && (s.awaiting.None? || s.done)
    case DispatcherLeaves => s.dispatching && s.done
  }

  function Do<E>(s: State<E>, step: Step<E>): (s': State<E>)
    requires Enabled(s, step)
  {
    match step
    case ReadEnvelope(f) =>
      s.(read := s.read + [f],
         awaiting := if f.Decoded? && f.cid == 0 then Some(f.env) else None)
    case Enqueue => s.(queue := s.queue + [s.awaiting.value], awaiting := None)
    case Dispatch => s.(queue := s.queue[1..], dispatched := s.dispatched + [s.queue[0]])
    case CloseDone => s.(done := true)
    case ReaderLeaves => s.(reading := false, lost := s.awaiting, awaiting := None)
    case DispatcherLeaves => s.(dispatching := false)
  }

  function Start<E>(): (s: State<E>) {
    State([], None, None, [], [], false, true, true)
  }

  /** The events among the frames read: decodable, without a cid, in arrival order. */
  function Events<E>(read: seq<Inbound<E>>): (es: seq<E>) {
    if read == [] then []
    else
      var f := read[|read| - 1];
      var es := Events(read[..|read| - 1]);
      if f.Decoded? && f.cid == 0 then es + [f.env] else es
  }

  function Maybe<E>(o: Option<E>): (es: seq<E>) {
    if o.Some? then [o.value] else []
  }

  /** Nothing is dropped, duplicated or reordered: what arrived is what was dispatched, then what is
      queued, then at most one event in the read loop's hands or lost with it. */
  ghost predicate Inv<E>(s: State<E>) {
    && Events(s.read) == s.dispatched + s.queue + Maybe(s.awaiting) + Maybe(s.lost)
    && |s.queue| <= QUEUE_SIZE
    && (s.reading ==> s.lost.None?)
    && (!s.reading ==> s.awaiting.None?)
    && (s.lost.Some? ==> s.done)
  }

  lemma EventsSnoc<E>(read: seq<Inbound<E>>, f: Inbound<E>)
    ensures Events(read + [f]) == Events(read) + if f.Decoded? && f.cid == 0 then [f.env] else []
  {
    assert (read + [f])[..|read|] == read;
  }

  lemma StepKeepsInv<E>(s: State<E>, step: Step<E>)
    requires Inv(s) && Enabled(s, step)
    ensures Inv(Do(s, step))
  {
    match step
    case ReadEnvelope(f) => EventsSnoc(s.read, f);
    case Dispatch =>
      hide Events;
      assert s.dispatched + s.queue == s.dispatched + [s.queue[0]] + s.queue[1..];
    case _ =>
      hide Events;
  }

  ghost predicate Legal<E>(s: State<E>, steps: seq<Step<E>>)
    decreases |steps|
  {
    steps == [] || (Enabled(s, steps[0]) && Legal(Do(s, steps[0]), steps[1..]))
  }

  function Run<E>(s: State<E>, steps: seq<Step<E>>): (s': State<E>)
    requires Legal(s, steps)
    decreases |steps|
  {
    if steps == [] then s else Run(Do(s, steps[0]), steps[1..])
  }

  lemma {:induction false} RunKeepsInv<E>(s: State<E>, steps: seq<Step<E>>)
    requires Inv(s) && Legal(s, steps)
    ensures Inv(Run(s, steps))
    decreases |steps|
  {
    hide Do, Enabled, Inv;
    if steps != [] {
      StepKeepsInv(s, steps[0]);
      RunKeepsInv(Do(s, steps[0]), steps[1..]);
    }
  }

  /** In every run the dispatched events are a prefix of the arrivals and the queue stays within its
      size; while the connection is up, arrivals are dispatched, queued or the one awaiting a place. */
  lemma EventOrderIsConserved<E>(steps: seq<Step<E>>)
    requires Legal(Start(), steps)
    ensures var s := Run(Start(), steps);
            && s.dispatched <= Events(s.read)
            && |s.queue| <= 1024
            && (!s.done ==> Events(s.read) == s.dispatched + s.queue + Maybe(s.awaiting))
  {
    RunKeepsInv(Start<E>(), steps);
    var s := Run(Start<E>(), steps);
    if !s.done {
      assert s.dispatched + s.queue + Maybe(s.awaiting) + [] == s.dispatched + s.queue + Maybe(s.awaiting);
    }
  }

  lemma {:induction false} EventsHaveNoCid<E>(read: seq<Inbound<E>>, e: E)
    requires e in Events(read)
    ensures exists i :: 0 <= i < |read| && read[i] == Decoded(e, 0)
  {
    var before, f := read[..|read| - 1], read[|read| - 1];
    if f.Decoded? && f.cid == 0 && f.env == e {
      assert read[|read| - 1] == Decoded(e, 0);
    } else {
      EventsHaveNoCid(before, e);
      var i :| 0 <= i < |before| && before[i] == Decoded(e, 0);
      assert read[i] == Decoded(e, 0);
    }
  }

  /** In every run what waits in the queue or was dispatched came in as an envelope without a cid: a
      reply never waits behind an event handler. */
  lemma RepliesAreNeverQueued<E>(steps: seq<Step<E>>, e: E)
    requires Legal(Start(), steps)
    requires var s := Run(Start(), steps); e in s.queue || e in s.dispatched
    ensures var s := Run(Start(), steps);
            exists i :: 0 <= i < |s.read| && s.read[i] == Decoded(e, 0)
  {
    RunKeepsInv(Start<E>(), steps);
    EventsHaveNoCid(Run(Start<E>(), steps).read, e);
  }

  /** A loop that left takes no further step. */
  lemma {:induction false} LeftForGood<E>(s: State<E>, steps: seq<Step<E>>)
    requires Legal(s, steps)
    ensures !s.reading ==> !Run(s, steps).reading && Run(s, steps).read == s.read
    ensures !s.dispatching ==> !Run(s, steps).dispatching && Run(s, steps).dispatched == s.dispatched
    decreases |steps|
  {
    if steps != [] {
      LeftForGood(Do(s, steps[0]), steps[1..]);
    }
  }

  /** Closing done lets both loops leave, at once or at any time later, even with the queue full; and
      while both run, a read loop with an event in hand is never stuck for good. */
  lemma LoopsAreNeverStuck<E>(before: seq<Step<E>>, after: seq<Step<E>>)
    requires Legal(Start(), before) && Legal(Do(Run(Start(), before), CloseDone), after)
    ensures var e := Run(Do(Run(Start(), before), CloseDone), after);
            && (e.reading ==> Enabled(e, ReaderLeaves) && !Do(e, ReaderLeaves).reading)
            && (e.dispatching ==> Enabled(e, DispatcherLeaves) && !Do(e, DispatcherLeaves).dispatching)
    ensures var s := Run(Start(), before);
            && (s.reading && s.awaiting.Some? && |s.queue| < 1024 ==> Enabled(s, Enqueue))
            && (s.reading && s.dispatching && s.awaiting.Some? ==> Enabled(s, Enqueue) || Enabled(s, Dispatch))
  {
    DoneStays(Do(Run(Start<E>(), before), CloseDone), after);
  }

  lemma {:induction false} DoneStays<E>(s: State<E>, steps: seq<Step<E>>)
    requires Legal(s, steps) && s.done
    ensures Run(s, steps).done
    decreases |steps|
  {
    if steps != [] {
      DoneStays(Do(s, steps[0]), steps[1..]);
    }
  }
}
