/**
 The read loop end to end: bytes are read into frames, chunks are reassembled, replies are matched
 with pending requests and sent on their channels, and events are collected.  Raw lookups may take
 any key their 16 bits allow (`Correlation.MayTake`), so handling a frame is a relation.
 Sending never blocks (`Requests.ReaderNeverBlocks`); `log` records what was sent where.
 */
module ReadLoop {
  import opened Wrappers
  import opened Bytes
  import opened Wire
  import opened Streams
  import opened Correlation
  import opened Transport
  import Abridged
  import ApiStreams
  import EventQueue

  datatype Reply<E> =
    | EnvelopeReply(env: E)
    | PongReply(cid: nat)
    | ApiReply(code: nat, body: seq<Byte>)

  datatype Delivery<C, E> = Delivery(ch: C, reply: Reply<E>)

  datatype State<C, E> = State(
    streams: ApiStreams.Streams,
    table: map<int, C>,
    log: seq<Delivery<C, E>>,
    events: seq<E>)

  /** Typed envelope decoding and the cid of a decoded envelope. */
  datatype Codec<!E> = Codec(decode: seq<Byte> -> Option<E>, cidOf: E -> int)

  // ------------------------------------------------------------------- one frame

  /** Take a pending request's channel out of the table and send on it. */
  function Send<C, E>(s: State<C, E>, k: int, reply: Reply<E>): (s': State<C, E>)
    requires k in s.table
  {
    s.(table := s.table - {k}, log := s.log + [Delivery(s.table[k], reply)])
  }

  /** A reply that carries 16 cid bits goes to some key they allow, or nowhere if there is none. */
  ghost predicate Resolves<C, E>(s: State<C, E>, c: int, reply: Reply<E>, s': State<C, E>) {
    || (exists k :: MayTake(s.table, c, k) && s' == Send(s, k, reply))
    || (s' == s && forall k :: !MayTake(s.table, c, k))
  }

  ghost predicate Handles<C, E>(codec: Codec<E>, s: State<C, E>, f: WireFrame, s': State<C, E>) {
    match f
    case ApiChunk(cid, code, fin, payload) =>
      var t := s.(streams := ApiStreams.Store(s.streams, f));
      if fin then Resolves(t, cid, ApiReply(code, ApiStreams.Body(s.streams, f)), s') else s' == t
    case Pong(cid) => Resolves(s, cid, PongReply(cid), s')
    case Envelope(payload, padded) =>
      match Abridged.DecodeEnvelope(codec.decode, payload, padded)
      case None => s' == s
      case Some(e) =>
        var cid := codec.cidOf(e);
        if cid == 0 then s' == s.(events := s.events + [e])
        else s' == if cid in s.table then Send(s, cid, EnvelopeReply(e)) else s
  }

  /** One round: others may have changed the table since the last frame; then the frame is handled. */
  ghost predicate Round<C, E>(codec: Codec<E>, s: State<C, E>, table: map<int, C>, f: WireFrame, s': State<C, E>) {
    Interferes(s.table, table) && Handles(codec, s.(table := table), f, s')
  }

  /** The states a read loop passes through over a list of frames; `tables[i]` is the table as frame i
      finds it, after whatever senders and other read loops did.  Handling a frame looks at the table
      once, under its lock, so that is all they can do. */
  ghost predicate Trace<C, E>(
    codec: Codec<E>, states: seq<State<C, E>>, tables: seq<map<int, C>>, fs: seq<WireFrame>)
  {
    && |states| == |fs| + 1 && |tables| == |fs|
    && forall i :: 0 <= i < |fs| ==> Round(codec, states[i], tables[i], fs[i], states[i + 1])
  }

  /** What the event queue sees of a frame: an envelope, decodable or not, or nothing. */
  function Arrival<E>(codec: Codec<E>, f: WireFrame): (a: Option<EventQueue.Inbound<E>>) {
    if !f.Envelope? then None
    else
      match Abridged.DecodeEnvelope(codec.decode, f.payload, f.padded)
      case None => Some(EventQueue.Undecodable)
      case Some(e) => Some(EventQueue.Decoded(e, codec.cidOf(e)))
  }

  /** The envelopes among the frames, in order. */
  function Arrivals<E>(codec: Codec<E>, fs: seq<WireFrame>): (arrivals: seq<EventQueue.Inbound<E>>) {
    if fs == [] then []
    else Arrivals(codec, fs[..|fs| - 1]) + EventQueue.Maybe(Arrival(codec, fs[|fs| - 1]))
  }

  /** The frame is an envelope that decodes without a cid. */
  ghost predicate IsEvent<E>(codec: Codec<E>, f: WireFrame) {
    && f.Envelope?
    && var e := Abridged.DecodeEnvelope(codec.decode, f.payload, f.padded);
       e.Some? && codec.cidOf(e.value) == 0
  }

  // ------------------------------------------------------------------------ events

  /** Over any frames, whatever others do to the table, the events queued are those that arrived: every
      envelope that decodes without a cid, in order of arrival, and nothing else. */
  lemma {:induction false} EventsAreQueuedInOrder<C, E>(
    codec: Codec<E>, states: seq<State<C, E>>, tables: seq<map<int, C>>, fs: seq<WireFrame>)
    requires Trace(codec, states, tables, fs)
    ensures states[|fs|].events == states[0].events + EventQueue.Events(Arrivals(codec, fs))
    decreases |fs|
  {
    hide Handles, EventQueue.Events;
    var n := |fs| - 1;
    if fs == [] {
      NoEvents<E>();
      assert states[0].events + [] == states[0].events;
    } else {
      assert Trace(codec, states[..n + 1], tables[..n], fs[..n]);
      EventsAreQueuedInOrder(codec, states[..n + 1], tables[..n], fs[..n]);
      FrameQueues(codec, states[n].(table := tables[n]), fs[n], states[n + 1]);
      ArrivalEvents(codec, fs[..n], fs[n]);
      assert fs == fs[..n] + [fs[n]];
    }
  }

  lemma NoEvents<E>()
    ensures EventQueue.Events<E>([]) == []
  {
  }

  /** The event in a frame, if it is one. */
  function Queued<E>(codec: Codec<E>, f: WireFrame): (es: seq<E>) {
    match Arrival(codec, f)
    case Some(Decoded(e, cid)) => if cid == 0 then [e] else []
    case _ => []
  }

  lemma FrameQueues<C, E>(codec: Codec<E>, s: State<C, E>, f: WireFrame, s': State<C, E>)
    requires Handles(codec, s, f, s')
    ensures s'.events == s.events + Queued(codec, f)
  {
    hide Abridged.DecodeEnvelope;
    assert s.events + [] == s.events;
  }

  lemma ArrivalEvents<E>(codec: Codec<E>, fs: seq<WireFrame>, f: WireFrame)
    ensures EventQueue.Events(Arrivals(codec, fs + [f])) == EventQueue.Events(Arrivals(codec, fs)) + Queued(codec, f)
  {
    hide EventQueue.Events, Abridged.DecodeEnvelope;
    assert (fs + [f])[..|fs|] == fs;
    var before := Arrivals(codec, fs);
    assert EventQueue.Events(before) + [] == EventQueue.Events(before);
    if Arrival(codec, f).Some? {
      EventQueue.EventsSnoc(before, Arrival(codec, f).value);
    } else {
      assert before + [] == before;
    }
  }

  // --------------------------------------------------------------------- the loop

  class Loop<C(!new), E> {
    const conn: TcpConn
    const pending: CidTable<C>
    const codec: Codec<E>
    /** The order in which the runtime ranges over a map's keys. */
    const range: set<int> -> seq<int>
    /** What others make of the table before the loop handles its n-th frame. */
    const others: (nat, map<int, C>) -> map<int, C>
    /** Whether the loop finds done closed, and leaves, when it is about to queue the n-th frame. */
    const leaves: nat -> bool
    var streams: ApiStreams.Streams
    var log: seq<Delivery<C, E>>
    var events: seq<E>

    ghost predicate Valid()
      reads this, conn
    {
      && conn.Valid()
      && (forall ks, k :: k in range(ks) <==> k in ks)
      && (forall n: nat, table :: Interferes(table, others(n, table)))
    }

    ghost function Abs(): (s: State<C, E>)
      reads this, pending
    {
      State(streams, pending.cids, log, events)
    }

    constructor (
      conn: TcpConn, pending: CidTable<C>, codec: Codec<E>, range: set<int> -> seq<int>,
      others: (nat, map<int, C>) -> map<int, C>, leaves: nat -> bool)
      requires conn.Valid() && (forall ks, k :: k in range(ks) <==> k in ks)
      requires forall n: nat, table :: Interferes(table, others(n, table))
      ensures Valid() && this.conn == conn && this.pending == pending && this.codec == codec
      ensures this.others == others && this.leaves == leaves
      ensures streams == map[] && log == [] && events == []
    {
      this.conn, this.pending, this.codec, this.range := conn, pending, codec, range;
      this.others, this.leaves := others, leaves;
      streams, log, events := map[], [], [];
    }

    /** Look a 16-bit cid up and send the reply to the request found. */
    method ResolveRaw(cid: int, reply: Reply<E>)
      requires Valid()
      modifies this`log, pending
      ensures Valid() && Resolves(old(Abs()), cid, reply, Abs())
    {
      var ch, key := pending.TakeRawCid(cid, range(pending.cids.Keys));
      if ch.Some? {
        log := log + [Delivery(ch.value, reply)];
        assert Abs() == Send(old(Abs()), key, reply);
      }
    }

    method DeliverApiChunk(f: WireFrame)
      requires Valid() && f.ApiChunk?
      modifies this`streams, this`log, pending
      ensures Valid() && Handles(codec, old(Abs()), f, Abs())
    {
      var chunks := if f.cid in streams then streams[f.cid] else [];
      if !f.fin {
        streams := streams[f.cid := chunks + [f.payload]];
        return;
      }
      streams := streams - {f.cid};
      if |f.payload| > 0 {
        chunks := chunks + [f.payload];
      } else {
        assert chunks + [] == chunks;
      }
      var body := ApiStreams.Assemble(chunks);
      ResolveRaw(f.cid, ApiReply(f.code, body));
    }

    method HandleEnvelope(payload: seq<Byte>, padded: bool, leaving: bool) returns (left: bool)
      requires Valid()
      modifies this`log, this`events, pending
      ensures Valid() && (left <==> leaving && IsEvent(codec, Envelope(payload, padded)))
      ensures if left then Abs() == old(Abs()) else Handles(codec, old(Abs()), Envelope(payload, padded), Abs())
    {
      var env := Abridged.UnmarshalEnvelope(codec.decode, payload, padded);
      if env.None? {
        return false;
      }
      var cid := codec.cidOf(env.value);
      if cid == 0 {
        if leaving {
          return true;
        }
        events := events + [env.value];
        return false;
      }
      left := false;
      var ch := pending.TakeCid(cid);
      if ch.Some? {
        log := log + [Delivery(ch.value, EnvelopeReply(env.value))];
      }
    }

    method HandleFrame(f: WireFrame, leaving: bool) returns (left: bool)
      requires Valid()
      modifies this`streams, this`log, this`events, pending
      ensures Valid() && (left <==> leaving && IsEvent(codec, f))
      ensures if left then Abs() == old(Abs()) else Handles(codec, old(Abs()), f, Abs())
    {
      left := false;
      match f
      case ApiChunk(_, _, _, _) => DeliverApiChunk(f);
      case Pong(cid) => ResolveRaw(cid, PongReply(cid));
      case Envelope(payload, padded) => left := HandleEnvelope(payload, padded, leaving);
    }

    /** Read the next frame, as the n-th, and handle it after whatever others did to the table. */
    method HandleNext(n: nat) returns (f: Option<WireFrame>, err: Option<ReadError>, left: bool)
      requires Valid()
      modifies this`streams, this`log, this`events, pending, conn`pos
      ensures Valid() && old(conn.pos) <= conn.pos
      ensures var r := Wire.Read(old(conn.Unread()));
              if r.Broken? then err == Some(r.error) && !left && Abs() == old(Abs())
              else
                && err.None? && f == Some(r.frame) && conn.pos == old(conn.pos) + r.used
                && conn.Unread() == old(conn.Unread())[r.used..]
                && var s, table := old(Abs()), others(n, old(pending.cids));
                   if left then IsEvent(codec, r.frame) && leaves(n) && Abs() == s.(table := table)
                   else Round(codec, s, table, r.frame, Abs())
    {
      hide Wire.Read, Handles, IsEvent, Interferes;
      left := false;
      f, err := conn.ReadFrame();
      if err.None? {
        pending.cids := others(n, pending.cids);
        left := HandleFrame(f.value, leaves(n));
      }
    }

    /**
     Read and handle frames until the stream fails or done is found closed at an event: exactly the
     frames of the peer's bytes, in order, whatever others do to the table.  The events queued are
     those among them, in order.
     */
    method Run()
      returns (err: Option<ReadError>, ghost states: seq<State<C, E>>, ghost tables: seq<map<int, C>>,
               ghost handled: seq<WireFrame>)
      requires Valid()
      modifies this`streams, this`log, this`events, pending, conn`pos
      ensures Trace(codec, states, tables, handled) && states[0] == old(Abs())
      ensures forall i :: 0 <= i < |tables| ==> tables[i] == others(i, states[i].table)
      ensures events == old(events) + EventQueue.Events(Arrivals(codec, handled))
      ensures streams == states[|handled|].streams && log == states[|handled|].log && events == states[|handled|].events
      ensures var (fs, e) := ReadAll(old(conn.Unread()));
              match err
              case Some(bad) => handled == fs && bad == e && pending.cids == states[|handled|].table
              case None =>
                && handled < fs && IsEvent(codec, fs[|handled|]) && leaves(|handled|)
                && pending.cids == others(|handled|, states[|handled|].table)
    {
      hide Wire.Read, Round, IsEvent, Interferes, Arrivals, EventQueue.Events, ReadAll;
      states, tables, handled := [Abs()], [], [];
      var n := 0;
      ghost var all := ReadAll(conn.Unread());
      assert [] + all.0 == all.0;
      while true
        invariant Valid() && n == |handled|
        invariant Trace(codec, states, tables, handled) && states[0] == old(Abs()) && states[n] == Abs()
        invariant forall i :: 0 <= i < |tables| ==> tables[i] == others(i, states[i].table)
        invariant all == (handled + ReadAll(conn.Unread()).0, ReadAll(conn.Unread()).1)
        decreases |conn.stream| - conn.pos
      {
        ghost var b, s, table := conn.Unread(), Abs(), others(n, pending.cids);
        var f, bad, left := HandleNext(n);
        ReadAllNext(b);
        if bad.Some? {
          assert handled + [] == handled;
          EventsAreQueuedInOrder(codec, states, tables, handled);
          return bad, states, tables, handled;
        }
        ghost var rest := ReadAll(conn.Unread()).0;
        assert all.0 == handled + ([f.value] + rest) == (handled + [f.value]) + rest;
        if left {
          assert all.0[|handled|] == f.value;
          EventsAreQueuedInOrder(codec, states, tables, handled);
          return None, states, tables, handled;
        }
        TraceSnoc(codec, states, tables, handled, table, f.value, Abs());
        states, tables, handled := states + [Abs()], tables + [table], handled + [f.value];
        n := n + 1;
      }
    }
  }

  lemma ReadAllNext(b: seq<Byte>)
    ensures Read(b).Broken? ==> ReadAll(b) == ([], Read(b).error)
    ensures Read(b).Got? ==>
              var rest := ReadAll(b[Read(b).used..]);
              ReadAll(b) == ([Read(b).frame] + rest.0, rest.1)
  {
    hide Wire.Read;
  }

  lemma TraceSnoc<C, E>(
    codec: Codec<E>, states: seq<State<C, E>>, tables: seq<map<int, C>>, fs: seq<WireFrame>,
    table: map<int, C>, f: WireFrame, s': State<C, E>)
    requires Trace(codec, states, tables, fs) && Round(codec, states[|fs|], table, f, s')
    ensures Trace(codec, states + [s'], tables + [table], fs + [f])
  {
    hide Round;
  }
}
