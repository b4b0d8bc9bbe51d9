/**
 From bytes to the waiting request: whatever else the peer interleaves, the reply to a pending
 request is reassembled and sent on that request's channel, once, and on no other.
 */
module Replies {
  import opened Wrappers
  import opened Bytes
  import opened Wire
  import opened Streams
  import opened Correlation
  import opened ReadLoop
  import Abridged
  import ApiStreams
  import WireProofs

  /** The frame completes a reply addressed to request k. */
  ghost predicate Answers<E>(codec: Codec<E>, f: WireFrame, k: int) {
    match f
    case ApiChunk(cid, _, fin, _) => fin && cid == Low(k)
    case Pong(cid) => cid == Low(k)
    case Envelope(payload, padded) =>
      var e := Abridged.DecodeEnvelope(codec.decode, payload, padded);
      e.Some? && codec.cidOf(e.value) == k && k != 0
  }

  /** Chunk and pong frames carry 16 cid bits. */
  ghost predicate WireCid(f: WireFrame) {
    (f.ApiChunk? || f.Pong?) ==> f.cid < 0x1_0000
  }

  /** The raw reply to k can reach no other request. */
  ghost predicate Routed<C>(table: map<int, C>, k: int) {
    k in table && (0 <= k < 0x1_0000 || Alone(table, k))
  }

  /** The unfinished chunks a frame adds for a 16-bit cid. */
  function Adds(f: WireFrame, c: int): (chunks: seq<seq<Byte>>) {
    if f.ApiChunk? && f.cid == c && !f.fin then [f.payload] else []
  }

  /** What a request that is still pending keeps across steps: its channel, its own alone, nothing sent on it. */
  ghost predicate StillPending<C, E>(s: State<C, E>, s': State<C, E>, k: int) {
    && k in s.table && k in s'.table && s'.table[k] == s.table[k] && DistinctChannels(s'.table)
    && s.log <= s'.log
    && (forall i :: |s.log| <= i < |s'.log| ==> s'.log[i].ch != s.table[k])
  }

  lemma SendElsewhere<C, E>(s: State<C, E>, j: int, reply: Reply<E>, k: int)
    requires DistinctChannels(s.table) && k in s.table && j in s.table && j != k
    ensures StillPending(s, Send(s, j, reply), k)
  {
  }

  lemma ResolveElsewhere<C, E>(s: State<C, E>, c: int, reply: Reply<E>, s': State<C, E>, k: int)
    requires DistinctChannels(s.table) && k in s.table && 0 <= c < 0x1_0000 && c != Low(k)
    requires Resolves(s, c, reply, s')
    ensures StillPending(s, s', k) && s'.streams == s.streams
  {
    if j :| MayTake(s.table, c, j) && s' == Send(s, j, reply) {
      SendElsewhere(s, j, reply, k);
    }
  }

  /** A frame that is not the reply to k leaves request k pending, and buffers for it exactly its own chunks. */
  lemma OtherFramesKeepPending<C, E>(codec: Codec<E>, s: State<C, E>, f: WireFrame, s': State<C, E>, k: int)
    requires Handles(codec, s, f, s') && DistinctChannels(s.table) && k in s.table
    requires WireCid(f) && !Answers(codec, f, k)
    ensures StillPending(s, s', k)
    ensures ApiStreams.Buffered(s'.streams, Low(k)) == ApiStreams.Buffered(s.streams, Low(k)) + Adds(f, Low(k))
  {
    var c := Low(k);
    assert ApiStreams.Buffered(s.streams, c) + [] == ApiStreams.Buffered(s.streams, c);
    match f
    case ApiChunk(cid, code, fin, payload) =>
      var t := s.(streams := ApiStreams.Store(s.streams, f));
      if fin {
        ResolveElsewhere(t, cid, ApiReply(code, ApiStreams.Body(s.streams, f)), s', k);
      }
    case Pong(cid) => ResolveElsewhere(s, cid, PongReply(cid), s', k);
    case Envelope(payload, padded) =>
      var e := Abridged.DecodeEnvelope(codec.decode, payload, padded);
      if e.Some? && codec.cidOf(e.value) in s.table && codec.cidOf(e.value) != 0 {
        SendElsewhere(s, codec.cidOf(e.value), EnvelopeReply(e.value), k);
      }
  }

  /** The unfinished chunks of a 16-bit cid in a list of frames. */
  function Pieces(fs: seq<WireFrame>, c: int): (chunks: seq<seq<Byte>>) {
    if fs == [] then [] else Pieces(fs[..|fs| - 1], c) + Adds(fs[|fs| - 1], c)
  }

  /** Request k is registered when the trace begins and its sender does not clear it meanwhile; what
      other senders and read loops do is up to them. */
  ghost predicate Waits<C, E>(
    codec: Codec<E>, states: seq<State<C, E>>, tables: seq<map<int, C>>, fs: seq<WireFrame>, k: int)
  {
    && Trace(codec, states, tables, fs)
    && DistinctChannels(states[0].table) && k in states[0].table
    && forall i :: 0 <= i < |tables| ==> k in tables[i]
  }

  /** Over any frames that do not answer it, a request stays pending and its buffer collects its pieces. */
  lemma {:induction false} PendingThroughout<C, E>(
    codec: Codec<E>, states: seq<State<C, E>>, tables: seq<map<int, C>>, fs: seq<WireFrame>, k: int)
    requires Waits(codec, states, tables, fs, k)
    requires forall i :: 0 <= i < |fs| ==> WireCid(fs[i]) && !Answers(codec, fs[i], k)
    ensures StillPending(states[0], states[|fs|], k)
    ensures ApiStreams.Buffered(states[|fs|].streams, Low(k)) ==
            ApiStreams.Buffered(states[0].streams, Low(k)) + Pieces(fs, Low(k))
    decreases |fs|
  {
    hide Handles, Answers;
    var n := |fs| - 1;
    if fs == [] {
      assert ApiStreams.Buffered(states[0].streams, Low(k)) + [] == ApiStreams.Buffered(states[0].streams, Low(k));
    } else {
      WaitsPrefix(codec, states, tables, fs[..n], fs[n], k);
      PendingThroughout(codec, states[..n + 1], tables[..n], fs[..n], k);
      RoundKeepsPending(codec, states[n], tables[n], fs[n], states[n + 1], k);
    }
  }

  lemma WaitsPrefix<C, E>(
    codec: Codec<E>, states: seq<State<C, E>>, tables: seq<map<int, C>>, fs: seq<WireFrame>, f: WireFrame, k: int)
    requires Waits(codec, states, tables, fs + [f], k)
    ensures Waits(codec, states[..|fs| + 1], tables[..|fs|], fs, k)
    ensures Round(codec, states[|fs|], tables[|fs|], f, states[|fs| + 1])
  {
    hide Round;
    forall i | 0 <= i < |fs|
      ensures Round(codec, states[i], tables[i], fs[i], states[i + 1])
    {
      assert (fs + [f])[i] == fs[i];
    }
    assert (fs + [f])[|fs|] == f;
  }

  /** The same for one round, with what others did before the frame. */
  lemma RoundKeepsPending<C, E>(
    codec: Codec<E>, s: State<C, E>, table: map<int, C>, f: WireFrame, s': State<C, E>, k: int)
    requires Round(codec, s, table, f, s') && DistinctChannels(s.table) && k in s.table && k in table
    requires WireCid(f) && !Answers(codec, f, k)
    ensures StillPending(s, s', k)
    ensures ApiStreams.Buffered(s'.streams, Low(k)) == ApiStreams.Buffered(s.streams, Low(k)) + Adds(f, Low(k))
  {
    hide Handles, Answers;
    OtherFramesKeepPending(codec, s.(table := table), f, s', k);
  }

  /** When the reply arrives, it is sent on the request's channel. */
  lemma RawReplyIsSent<C, E>(s: State<C, E>, k: int, reply: Reply<E>, s': State<C, E>)
    requires Routed(s.table, k) && Resolves(s, Low(k), reply, s')
    ensures s' == Send(s, k, reply)
  {
    RoutedExactlyWhen(s.table, k);
    assert MayTake(s.table, Low(k), k) || Low(k) in s.table;
    if Low(k) in s.table {
      assert MayTake(s.table, Low(k), Low(k));
    }
  }

  /**
   Chunked replies, end to end over frames: if the first frame completing a reply to k is a fin chunk,
   then at that frame, and not before, the request's channel receives the response code and the
   concatenation of the chunks buffered under its 16 bits, whatever frames came in between and
   whatever other senders did.
   */
  lemma ChunkedReplyReachesRequest<C, E>(
    codec: Codec<E>, states: seq<State<C, E>>, tables: seq<map<int, C>>, fs: seq<WireFrame>, f: WireFrame, k: int)
    requires Waits(codec, states, tables, fs + [f], k) && Routed(tables[|fs|], k)
    requires forall i :: 0 <= i < |fs| ==> WireCid(fs[i]) && !Answers(codec, fs[i], k)
    requires f.ApiChunk? && f.fin && f.cid == Low(k)
    ensures var ch := states[0].table[k];
            var chunks := ApiStreams.Buffered(states[0].streams, Low(k)) + Pieces(fs, Low(k));
            var body := ApiStreams.Concat(chunks) + f.payload;
            && (forall i :: |states[0].log| <= i < |states[|fs|].log| ==> states[|fs|].log[i].ch != ch)
            && states[|fs| + 1].log == states[|fs|].log + [Delivery(ch, ApiReply(f.code, body))]
            && k !in states[|fs| + 1].table && Low(k) !in states[|fs| + 1].streams
  {
    hide Handles, Answers;
    var n := |fs|;
    WaitsPrefix(codec, states, tables, fs, f, k);
    PendingThroughout(codec, states[..n + 1], tables[..n], fs, k);
    FinIsSent(codec, states[n].(table := tables[n]), f, states[n + 1], k);
  }

  lemma FinIsSent<C, E>(codec: Codec<E>, s: State<C, E>, f: WireFrame, s': State<C, E>, k: int)
    requires Handles(codec, s, f, s') && Routed(s.table, k)
    requires f.ApiChunk? && f.fin && f.cid == Low(k)
    ensures var body := ApiStreams.Concat(ApiStreams.Buffered(s.streams, Low(k))) + f.payload;
            && s'.log == s.log + [Delivery(s.table[k], ApiReply(f.code, body))]
            && k !in s'.table && Low(k) !in s'.streams
  {
    var t := s.(streams := ApiStreams.Store(s.streams, f));
    RawReplyIsSent(t, k, ApiReply(f.code, ApiStreams.Body(s.streams, f)), s');
    var chunks := ApiStreams.Buffered(s.streams, Low(k));
    if |f.payload| > 0 {
      ApiStreams.ConcatSnoc(chunks, f.payload);
    } else {
      assert chunks + [] == chunks;
      assert ApiStreams.Concat(chunks) + f.payload == ApiStreams.Concat(chunks);
    }
  }

  /** The same for a ping: the pong with the ping's 16 bits is sent on the ping's channel. */
  lemma PongReachesPing<C, E>(
    codec: Codec<E>, states: seq<State<C, E>>, tables: seq<map<int, C>>, fs: seq<WireFrame>, k: int)
    requires Waits(codec, states, tables, fs + [Pong(Low(k))], k) && Routed(tables[|fs|], k)
    requires forall i :: 0 <= i < |fs| ==> WireCid(fs[i]) && !Answers(codec, fs[i], k)
    ensures states[|fs| + 1].log == states[|fs|].log + [Delivery(states[0].table[k], PongReply(Low(k)))]
    ensures forall i :: |states[0].log| <= i < |states[|fs|].log| ==> states[|fs|].log[i].ch != states[0].table[k]
  {
    hide Answers;
    var n := |fs|;
    WaitsPrefix(codec, states, tables, fs, Pong(Low(k)), k);
    PendingThroughout(codec, states[..n + 1], tables[..n], fs, k);
    RawReplyIsSent(states[n].(table := tables[n]), k, PongReply(Low(k)), states[n + 1]);
  }

  /** And for any envelope frame that decodes to a reply with cid k. */
  lemma DecodedReplyReachesRequest<C, E>(
    codec: Codec<E>, states: seq<State<C, E>>, tables: seq<map<int, C>>, fs: seq<WireFrame>, f: WireFrame, e: E, k: int)
    requires Waits(codec, states, tables, fs + [f], k) && k != 0
    requires forall i :: 0 <= i < |fs| ==> WireCid(fs[i]) && !Answers(codec, fs[i], k)
    requires f.Envelope? && Abridged.DecodeEnvelope(codec.decode, f.payload, f.padded) == Some(e) && codec.cidOf(e) == k
    ensures states[|fs| + 1].log == states[|fs|].log + [Delivery(states[0].table[k], EnvelopeReply(e))]
    ensures k !in states[|fs| + 1].table
    ensures forall i :: |states[0].log| <= i < |states[|fs|].log| ==> states[|fs|].log[i].ch != states[0].table[k]
  {
    hide Answers, Abridged.DecodeEnvelope;
    var n := |fs|;
    WaitsPrefix(codec, states, tables, fs, f, k);
    PendingThroughout(codec, states[..n + 1], tables[..n], fs, k);
  }

  /** So an envelope pushed in a WebSocket frame, which carries no padding, is decoded as it is and
      sent on k's channel. */
  lemma PushedReplyReachesRequest<C, E>(
    codec: Codec<E>, states: seq<State<C, E>>, tables: seq<map<int, C>>, fs: seq<WireFrame>, m: seq<Byte>, k: int)
    requires Waits(codec, states, tables, fs + [Envelope(m, false)], k) && k != 0
    requires forall i :: 0 <= i < |fs| ==> WireCid(fs[i]) && !Answers(codec, fs[i], k)
    requires codec.decode(m).Some? && codec.cidOf(codec.decode(m).value) == k
    ensures states[|fs| + 1].log ==
            states[|fs|].log + [Delivery(states[0].table[k], EnvelopeReply(codec.decode(m).value))]
    ensures forall i :: |states[0].log| <= i < |states[|fs|].log| ==> states[|fs|].log[i].ch != states[0].table[k]
  {
    hide Answers, Handles;
    DecodedReplyReachesRequest(codec, states, tables, fs, Envelope(m, false), codec.decode(m).value, k);
  }

  /** And for an envelope reply: the abridged frame of a message that decodes with cid k, padding and all,
      is sent decoded on k's channel. */
  lemma EnvelopeReachesRequest<C, E>(
    codec: Codec<E>, states: seq<State<C, E>>, tables: seq<map<int, C>>, fs: seq<WireFrame>, m: seq<Byte>, k: int)
    requires Waits(codec, states, tables, fs + [Envelope(Abridged.Padded(m), true)], k) && k != 0
    requires forall i :: 0 <= i < |fs| ==> WireCid(fs[i]) && !Answers(codec, fs[i], k)
    requires Abridged.SoundDecoder(codec.decode) && codec.decode(m).Some? && codec.cidOf(codec.decode(m).value) == k
    ensures states[|fs| + 1].log ==
            states[|fs|].log + [Delivery(states[0].table[k], EnvelopeReply(codec.decode(m).value))]
    ensures forall i :: |states[0].log| <= i < |states[|fs|].log| ==> states[|fs|].log[i].ch != states[0].table[k]
  {
    hide Answers, Handles;
    Abridged.TrialDecodeStripsPadding(codec.decode, m, Abridged.Padding(|m|), 3);
    DecodedReplyReachesRequest(
      codec, states, tables, fs, Envelope(Abridged.Padded(m), true), codec.decode(m).value, k);
  }

  // ----------------------------------------------------------------- down to bytes

  /** Reading a printed list of frames to the end returns its meanings and then end of stream. */
  lemma {:induction false} PrintedStreamReadsAll(items: seq<Item>)
    requires AllValid(items)
    ensures ReadAll(PrintAll(items)) == (Meanings(items), Eof)
  {
    hide Wire.ReadOnce, Wire.Print, Wire.Meaning;
    if items == [] {
      NothingReads();
    } else {
      var b := PrintAll(items);
      WireProofs.ReadOnceInvertsPrint(items[0], PrintAll(items[1..]));
      ReadAllOnce(b);
      assert b[|Print(items[0])|..] == PrintAll(items[1..]);
      PrintedStreamReadsAll(items[1..]);
    }
  }

  lemma NothingReads()
    ensures ReadAll([]) == ([], Eof)
  {
  }

  /** The meanings of valid frames carry 16 cid bits. */
  lemma {:induction false} MeaningsHaveWireCids(items: seq<Item>, i: nat)
    requires AllValid(items) && i < |Meanings(items)|
    ensures WireCid(Meanings(items)[i])
  {
    assert ValidItem(items[0]);
    if Meaning(items[0]).Some? {
      if i > 0 {
        MeaningsHaveWireCids(items[1..], i - 1);
      }
    } else {
      MeaningsHaveWireCids(items[1..], i);
    }
  }

  /**
   A chunked API reply from bytes to the waiting request: the peer writes any valid frames that do not
   answer request k, then the fin chunk for k; a read loop over exactly these bytes, among any other
   senders, ends with the whole body sent on k's channel as the last and only delivery to it.
   */
  lemma BytesToWaitingRequest<C, E>(
    codec: Codec<E>, states: seq<State<C, E>>, tables: seq<map<int, C>>,
    items: seq<Item>, code: nat, p: seq<Byte>, k: int)
    requires ValidItem(ApiItem(Low(k), code, RAW_FIN, p))
    requires var all := items + [ApiItem(Low(k), code, RAW_FIN, p)];
             AllValid(all) && Waits(codec, states, tables, ReadAll(PrintAll(all)).0, k) && tables != []
    requires Routed(tables[|tables| - 1], k)
    requires forall i :: 0 <= i < |Meanings(items)| ==> !Answers(codec, Meanings(items)[i], k)
    ensures var fs, ch := Meanings(items), states[0].table[k];
            var chunks := ApiStreams.Buffered(states[0].streams, Low(k)) + Pieces(fs, Low(k));
            var reply := ApiReply(code, ApiStreams.Concat(chunks) + p);
            && |states| == |fs| + 2
            && states[|fs| + 1].log == states[|fs|].log + [Delivery(ch, reply)]
            && (forall i :: |states[0].log| <= i < |states[|fs|].log| ==> states[|fs|].log[i].ch != ch)
  {
    hide Handles, Answers;
    var last := ApiItem(Low(k), code, RAW_FIN, p);
    var all := items + [last];
    assert AllValid(items) by { assert forall it :: it in items ==> it in all; }
    PrintedStreamReadsAll(all);
    MeaningsSnoc(items, last);
    var fs := Meanings(items);
    forall i | 0 <= i < |fs|
      ensures WireCid(fs[i])
    {
      MeaningsHaveWireCids(items, i);
    }
    ChunkedReplyReachesRequest(codec, states, tables, fs, ApiChunk(Low(k), code, true, p), k);
  }

  lemma {:induction false} MeaningsSnoc(items: seq<Item>, it: Item)
    ensures Meanings(items + [it]) == Meanings(items) + match Meaning(it) case Some(f) => [f] case None => []
  {
    if items == [] {
      assert items + [it] == [it];
      assert [it][1..] == [];
    } else {
      MeaningsSnoc(items[1..], it);
      assert (items + [it])[1..] == items[1..] + [it];
    }
  }
}
