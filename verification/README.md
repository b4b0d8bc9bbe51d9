# Verification of the Mezon Go SDK core

A Dafny 4.11 model of the parts of the SDK that carry its correctness: the mixed TCP wire codec, request/response
correlation and the connection lifecycle, the throttle queue, the tiered channel caches, UTF-16 offsets and snowflake
ids. `dafny verify dfyconfig.toml` checks the whole project.

Imperative code is modelled imperatively (classes, loops, arrays) and proved against functions on values; what the
source promises is then proved about those functions, over every input, every history or every interleaving.

## How the model is laid out

| files | component |
|---|---|
| `Wire`, `WireProofs`, `Streams` | the inbound byte stream: pongs, API chunks, abridged and WebSocket frames; printers, reader, and their inverse laws |
| `Protobuf`, `Abridged` | the protobuf record layer, abridged framing, the outbound guard, trial decoding |
| `Transport` | the connection: a cursor over the peer's bytes, and the writes |
| `ApiStreams`, `Correlation`, `Requests`, `EventQueue` | chunk reassembly, the cid table, the request protocol and the event queue |
| `ReadLoop`, `Replies` | the read loop end to end, from bytes to the waiting request |
| `Lifecycle`, `Races` | Connect, Close and markDisconnected as whole operations, and taken apart into interleaved steps |
| `Throttle` | the rate limiter |
| `OrderedCache`, `CacheManager` | the insertion-ordered bounded cache |
| `ChannelTiers`, `ChannelWorld`, `ChannelClient` | client and clan caches sharing live objects, over the shared store and the server |
| `Utf16`, `Snowflake` | message offsets and ids |
| `Bits`, `Bytes`, `Wrappers` | arithmetic and helpers |

The clients' caches in `ChannelClient` are lists of `OrderedCache` held in fields; that the map-and-slice object
behaves as such a list is what `CacheManager` proves, method by method.

## Main results

* **Wire codec.** Reading is a two-sided inverse of printing: every printed frame is read back (`ReadOnceInvertsPrint`)
  and recovered whole, skipped ones included (`PrintedIsRecovered`, `PrintedListIsRecovered`), every accepted byte string
  is the print of one valid frame (`AcceptedIsPrinted`), any stream of mixed frames is read back in order with the unread
  bytes untouched (`MixedStreamIsReadBack`), and *every* byte stream splits into frames and a failing tail
  (`EveryStreamIsFrames`). Frames end themselves: a cut stream is end of stream, an extended one changes nothing
  (`CutReadFails`, `ReadIgnoresSuffix`).
* **Padding.** A framed message decodes to exactly itself even when it ends in zeros (`InboundIsExact`); at most one way
  of stripping zeros decodes at all (`StripsAreUnambiguous`), and unpadded frames decode as they stand
  (`PushedIsExact`). Outbound, the guard record makes the receiver's trim
  lossless (`OutboundIsLossless`); without it the trim recovers the payload only under the condition of
  `TrimUndoesPadding`. Framing is reversible exactly for nonempty payloads whose padded length fits 24 bits
  (`FrameRoundTrip`).
* **Requests.** In every interleaving each channel is sent on at most once and a read loop never blocks on a sender
  (`AtMostOneDelivery`, `ReaderNeverBlocks`); the reply taken for a request is what the request returns
  (`RequestGetsItsReply`). 16-bit correlation is exact inside a window (`RawLookupIsExact`); in
  general, exactly under the condition of `RoutedExactlyWhen`. A late envelope is always dropped
  (`LateEnvelopesAreDropped`), a late 16-bit reply exactly when no pending request shares its bits
  (`LateRawRepliesAreDroppedExactlyWhen`). A request that leaves through done stays in the table until some reply takes
  it (`AbandonedUntilTaken`), and can take one meant for another request (`AbandonedEntryStealsReply`). From bytes to
  channel: an API reply chunked, interleaved with any other frames and among any other senders reaches its own request,
  whole and once (`BytesToWaitingRequest`); what other senders may do is proved of the request protocol
  (`OthersInterfere`). Events are queued exactly as they arrive (`EventsAreQueuedInOrder`).
* **Lifecycle.** As whole operations the connection keeps five promises (`LifecycleIsSafe`), and reports of torn-down
  generations might as well not happen (`StaleReportsChangeNothing`). Taken apart into their steps, the operations keep
  none of them (`EveryPromiseFails`); for each, `PromiseHoldsExactlyWhen` says by which steps, seen before they are
  taken, a run breaks it:
  * a connected socket's done is open: fails when a Close is overtaken by a Connect (`CloseTakesDownReconnect`);
  * a disconnected socket's done is closed, or somebody is about to settle it: fails when a stale report takes down a
    reconnected socket (`StaleReportTakesDownReconnect`);
  * every earlier generation's done is closed: fails when two Connects both find the socket down, with no Close and no
    report (`ConnectLeavesEarlierOpen`);
  * OnDisconnect is called at most once per generation: fails when a second Connect raises the flag under a second report
    of it (`GenerationReportedTwice`);
  * and never for a generation Close tore down: fails in `StaleReportTakesDownReconnect` too.

  Further, a report's swap hits a generation not its own exactly when the flag is up and a Connect published since the
  report's check (`SwapHitsAnotherExactlyWhen`), and a Close tears down a generation that existed when it cleared the flag
  exactly when no Connect published in between (`CloseHitsOlderExactlyWhen`). What holds in every interleaving is
  `InterleavingsAreSafe`. With nothing under way the five promises are those of the whole-operation machine
  (`PromisesAreSafety`), which uninterrupted operations refine (`OperationsRefine`).
* **Throttle.** No half-open second ever contains more than the maximum of starts (`EveryRunIsRateLimited`), and a job
  sleeps exactly while the maximum is reached, at most 100 times (`StartJob`).
* **Caches.** A bounded cache evicts only when full and then the oldest entry (`PutSize`, `NothingIsEvictedEarly`,
  `HistoryIsInInsertionOrder`). After any run a fetch of a channel without unhandled change events answers as the server would
  (`FetchAgreesWithServer`) and a channel keeps its object across evictions and reloads (`FetchReturnsSameObject`).
  A fetch through a clan's cache does so exactly when that cache holds no orphan, an object its owning clan has given
  up, or one that happens to show the server's fields (`ClanFetchAgreesExactlyWhen`). The owning clan never holds one;
  in another clan orphans come from change events, creates and deletes (`OrphansAreMadeByGivingUp`,
  `ForeignClanGoesStale`) and are served unchanged ever after (`OrphanIsServedForGood`).
* **Offsets and ids.** Code-unit search finds exactly rune matches (`MentionSpan`, `UnitMatchIsRuneMatch`). For
  every clock, ids of a run are distinct exactly when each millisecond's calls are contiguous and at most 4096
  (`UniqueExactlyWhen`).

## Where code and comments disagree

* transport.go:136-138 and 333-335 speak of three frame shapes and call a first byte above 0x7F a desync; the code reads
  such bytes as WebSocket frames (transport.go:257-261). The model follows the code.
* queue.go:8-11 says jobs run one at a time; the code starts them without waiting (queue.go:62-69). The model records
  start times only.
* helper.go:63 promises a unique id; the sequence is Or-ed in unmasked, so the 4097th call in one millisecond repeats
  the first (`RepeatedId`), and so does a clock that steps back to a millisecond it left (`ReturnRepeatsId`).
* socket.go:563-567 promises that the report of a replaced connection is a no-op, and that OnDisconnect fires once;
  socket.go:586-588 that a stale loop can never tear down a socket a reconnect has since installed. The check and the
  swap are separate steps (socket.go:569-577), so neither need be so (`StaleReportTakesDownReconnect`,
  `GenerationReportedTwice`).

## Model

| member | source | states |
|---|---|---|
| Wire.ReadOnce | transport.go:222-273 | a round either fails or uses at least one byte and no more than there are, and its payload is at most 64 MiB |
| Wire.Read | transport.go:210-218 | reading rounds until a frame or an error ends on every finite stream, within the bytes given and the payload limit |
| Wire.ReadWsLength | transport.go:285-307 | an accepted WebSocket length is within the limit and its header within the bytes given |
| WireProofs.ReadOnceInvertsPrint | transport.go:222-331 | every valid pong, chunk, abridged or WebSocket frame (all length forms, masked or not, any RSV bits), followed by anything, reads as its meaning using exactly its bytes |
| WireProofs.PrintedIsRecovered | transport.go:222-331 | a printed frame, followed by anything, is itself recovered from the bytes: header form, mask key and, of skipped frames too, payload |
| WireProofs.AcceptedIsPrinted | transport.go:222-331 | whatever a round accepts is the print of one valid frame with that meaning |
| WireProofs.CutFrameFails | transport.go:222-331 | a proper prefix of an accepted frame is an end-of-stream error |
| WireProofs.ReadOnceIgnoresSuffix | transport.go:222-331 | bytes after an accepted frame have no influence on it |
| WireProofs.ReadIgnoresSuffix | transport.go:210-218 | the same for a read over skipped control frames |
| WireProofs.CutReadFails | transport.go:210-218 | a stream that ends anywhere inside a read is an end-of-stream error |
| WireProofs.AbridgedLengthWithinLimit | transport.go:336-352 | the abridged limit test never fires: the length is at most (2^24-1)*4, below 64 MiB |
| WireProofs.MaskTwice | transport.go:318-322 | masking with the same key twice restores the payload |
| WireProofs.MaskBit | transport.go:318-322 | masking flips exactly the bits that byte i mod 4 of the key has set |
| WireProofs.CloseFrameEnds | transport.go:326-327 | a close frame in any length form, masked or not, ends the reading with the close error |
| WireProofs.OversizeIsRefused | transport.go:242-307 | a chunk or WebSocket header announcing more than 64 MiB is refused, whatever follows |
| WireProofs.DecidedIsStable | transport.go:222-331 | a frame, a skip, a close or a refusal is not changed by later bytes |
| WireProofs.EofIsUndecided | transport.go:222-331 | end of stream is never reported once 64 MiB and a header are there |
| WireProofs.SamplePong | transport.go:228-233 | the bytes 00 12 34 are the pong for cid 0x1234 |
| WireProofs.SampleChunk | transport.go:234-256 | a chunk given byte by byte: cid, code, the fin flag 0xFF and the payload |
| WireProofs.SampleAbridged | transport.go:336-352 | four padded bytes behind the one-byte abridged header |
| WireProofs.SampleExtended | transport.go:336-352 | the same behind the four-byte header |
| WireProofs.SampleHello | transport.go:278-331 | the unmasked text frame of section 5.7 of RFC 6455 |
| Streams.ReadPrinted | transport.go:210-218 | a printed frame in front of a stream is returned, or skipped without disturbing the next read |
| Streams.ControlFramesAreSkipped | transport.go:210-218 | any run of control and continuation frames is skipped: the read is that of what follows |
| Streams.MixedStreamIsReadBack | transport.go:210-352 | any list of valid frames, concatenated, is read back as exactly its meaningful frames in order, leaving every later byte unread |
| Streams.NothingTrails | transport.go:210-218 | when the last frame has a meaning, only the bytes after the list are left |
| Streams.EveryStreamIsFrames | transport.go:210-352 | every byte stream is printed frames plus a tail no round accepts, and reading it to the end returns those frames' meanings and the tail's error |
| Streams.PrintedListIsRecovered | transport.go:210-352 | a printed list of frames before a failing tail splits into exactly those frames and that tail |
| Protobuf.VarintIs64Bit | socket.go:482-485 | varints carry exactly the 64-bit values, in at most ten bytes |
| Protobuf.ValuesOfWireTypes | socket.go:482-485 | the values of each wire type: a varint, eight bytes, a length and that many bytes, four bytes, nothing for types 4, 6 and 7 |
| Protobuf.GroupIsRecords | socket.go:482-485 | a group is records up to the end tag of its own number, and another number's end tag spoils it |
| Protobuf.GroupNumbers | socket.go:482-485 | a field number 0 or beyond 31 bits spoils a group |
| Protobuf.ParsedAreValid | socket.go:482-485 | every record that parses has a field number in range and a whole value |
| Protobuf.GroupLengthIgnoresSuffix | socket.go:482-485 | a balanced group ends itself: bytes after its end tag do not change its length |
| Protobuf.ParseInvertsPrint | socket.go:486-499 | printing any list of valid records, groups included, and parsing it gives the list back |
| Protobuf.ParseConcat | socket.go:482-485 | a message followed by bytes parses exactly when those bytes do, to both record lists |
| Protobuf.PaddedIsMalformed | socket.go:482-485 | a well-formed message followed by zeros never parses |
| Abridged.EncodeFramePrints | transport.go:181-194 | the encoder's bytes are the abridged frame of the padded payload, extended from 127*4 bytes on |
| Abridged.FrameRoundTrip | transport.go:181-194 | a payload is framed and read back with its padding if and only if it is nonempty and at most 2^26-4 bytes |
| Abridged.TrimPadding | transport.go:198-208 | removes the trailing zeros, at most three |
| Abridged.TrimUndoesPadding | transport.go:198-208 | trimming undoes padding if and only if the payload is empty, ends nonzero, or had three padding bytes |
| Abridged.GuardParses | transport.go:355-361 | the guard bytes are one record: field 2047, varint 1 |
| Abridged.OutboundIsLossless | transport.go:354-365 | the written payload never ends in zero, is read and trimmed back exactly, and parses to the message's records plus at most the guard record |
| Abridged.UnmarshalEnvelope | socket.go:486-499 | the retry loop is trial decoding with at most three strips, and none on unpadded frames |
| Abridged.TrialDecodeStripsPadding | socket.go:493-497 | a decodable message followed by up to k zeros decodes to itself within k strips |
| Abridged.InboundIsExact | socket.go:486-499 | every decodable message of 1 to 2^26-4 bytes, even ending in zero, is framed, read and decoded to exactly itself |
| Abridged.PushedIsExact | socket.go:486-492 | every text or binary WebSocket frame is read whole and its payload decoded as it stands |
| Abridged.EnvelopeIsAnyStrip | socket.go:486-499 | a padded payload decodes to e if and only if some strip of at most three zeros does, an unpadded one if and only if it does itself |
| Abridged.StripsAreUnambiguous | socket.go:482-485 | at most one way of stripping zeros off any payload decodes |
| Abridged.TrialDecodeIsAnyStrip | socket.go:486-499 | trial decoding yields e if and only if some strip of at most k zeros decodes to e |
| Transport.Unmask | transport.go:318-322 | unmasks the array in place, byte i with key byte i mod 4 |
| Transport.TcpConn.ReadByte | transport.go:223-226 | returns the next byte and advances, or reports the end |
| Transport.TcpConn.ReadFull | transport.go:229-232 | returns exactly the next n bytes and advances, or drains and reports a short stream |
| Transport.TcpConn.ReadAbridgedLength | transport.go:336-352 | announces what the header says, consuming the header |
| Transport.TcpConn.ReadWsLength | transport.go:285-307 | announces length and masking of the WebSocket header, consuming it up to the key |
| Transport.TcpConn.ReadWebSocketFrame | transport.go:278-331 | yields the frame, the skip or the error the bytes determine and advances past the frame |
| Transport.TcpConn.ReadApiFrame | transport.go:234-256 | yields the chunk or the error the bytes determine and advances past it |
| Transport.TcpConn.ReadAbridgedFrame | transport.go:262-271 | yields the padded envelope or the error the bytes determine and advances past it |
| Transport.TcpConn.ReadFrameOnce | transport.go:222-273 | one round: frame, skip or error as the unread bytes determine, cursor moved by exactly the frame |
| Transport.TcpConn.ReadFrame | transport.go:210-218 | terminates with the next meaningful frame of the unread bytes, cursor just past it |
| Transport.TcpConn.WriteEnvelope | transport.go:354-365 | appends the framed, guarded payload to what was sent |
| Transport.TcpConn.WritePing | transport.go:369-373 | sends exactly the pong-shaped frame of the cid's low 16 bits |
| Transport.RawFrameAgreesWithTcp | transport.go:110-122 | a raw WebSocket message and a TCP chunk with the same header and payload parse to the same chunk |
| ApiStreams.Assemble | socket.go:516-523 | the two loops build the concatenation of the chunks |
| ApiStreams.BuffersAreSeparate | socket.go:505-512 | after any interleaving a cid is buffered exactly while unfinished, and holds exactly its own payloads since its last fin |
| ApiStreams.FinCompletesBody | socket.go:505-531 | the body at a fin is the in-order concatenation of that cid's payloads since its previous fin; its buffer is gone, no other changes |
| Correlation.RawLookupIsExact | socket.go:544-561 | inside a window of 65535 a raw lookup takes the one congruent key, or none, whatever the iteration order |
| Correlation.RoutedExactlyWhen | socket.go:544-561 | the raw reply to request k is certain to reach it if and only if k fits in 16 bits or no other pending cid shares its low bits |
| Correlation.StaleEntryStealsReply | socket.go:428-429 | an entry left behind 65536 requests ago takes the reply of the later request |
| Correlation.MatchedExactlyWhen | socket.go:547-561 | a 16-bit lookup finds a request if and only if some pending cid has those low bits |
| Correlation.CidTable.GenerateCid | socket.go:339-341 | returns the counter and advances it |
| Correlation.CidTable.ClearCid | socket.go:433-437 | removes exactly that cid |
| Correlation.CidTable.TakeCid | socket.go:533-542 | returns and removes the channel of that cid, if any |
| Correlation.CidTable.TakeRawCid | socket.go:547-561 | for every iteration order: takes and removes one key its 16 bits allow, and fails only if there is none |
| Requests.StepKeepsInv | socket.go:383-437 | every step of a sender or read loop keeps channels unshared and unsent while pending |
| Requests.AtMostOneDelivery | socket.go:383-437 | in every interleaving distinct cids hold distinct channels and no channel is sent on twice |
| Requests.ReaderNeverBlocks | socket.go:456-470 | in every interleaving the channel a read loop took has a free place, so it can send at once |
| Requests.TakesMatchReplies | socket.go:547-561 | a 16-bit reply takes only an entry with those low bits, and the entry of that very number first |
| Requests.ReplyReachesItsRequest | socket.go:467-470 | in every interleaving a taken cid yields the channel of the request that drew it, and inside a window so do its 16 bits |
| Requests.DeliveredStays | socket.go:456-470 | in every interleaving a reply sent is on its channel from then on, alone |
| Requests.WaitingSenderReceives | socket.go:414-420 | a sender waiting on a channel with a message can return, and returns that message |
| Requests.RequestGetsItsReply | socket.go:383-470 | in every interleaving, when a read loop takes a request's cid and later sends a reply, the request, while it waits, can return and returns exactly that reply |
| Requests.AnswersAreWhatWasSent | socket.go:414-420 | in every interleaving what a sender returned is the only message ever sent on its channel, and is taken out of it |
| Requests.OthersInterfere | socket.go:383-437 | whatever senders and other read loops do between two frames, no pending request changes its channel and no two share one |
| Requests.LateEnvelopesAreDropped | socket.go:411-427 | once a request times out or fails to send, no later envelope with its cid is matched with any request |
| Requests.LateRawRepliesAreDroppedExactlyWhen | socket.go:547-561 | a late 16-bit reply to such a request is matched with nobody if and only if no pending cid has the same low bits, and never with the request itself |
| Requests.AbandonedUntilTaken | socket.go:428-429 | the entry of a sender that left through done is in the table after any later steps if and only if no reply has taken it |
| Requests.AbandonedEntryStealsReply | socket.go:547-561 | a reachable run in which the entry of cid 1, left through done, is the only one that the 16-bit reply to the waiting cid 65537 can be matched with |
| EventQueue.StepKeepsInv | socket.go:305-323 | every step conserves arrivals as dispatched, queued, awaiting and lost |
| EventQueue.EventOrderIsConserved | socket.go:459-478 | in every run dispatched events are a prefix of the decodable cid-0 arrivals, the queue is at most 1024, and while the connection is up nothing is lost |
| EventQueue.RepliesAreNeverQueued | socket.go:465-472 | in every run, everything queued or dispatched came in as an envelope without a cid |
| EventQueue.LeftForGood | socket.go:313-323 | a loop that left reads or dispatches nothing more |
| EventQueue.LoopsAreNeverStuck | socket.go:473-477 | once done is closed both loops can leave at any time, and while both run an event in hand can be queued or one be dispatched |
| ReadLoop.EventsAreQueuedInOrder | socket.go:459-478 | over any frames, whatever others do, the events queued are exactly the arrivals that decode without a cid, in order |
| ReadLoop.Loop.ResolveRaw | socket.go:453-458 | sends the reply to one request the 16 bits allow, or to none if there is none |
| ReadLoop.Loop.DeliverApiChunk | socket.go:505-531 | buffers or completes the chunk's body and resolves the waiting request |
| ReadLoop.Loop.HandleEnvelope | socket.go:459-478 | undecodable envelopes are dropped, cid replies resolved, others become events unless the loop leaves through done |
| ReadLoop.Loop.HandleNext | socket.go:445-478 | one round: the next frame of the peer's bytes is handled after whatever others did to the table, or, being an event, finds done closed |
| ReadLoop.Loop.Run | socket.go:439-480 | whatever others do to the table between frames, handles exactly the frames of the peer's bytes, in order, up to the stream's own error or an event at which it leaves through done; the events queued are those among them, in order |
| Replies.OtherFramesKeepPending | socket.go:439-480 | a frame that does not answer request k leaves it pending and unsent, and adds to its buffer only its own chunk |
| Replies.PendingThroughout | socket.go:439-480 | the same over any list of frames, whatever other senders register and clear in between |
| Replies.ChunkedReplyReachesRequest | socket.go:505-531 | among any other senders the request's channel receives, at its fin and not before, the code and the concatenation of all chunks buffered under its 16 bits |
| Replies.PongReachesPing | socket.go:453-458 | among any other senders the pong with a ping's 16 bits is sent on that ping's channel and no earlier delivery was |
| Replies.DecodedReplyReachesRequest | socket.go:459-471 | among any other senders any envelope frame that decodes with cid k is sent on k's channel, once, and k leaves the table |
| Replies.EnvelopeReachesRequest | socket.go:459-471 | among any other senders a padded envelope reply is decoded by trial and sent on the channel of the request with its cid |
| Replies.PushedReplyReachesRequest | socket.go:459-471 | the same for an envelope in an unpadded WebSocket frame, decoded as it stands |
| Replies.PrintedStreamReadsAll | transport.go:210-352 | reading a printed list of frames to the end gives its meanings and then end of stream |
| Replies.BytesToWaitingRequest | socket.go:439-531 | from bytes to channel, among any other senders: any valid frames that do not answer k, then its fin chunk, deliver exactly the whole body to k's channel, once |
| Lifecycle.StepKeepsInv | socket.go:273-337 | each whole operation keeps the generation invariant |
| Lifecycle.LifecycleIsSafe | socket.go:273-337 | in every run of whole operations: the current done is open while connected and closed while not, all earlier ones are closed; OnDisconnect fires at most once per generation and never after Close tore it down |
| Lifecycle.ReportsOfClosedAreIgnored | socket.go:563-574 | from any coherent state, leaving out all reports of torn-down generations changes no run |
| Lifecycle.StaleReportsChangeNothing | socket.go:563-574 | after any run, every later run ends as it would without the reports of generations torn down or replaced by then |
| Lifecycle.Socket.Connect | socket.go:273-310 | no-op when connected or when dialing fails, else a new connected generation |
| Lifecycle.Socket.Close | socket.go:326-337 | disconnects and closes the current generation's done without notifying |
| Lifecycle.Socket.MarkDisconnected | socket.go:568-584 | notifies exactly for the current, still connected generation |
| Races.StepKeepsInv | socket.go:273-337 | every fine-grained step keeps the ticket, close-once, aim, generation and report invariants |
| Races.InterleavingsAreSafe | socket.go:568-584 | in every interleaving OnDisconnect calls never exceed Connects that set the flag, and every done closes at most once |
| Races.SwapHitsAnotherExactlyWhen | socket.go:569-577 | in every interleaving a report's swap clears the flag of a generation not its own if and only if the flag is up and a Connect published since the report's check |
| Races.CloseHitsOlderExactlyWhen | socket.go:327-333 | in every interleaving the generation a Close tears down existed when it cleared the flag if and only if no Connect published in between |
| Races.PromiseHoldsExactlyWhen | socket.go:273-337 | each of the five promises holds throughout a run if and only if no step meets that promise's guard: a publish over an open done, a flag raised over a closed one or a close under a raised one, a stale swap nobody makes up for, a swap for a generation already reported, a report whose done Close closed |
| Races.PromisesAreSafety | socket.go:273-337 | with nothing under way the five promises together are exactly the safety of the whole-operation machine |
| Races.EveryPromiseFails | socket.go:273-337 | each promise fails after some run that ends with every operation finished |
| Races.ConnectLeavesEarlierOpen | socket.go:274-297 | a concrete interleaving of two Connects alone that ends connected with the first generation's done never closed |
| Races.GenerationReportedTwice | socket.go:568-584 | a concrete interleaving of two Connects and two reports in which OnDisconnect is called twice for one generation |
| Races.CloseTakesDownReconnect | socket.go:326-337 | a concrete interleaving of one Close and one Connect that ends connected with the current done closed |
| Races.StaleReportTakesDownReconnect | socket.go:568-584 | a concrete interleaving in which a stale report takes down a reconnected socket, leaves its done open and notifies for a generation Close tore down |
| Races.OperationsRefine | socket.go:273-337 | an operation nothing interrupts does exactly what the whole-operation machine says |
| Throttle.SpacedIsRateLimited | queue.go:35-73 | starts spaced a second apart max places apart put at most max into any half-open second |
| Throttle.StartKeepsInv | queue.go:50-61 | starting a job below the cap keeps all recorded starts spaced |
| Throttle.FilterKeepsInv | queue.go:40-48 | re-filtering the kept slice equals filtering the whole log |
| Throttle.EveryRunIsRateLimited | queue.go:35-73 | with a non-decreasing clock, however jobs arrive and sleeps behave, no half-open second has more than max starts and the slice never exceeds max |
| Throttle.Compact | queue.go:42-48 | the in-place loop equals the order-preserving filter of the entries younger than a second |
| Throttle.ThrottleQueue.constructor | queue.go:23-33 | an empty queue with the given maximum, or 80 when it is not positive |
| Throttle.ThrottleQueue.CompactNow | queue.go:41-48 | reads the clock and filters the slice at that time |
| Throttle.ThrottleQueue.Append | queue.go:61-61 | appends the start time to slice and log, keeping the rate invariant |
| Throttle.ThrottleQueue.StartJob | queue.go:39-61 | records exactly one start, sleeping 10 ms exactly as often as it finds the starts younger than a second at the maximum, which is at most 100 times |
| Throttle.ThrottleQueue.RunJobs | queue.go:35-73 | over any number of jobs the recorded starts respect the rate in every half-open second |
| OrderedCache.PutGet | cache.go:35-47 | a set changes its own key and at most forgets the oldest one of a full cache |
| OrderedCache.PutSize | cache.go:35-47 | a set adds one entry unless its key is there or the maximum is reached |
| OrderedCache.DropGet | cache.go:67-81 | a delete removes its own key and nothing else |
| OrderedCache.HistoryIsBounded | cache.go:35-47 | over every history keys are distinct and a positive maximum is respected |
| OrderedCache.CachedIsLastWrite | cache.go:27-47 | over every history a cached value is the last one written, and unbounded caches miss none |
| OrderedCache.NothingIsEvictedEarly | cache.go:38-43 | while a history has set no more keys than the maximum, every last write is cached |
| OrderedCache.HistoryIsInInsertionOrder | cache.go:35-47 | over every history entries stand in order of insertion, so the evicted first one is the earliest surviving insertion |
| CacheManager.CacheManager.constructor | cache.go:18-24 | an empty cache |
| CacheManager.CacheManager.Get | cache.go:27-32 | answers as the list lookup |
| CacheManager.CacheManager.Set | cache.go:35-47 | performs the list put: overwrite in place, or append after evicting the oldest |
| CacheManager.CacheManager.Fetch | cache.go:50-64 | a hit changes nothing; a successful load is put; a failed or missing fetcher changes nothing |
| CacheManager.CacheManager.Delete | cache.go:67-81 | performs the list drop and reports whether the key was there |
| CacheManager.CacheManager.Values | cache.go:84-92 | the list's values in order |
| CacheManager.CacheManager.Size | cache.go:95-99 | the list's length |
| ChannelTiers.UpsertReuses | sharedcache.go:156-170 | in any state an upsert works on the clan's object, else the client's, else a new one, and leaves it showing the description |
| ChannelTiers.UpsertEffect | sharedcache.go:150-170 | an upsert returns the object already cached, or a new one of the owning clan, with each described field, in both caches, and touches no other channel |
| ChannelTiers.ForgetEffect | client_internal.go:23-44 | a change handler removes the channel from every tier and touches no other |
| ChannelTiers.RemoveEffect | clan.go:154-161 | a clan delete removes the channel from both caches, leaves the store and touches no other |
| ChannelTiers.CreateEffect | clan.go:147-150 | a create registers a new object with each described field in both caches and touches no other channel |
| ChannelTiers.ListedIsFilter | clan.go:78-83 | of a listing exactly the entries with an id are merged, in order |
| ChannelWorld.FetchEffect | sharedcache.go:88-111 | a fetch returns the owning clan's object, touches no other channel and, where the tiers agreed, answers as the server |
| ChannelWorld.FetchLoads | sharedcache.go:88-111 | a hit changes nothing; a miss shows the store's description, else the server's, which it puts into the store; otherwise nothing is found and nothing changes |
| ChannelWorld.ZeroIdIsNotFound | sharedcache.go:102-106 | a description without an id counts as not found and changes nothing |
| ChannelWorld.FetchInClanEffect | clan.go:43-45 | a clan fetch returns that clan's entry, else the client's object, remembers it, and without an orphan in the way answers as the server where the tiers agreed |
| ChannelWorld.ReloadEffect | clan.go:73-86 | merging a listing keeps every object and every agreement |
| ChannelWorld.ReloadShows | clan.go:73-86 | after merging a listing every channel listed is in its clan's cache showing its description |
| ChannelWorld.ReloadKeepsOthers | clan.go:73-86 | and neither the store nor any channel not listed has changed |
| ChannelWorld.StepKeepsInv | client_internal.go:23-44 | every step, the server's included, keeps channels without pending events in agreement with the server |
| ChannelWorld.StepKeepsObject | sharedcache.go:150-170 | every step but handling its event, creating or deleting it keeps a channel's object |
| ChannelWorld.FetchAgreesWithServer | sharedcache.go:85-111 | after any run, fetching a channel without pending events succeeds exactly when the server has it, showing each of the server's fields |
| ChannelWorld.ClientIsBounded | client.go:126-147 | after any run the client cache is within its maximum, which never changes |
| ChannelWorld.FetchReturnsSameObject | sharedcache.go:150-170 | until given up, every later successful fetch returns the same object despite eviction and reload, and the client cache holds no other |
| ChannelWorld.ClanFetchAgreesExactlyWhen | clan.go:43-45 | after any run, a fetch through any clan of a channel without pending events answers as the server if and only if that clan holds no orphan of it or one showing the server's fields; the owning clan holds none |
| ChannelWorld.OrphansAreMadeByGivingUp | client_internal.go:23-44 | the owning clan's object in another clan's cache becomes an orphan at a step if and only if the step handles the channel's event, creates or deletes it |
| ChannelWorld.OrphanIsServedForGood | clan.go:43-45 | over every later run a clan with an orphan serves that same object with the same fields |
| ChannelWorld.HandlerClearsExactlyOwner | client_internal.go:28-30 | a handler clears a clan's cache of the channel if and only if that clan owns it or never had it |
| ChannelWorld.ForeignClanGoesStale | clan.go:43-45 | a channel fetched through another clan's cache stays there with old fields after its update was handled |
| ChannelClient.TextChannel.constructor | channel.go:38-51 | a new channel shows its description field by field, and its clan |
| ChannelClient.TextChannel.UpdateFromDesc | channel.go:57-65 | overwrites exactly the described fields in place, each with its own value |
| ChannelClient.Client.constructor | client.go:126-147 | empty tiers with the configured bound, 5000 by default |
| ChannelClient.Client.UpsertChannel | sharedcache.go:156-170 | updates the cached object in place or creates one, and registers it in both caches |
| ChannelClient.Client.FetchChannel | sharedcache.go:88-111 | loads from the store, else from the server (filling the store), and upserts; fails without change |
| ChannelClient.Client.Fetch | cache.go:50-64 | the client cache's fetch with its re-entrant loader: the object and state the model gives, a new object only where none is cached |
| ChannelClient.Client.FetchInClan | clan.go:43-45 | the clan cache's fetch through the client's: the clan's object, else the client's, and none exactly when both miss and nothing loads |
| ChannelClient.Client.OnChannelChanged | client_internal.go:23-44 | drops the channel from client cache, store and the event's clan |
| ChannelClient.Client.ReloadChannels | clan.go:73-86 | upserts the nonzero entries of a listing in order and marks the clan loaded |
| ChannelClient.Client.CreateChannel | clan.go:147-150 | registers a new object in both caches |
| ChannelClient.Client.DeleteChannel | clan.go:158-159 | drops the channel from both caches, leaving the store |
| Utf16.Utf16Len | utf16.go:15-25 | the number of code units of the text's UTF-16 encoding |
| Utf16.EncodeText | utf16.go:28-30 | the text's UTF-16 code units |
| Utf16.DecodeInvertsEncode | utf16.go:28-30 | decoding the code units by section 2.2 of RFC 2781 gives the runes back |
| Utf16.RuneIndexToUtf16 | utf16.go:34-49 | the code-unit offset of the rune index, clamped to the text |
| Utf16.BoundaryOrLow | utf16.go:15-30 | every code-unit index is a rune's offset or holds a second surrogate |
| Utf16.EncodedPrefix | utf16.go:28-30 | equal encoded prefixes come from equal rune prefixes |
| Utf16.UnitMatchIsRuneMatch | utf16.go:56-75 | a code-unit match of nonempty text begins at a rune boundary and is a rune match there |
| Utf16.RuneMatchIsUnitMatch | utf16.go:56-75 | a rune match is a code-unit match at its offset |
| Utf16.MatchesAt | utf16.go:62-70 | the inner loop decides whether the units stand at an index |
| Utf16.MentionSpan | utf16.go:51-75 | succeeds if and only if the nonempty text occurs as runes; start is the offset of the first occurrence, end is start plus its length |
| Snowflake.Generator.Generate | helper.go:64-79 | the next state and the packed id of that millisecond and sequence |
| Snowflake.IdValue | helper.go:75-77 | below 4096 the fields do not overlap and the id is a nonnegative 64-bit value |
| Snowflake.IdWrapsAround | helper.go:75-77 | at sequence 4096 the id of sequence 0 comes back |
| Snowflake.SequenceCounts | helper.go:68-74 | for every clock the sequence counts the calls since the clock arrived at its reading |
| Snowflake.IdsIncrease | helper.go:64-79 | with at most 4096 calls per millisecond the ids of a run strictly increase |
| Snowflake.ReturnRepeatsId | helper.go:68-74 | a clock that comes back to a millisecond it left repeats an id |
| Snowflake.RepeatedId | helper.go:64-79 | a 4097th call in one unbroken millisecond repeats that millisecond's first id |
| Snowflake.ContiguousIdsDiffer | helper.go:64-79 | calls of contiguous milliseconds of at most 4096 calls get different ids, in whatever order the milliseconds come |
| Snowflake.UniqueExactlyWhen | helper.go:63-79 | for every clock, ids of a run are pairwise distinct if and only if each millisecond's calls are contiguous and at most 4096 |
| Snowflake.UniqueExactlyUnderBound | helper.go:63-79 | with a non-decreasing clock: if and only if no millisecond sees more than 4096 calls |
| Snowflake.ClockStepBackCollides | helper.go:68-74 | a clock that steps back one millisecond repeats an id after two calls |

## Left out

- Dialing, TLS, HTTP, gorilla websocket, Redis and SQLite: I/O over libraries; the server and the shared store are maps, the peer a byte string.
- Typed protobuf fields: typed decoding is any partial function that succeeds only on bytes the record layer parses, balanced groups in unknown fields included.
- Protobuf.ParseInvertsPrint: printed tags are minimal varints; longer encodings of the same tag parse but are not printed.
- Abridged framing of an empty payload: its header is the pong prefix, which `Abridged.FrameRoundTrip` states as the failing case.
- Correlation.CidTable.GenerateCid: does not model 32-bit wrap-around of the cid counter.
- Correlation.CidTable.TakeRawCid: the runtime's map iteration order is a parameter, any sequence of the keys.
- Requests.AtMostOneDelivery: drawing a cid and making its channel is one step; registering, taking and sending are separate steps.
- ReadLoop.Loop.Run: `events` records everything ever queued, so waiting for a place in the queue is not modelled there; `EventQueue` models the bound. What others do to the table and when done is found closed are parameters.
- Lifecycle.LifecycleIsSafe: Connect, Close and markDisconnected are single steps; `Races` has the interleavings.
- CacheManager.CacheManager.Fetch: the fetcher is a pure function; the client's re-entrant fetcher is `ChannelClient.Client.Fetch`.
- ChannelWorld.FetchAgreesWithServer: each fetch and handler is one step, so a load racing a handler between its read and its set (cache.go:58-62) is not covered; store operations do not fail; a peer process stores only current descriptions.
- ChannelClient.Client.FetchChannel: the missing-session error and undecodable store entries are not modelled.
- ChannelClient.Client.CreateChannel: request validation and the REST call are not modelled; the server's answer is the description.
- Throttle.ThrottleQueue.StartJob: the wait bound takes each sleep to last at least the 10 ms asked; the rate theorem `Throttle.EveryRunIsRateLimited` does not.
- Snowflake.Generator.Generate: times before the epoch or 2^41 ms after it are excluded; the decimal string is the number.
- Go's UTF-8 decoding: texts are sequences of runes, which ranging over any Go string yields.
- The user cache, message caches, DM discovery, JSON and JWT, event dispatch tables, mode conversions, message writing and reconnect back-off: field copying, finite tables or easy loops.
