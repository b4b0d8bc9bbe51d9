/**
 The inbound TCP byte stream: what one wire frame looks like (`Item`, `Print`) and
 what the reader makes of the bytes in front of it (`ReadOnce`, `Read`).  One stream
 mixes pongs, API-response chunks, abridged frames and WebSocket frames, told apart
 by the first byte.
 */
module Wire {
  import opened Wrappers
  import opened Bytes

  const PONG_PREFIX: Byte := 0x00
  const RAW_PREFIX: Byte := 0xff
  const EXTENDED_PREFIX: Byte := 0x7f
  const RAW_FIN: nat := 0xff
  const MAX_FRAME: nat := 0x400_0000   // 64 MiB
  const MAX_ABRIDGED: nat := 0x3FF_FFFC // (2^24 - 1) * 4

  /** One inbound message as the read loop sees it. */
  datatype WireFrame =
    | Envelope(payload: seq<Byte>, padded: bool)
    | ApiChunk(cid: nat, code: nat, fin: bool, payload: seq<Byte>)
    | Pong(cid: nat)

  datatype ReadError = Eof | TooLong | CloseFrame | BadPrefix

  /** One round of the reader: a frame, a skipped control frame, or an error. */
  datatype Once =
    | Frame(frame: WireFrame, used: nat)
    | Skipped(used: nat)
    | Failed(error: ReadError)

  /** Outcome of a whole read: the next frame and the bytes used to get to it. */
  datatype ReadResult =
    | Got(frame: WireFrame, used: nat)
    | Broken(error: ReadError)

  // ------------------------------------------------------------------ the reader

  function ReadOnce(b: seq<Byte>): (r: Once)
    ensures !r.Failed? ==> 1 <= r.used <= |b|
    ensures r.Frame? && !r.frame.Pong? ==> |r.frame.payload| <= MAX_FRAME
  {
    if b == [] then Failed(Eof)
    else if b[0] == PONG_PREFIX then
      if |b| < 3 then Failed(Eof) else Frame(Pong(FromBE(b[1..3])), 3)
    else if b[0] == RAW_PREFIX then ReadApiChunk(b)
    else if b[0] >= 0x80 then ReadWebSocket(b)
    else ReadAbridged(b)
  }

  function ReadApiChunk(b: seq<Byte>): (r: Once)
    requires b != []
    ensures !r.Failed? ==> 1 <= r.used <= |b|
    ensures r.Frame? ==> r.frame.ApiChunk? && |r.frame.payload| <= MAX_FRAME
    ensures !r.Skipped?
  {
    if |b| < 11 then Failed(Eof)
    else
      var code := FromBE(b[3..7]);
      var len := FromBE(b[7..11]);
      if len > MAX_FRAME then Failed(TooLong)
      else if |b| < 11 + len then Failed(Eof)
      else
        Frame(ApiChunk(FromBE(b[1..3]), code / 0x1_0000 % 0x1_0000, code % 0x1_0000 == RAW_FIN, b[11..11 + len]),
              11 + len)
  }

  /** The payload length a frame header announces; `used` counts the header bytes. */
  datatype Announced = Length(len: nat, used: nat) | BadLength(error: ReadError)

  function ReadAbridgedLength(b: seq<Byte>): (r: Announced)
    requires b != []
    ensures r.Length? ==> 1 <= r.used <= |b|
  {
    if b[0] < EXTENDED_PREFIX then Length((b[0] as nat) * 4, 1)
    else if b[0] != EXTENDED_PREFIX then BadLength(BadPrefix)
    else if |b| < 4 then BadLength(Eof)
    else
      var n := FromLE(b[1..4]);
      if n * 4 > MAX_FRAME then BadLength(TooLong) else Length(n * 4, 4)
  }

  function ReadAbridged(b: seq<Byte>): (r: Once)
    requires b != []
    ensures !r.Failed? ==> 1 <= r.used <= |b|
    ensures r.Frame? ==> r.frame.Envelope? && |r.frame.payload| <= MAX_FRAME
    ensures !r.Skipped?
  {
    match ReadAbridgedLength(b)
    case BadLength(e) => Failed(e)
    case Length(len, used) =>
      if |b| < used + len then Failed(Eof)
      else Frame(Envelope(b[used..used + len], true), used + len)
  }

  /** Bytes of extended length after the two-byte WebSocket header. */
  function ExtendedBytes(len7: nat): (n: nat)
    ensures n == 0 || n == 2 || n == 8
  {
    if len7 == 126 then 2 else if len7 == 127 then 8 else 0
  }

  /** Masking of section 5.3 of RFC 6455: byte i is combined with key byte i mod 4. */
  function Mask(p: seq<Byte>, key: seq<Byte>): (m: seq<Byte>)
    requires |key| == 4
    ensures |m| == |p|
  {
    seq(|p|, i requires 0 <= i < |p| => XorByte(p[i], key[i % 4]))
  }

  /** The length a WebSocket header announces; `used` stops before the masking key. */
  function ReadWsLength(b: seq<Byte>): (r: Announced)
    ensures r.Length? ==> 2 <= r.used <= |b| && r.len <= MAX_FRAME
  {
    if |b| < 2 then BadLength(Eof)
    else
      var ext := ExtendedBytes(b[1] % 128);
      if |b| < 2 + ext then BadLength(Eof)
      else
        var len := if ext == 0 then b[1] % 128 else FromBE(b[2..2 + ext]);
        if len > MAX_FRAME then BadLength(TooLong) else Length(len, 2 + ext)
  }

  /** Undo the masking when the frame carries a key. */
  function Unmasked(key: seq<Byte>, raw: seq<Byte>): (p: seq<Byte>)
    requires |key| == 0 || |key| == 4
    ensures |p| == |raw|
  {
    if |key| == 4 then Mask(raw, key) else raw
  }

  function ReadWebSocket(b: seq<Byte>): (r: Once)
    requires b != []
    ensures !r.Failed? ==> 1 <= r.used <= |b|
    ensures r.Frame? ==> r.frame.Envelope? && |r.frame.payload| <= MAX_FRAME
  {
    match ReadWsLength(b)
    case BadLength(e) => Failed(e)
    case Length(len, used) =>
      var body := used + (if b[1] >= 128 then 4 else 0);
      if |b| < body + len then Failed(Eof)
      else
        var payload := Unmasked(b[used..body], b[body..body + len]);
        if b[0] % 16 == 1 || b[0] % 16 == 2 then Frame(Envelope(payload, false), body + len)
        else if b[0] % 16 == 8 then Failed(CloseFrame)
        else Skipped(body + len)
  }

  /** Read rounds until one yields a frame or an error. */
  function Read(b: seq<Byte>): (r: ReadResult)
    ensures r.Got? ==> 1 <= r.used <= |b|
    ensures r.Got? && !r.frame.Pong? ==> |r.frame.payload| <= MAX_FRAME
    decreases |b|
  {
    match ReadOnce(b)
    case Failed(e) => Broken(e)
    case Frame(f, used) => Got(f, used)
    case Skipped(used) =>
      match Read(b[used..])
      case Broken(e) => Broken(e)
      case Got(f, more) => Got(f, used + more)
  }

  // ---------------------------------------------------------------- the printers

  datatype LengthForm = Short | Medium | Long

  /**
   One frame as the peer may put it on the wire.  An abridged payload is listed with
   its padding; `extended` selects the 0x7F header.  A WebSocket frame keeps its whole
   first byte (FIN, RSV bits and opcode), its length form and its masking key.
   */
  datatype Item =
    | PongItem(cid: nat)
    | ApiItem(cid: nat, code: nat, finFlag: nat, payload: seq<Byte>)
    | AbridgedItem(padded: seq<Byte>, extended: bool)
    | WsItem(first: Byte, form: LengthForm, key: Option<seq<Byte>>, payload: seq<Byte>)

  predicate FormFits(form: LengthForm, len: nat) {
    match form
    case Short => len < 126
    case Medium => len < 0x1_0000
    case Long => len <= MAX_FRAME
  }

  predicate ValidItem(it: Item) {
    match it
    case PongItem(cid) => cid < 0x1_0000
    case ApiItem(cid, code, finFlag, p) =>
      cid < 0x1_0000 && code < 0x1_0000 && finFlag < 0x1_0000 && |p| <= MAX_FRAME
    case AbridgedItem(p, extended) =>
      |p| % 4 == 0 && |p| <= MAX_ABRIDGED && (!extended ==> 0 < |p| < 127 * 4)
    case WsItem(first, form, key, p) =>
      && 0x80 <= first < 0xff && first % 16 != 8
      && FormFits(form, |p|) && |p| <= MAX_FRAME
      && (key.Some? ==> |key.value| == 4)
  }

  function WsHeader(form: LengthForm, masked: bool, len: nat): (h: seq<Byte>)
    requires FormFits(form, len)
  {
    var m := if masked then 128 else 0;
    match form
    case Short => [m + len]
    case Medium => [m + 126] + ToBE(len, 2)
    case Long => [m + 127] + ToBE(len, 8)
  }

  function WsBody(key: Option<seq<Byte>>, p: seq<Byte>): (s: seq<Byte>)
    requires key.Some? ==> |key.value| == 4
    ensures |s| == (if key.Some? then 4 else 0) + |p|
  {
    if key.Some? then key.value + Mask(p, key.value) else p
  }

  function Print(it: Item): (s: seq<Byte>)
    requires ValidItem(it)
    ensures |s| >= 1
  {
    match it
    case PongItem(cid) => [PONG_PREFIX] + ToBE(cid, 2)
    case ApiItem(cid, code, finFlag, p) =>
      [RAW_PREFIX] + ToBE(cid, 2) + ToBE(code * 0x1_0000 + finFlag, 4) + ToBE(|p|, 4) + p
    case AbridgedItem(p, extended) =>
      (if extended then [EXTENDED_PREFIX] + ToLE(|p| / 4, 3) else [|p| / 4]) + p
    case WsItem(first, form, key, p) =>
      [first] + WsHeader(form, key.Some?, |p|) + WsBody(key, p)
  }

  /** What the read loop should get for a frame: nothing for control and continuation frames. */
  function Meaning(it: Item): (f: Option<WireFrame>)
  {
    match it
    case PongItem(cid) => Some(Pong(cid))
    case ApiItem(cid, code, finFlag, p) => Some(ApiChunk(cid, code, finFlag == RAW_FIN, p))
    case AbridgedItem(p, _) => Some(Envelope(p, true))
    case WsItem(first, _, _, p) =>
      if first % 16 == 1 || first % 16 == 2 then Some(Envelope(p, false)) else None
  }

  function Outcome(it: Item): (r: Once)
    requires ValidItem(it)
  {
    var n := |Print(it)|;
    match Meaning(it) case Some(f) => Frame(f, n) case None => Skipped(n)
  }

  function PrintAll(items: seq<Item>): (s: seq<Byte>)
    requires forall it :: it in items ==> ValidItem(it)
  {
    if items == [] then [] else Print(items[0]) + PrintAll(items[1..])
  }
}
