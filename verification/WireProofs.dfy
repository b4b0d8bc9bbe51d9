/**
 The reader and the printers are inverse to each other: every printed frame is read
 back, every accepted byte string is a printed frame, and a frame's bytes announce
 their own end.
 */
module WireProofs {
  import opened Wrappers
  import opened Bits
  import opened Bytes
  import opened Wire

  // ------------------------------------------------------------------- masking

  lemma MaskTwice(p: seq<Byte>, key: seq<Byte>)
    requires |key| == 4
    ensures Mask(Mask(p, key), key) == p
  {
    forall i | 0 <= i < |p|
      ensures Mask(Mask(p, key), key)[i] == p[i]
    {
      XorTwice(p[i], key[i % 4]);
    }
  }

  /** Section 5.3 of RFC 6455: bit j of byte i is flipped exactly where key byte i mod 4 has it set. */
  lemma MaskBit(p: seq<Byte>, key: seq<Byte>, i: nat, j: nat)
    requires |key| == 4 && i < |p|
    ensures Bit(Mask(p, key)[i], j) <==> Bit(p[i], j) != Bit(key[i % 4], j)
  {
    XorBit(p[i], key[i % 4], j);
  }

  // --------------------------------------------------- printed frames are read back

  lemma PongIsRead(cid: nat, rest: seq<Byte>)
    requires cid < 0x1_0000
    ensures ReadOnce(Print(PongItem(cid)) + rest) == Frame(Pong(cid), 3)
  {
    hide Bytes.ToBE, Bytes.FromBE, Bytes.ToLE, Bytes.FromLE, Bytes.Pow256;
    var b := Print(PongItem(cid)) + rest;
    Pow256Values();
    BEDecodesEncoded(cid, 2);
    assert b[1..3] == ToBE(cid, 2);
  }

  lemma ApiChunkIsRead(it: Item, rest: seq<Byte>)
    requires it.ApiItem? && ValidItem(it)
    ensures ReadApiChunk(Print(it) + rest) == Outcome(it)
  {
    hide Bytes.ToBE, Bytes.FromBE, Bytes.ToLE, Bytes.FromLE, Bytes.Pow256;
    var b := Print(it) + rest;
    var code := it.code * 0x1_0000 + it.finFlag;
    Pow256Values();
    BEDecodesEncoded(it.cid, 2);
    BEDecodesEncoded(code, 4);
    BEDecodesEncoded(|it.payload|, 4);
    assert b[1..3] == ToBE(it.cid, 2);
    assert b[3..7] == ToBE(code, 4);
    assert b[7..11] == ToBE(|it.payload|, 4);
    assert b[11..11 + |it.payload|] == it.payload;
  }

  lemma AbridgedIsRead(it: Item, rest: seq<Byte>)
    requires it.AbridgedItem? && ValidItem(it)
    ensures ReadAbridged(Print(it) + rest) == Outcome(it)
  {
    hide Bytes.ToBE, Bytes.FromBE, Bytes.ToLE, Bytes.FromLE, Bytes.Pow256;
    var b := Print(it) + rest;
    var p := it.padded;
    if it.extended {
      Pow256Values();
      LEDecodesEncoded(|p| / 4, 3);
      assert b[1..4] == ToLE(|p| / 4, 3);
      assert b[4..4 + |p|] == p;
    } else {
      assert b[0] == |p| / 4;
      assert b[1..1 + |p|] == p;
    }
  }

  lemma WsLengthIsRead(first: Byte, form: LengthForm, masked: bool, len: nat, rest: seq<Byte>)
    requires FormFits(form, len) && len <= MAX_FRAME
    ensures var head := WsHeader(form, masked, len);
            ReadWsLength([first] + head + rest) == Length(len, 1 + |head|)
  {
    hide Bytes.ToBE, Bytes.FromBE, Bytes.ToLE, Bytes.FromLE, Bytes.Pow256;
    var head := WsHeader(form, masked, len);
    var b := [first] + head + rest;
    assert b[1] == head[0];
    assert b[2..1 + |head|] == head[1..];
    Pow256Values();
    match form
    case Short =>
    case Medium => BEDecodesEncoded(len, 2);
    case Long => BEDecodesEncoded(len, 8);
  }

  lemma WsBodyIsRead(b: seq<Byte>, used: nat, key: Option<seq<Byte>>, p: seq<Byte>)
    requires ReadWsLength(b) == Length(|p|, used) && (b[1] >= 128 <==> key.Some?)
    requires key.Some? ==> |key.value| == 4
    requires var s := WsBody(key, p); used + |s| <= |b| && b[used..used + |s|] == s
    ensures ReadWebSocket(b) == (
              var n := used + |WsBody(key, p)|;
              if b[0] % 16 == 1 || b[0] % 16 == 2 then Frame(Envelope(p, false), n)
              else if b[0] % 16 == 8 then Failed(CloseFrame)
              else Skipped(n))
  {
    hide Wire.ReadWsLength, Wire.Unmasked, Wire.WsBody;
    var s := WsBody(key, p);
    var k := |s| - |p|;
    BodyIsUnmasked(key, p);
    assert b[used..used + k] == s[..k];
    assert b[used + k..used + |s|] == s[k..];
  }

  lemma PrintedWsParts(first: Byte, head: seq<Byte>, body: seq<Byte>, rest: seq<Byte>)
    requires |head| >= 1
    ensures var b := [first] + head + body + rest;
            && b == [first] + head + (body + rest)
            && b[0] == first && b[1] == head[0]
            && b[1 + |head|..1 + |head| + |body|] == body
  {
  }

  lemma WebSocketIsRead(it: Item, rest: seq<Byte>)
    requires it.WsItem? && ValidItem(it)
    ensures ReadWebSocket(Print(it) + rest) == Outcome(it)
  {
    hide Wire.ReadWsLength, Wire.ReadWebSocket, Wire.WsBody;
    var n := |it.payload|;
    var head := WsHeader(it.form, it.key.Some?, n);
    var body := WsBody(it.key, it.payload);
    PrintedWsParts(it.first, head, body, rest);
    WsLengthIsRead(it.first, it.form, it.key.Some?, n, body + rest);
    WsBodyIsRead(Print(it) + rest, 1 + |head|, it.key, it.payload);
  }

  lemma BodyIsUnmasked(key: Option<seq<Byte>>, p: seq<Byte>)
    requires key.Some? ==> |key.value| == 4
    ensures var s := WsBody(key, p);
            var k := |s| - |p|;
            Unmasked(s[..k], s[k..]) == p
  {
    if key.Some? {
      MaskTwice(p, key.value);
      assert WsBody(key, p)[..4] == key.value;
      assert WsBody(key, p)[4..] == Mask(p, key.value);
    } else {
      assert WsBody(key, p)[0..] == p;
    }
  }

  /** Reading a printed frame, whatever follows it, yields its meaning and uses exactly its bytes. */
  lemma ReadOnceInvertsPrint(it: Item, rest: seq<Byte>)
    requires ValidItem(it)
    ensures ReadOnce(Print(it) + rest) == Outcome(it)
  {
    assert (Print(it) + rest)[0] == Print(it)[0];
    match it
    case PongItem(cid) => PongIsRead(cid, rest);
    case ApiItem(_, _, _, _) => ApiChunkIsRead(it, rest);
    case AbridgedItem(_, _) => AbridgedIsRead(it, rest);
    case WsItem(_, _, _, _) => WebSocketIsRead(it, rest);
  }

  // ------------------------------------------------ accepted bytes are printed frames

  /** The frame standing at the front of accepted bytes. */
  ghost function ItemAt(b: seq<Byte>): (it: Item)
    requires !ReadOnce(b).Failed?
  {
    if b[0] == PONG_PREFIX then PongItem(FromBE(b[1..3]))
    else if b[0] == RAW_PREFIX then ApiChunkAt(b)
    else if b[0] >= 0x80 then WebSocketAt(b)
    else AbridgedAt(b)
  }

  ghost function ApiChunkAt(b: seq<Byte>): (it: Item)
    requires b != [] && ReadApiChunk(b).Frame?
  {
    var code := FromBE(b[3..7]);
    ApiItem(FromBE(b[1..3]), code / 0x1_0000 % 0x1_0000, code % 0x1_0000, b[11..ReadApiChunk(b).used])
  }

  ghost function AbridgedAt(b: seq<Byte>): (it: Item)
    requires b != [] && ReadAbridged(b).Frame?
  {
    AbridgedItem(ReadAbridged(b).frame.payload, b[0] == EXTENDED_PREFIX)
  }

  ghost function WsForm(len7: nat): (f: LengthForm) {
    if len7 == 126 then Medium else if len7 == 127 then Long else Short
  }

  ghost function WebSocketAt(b: seq<Byte>): (it: Item)
    requires b != [] && !ReadWebSocket(b).Failed?
  {
    var n := ReadWebSocket(b).used;
    var used := ReadWsLength(b).used;
    if b[1] >= 128 then
      var key := b[used..used + 4];
      WsItem(b[0], WsForm(b[1] % 128), Some(key), Mask(b[used + 4..n], key))
    else WsItem(b[0], WsForm(b[1] % 128), None, b[used..n])
  }

  lemma PongIsPrinted(b: seq<Byte>)
    requires !ReadOnce(b).Failed? && b[0] == PONG_PREFIX
    ensures ValidItem(ItemAt(b)) && b[..ReadOnce(b).used] == Print(ItemAt(b))
  {
    hide Bytes.ToBE, Bytes.FromBE, Bytes.ToLE, Bytes.FromLE, Bytes.Pow256;
    Pow256Values();
    BEEncodesDecoded(b[1..3]);
  }

  lemma ApiChunkIsPrinted(b: seq<Byte>)
    requires b != [] && ReadApiChunk(b).Frame? && b[0] == RAW_PREFIX
    ensures ValidItem(ApiChunkAt(b)) && b[..ReadApiChunk(b).used] == Print(ApiChunkAt(b))
  {
    hide Bytes.ToBE, Bytes.FromBE, Bytes.ToLE, Bytes.FromLE, Bytes.Pow256;
    Pow256Values();
    BEEncodesDecoded(b[1..3]);
    BEEncodesDecoded(b[3..7]);
    BEEncodesDecoded(b[7..11]);
    var it := ApiChunkAt(b);
    assert it.code * 0x1_0000 + it.finFlag == FromBE(b[3..7]);
    assert b[..ReadApiChunk(b).used] == [RAW_PREFIX] + b[1..3] + b[3..7] + b[7..11] + it.payload;
  }

  lemma AbridgedIsPrinted(b: seq<Byte>)
    requires b != [] && ReadAbridged(b).Frame? && 0 < b[0] < 0x80
    ensures ValidItem(AbridgedAt(b)) && b[..ReadAbridged(b).used] == Print(AbridgedAt(b))
  {
    hide Bytes.ToBE, Bytes.FromBE, Bytes.ToLE, Bytes.FromLE, Bytes.Pow256;
    var p := ReadAbridged(b).frame.payload;
    if b[0] == EXTENDED_PREFIX {
      Pow256Values();
      LEEncodesDecoded(b[1..4]);
      assert b[..ReadAbridged(b).used] == [EXTENDED_PREFIX] + b[1..4] + p;
    } else {
      assert b[..ReadAbridged(b).used] == [b[0]] + p;
    }
  }

  lemma WsLengthIsPrinted(b: seq<Byte>)
    requires ReadWsLength(b).Length?
    ensures var r := ReadWsLength(b);
            var form := WsForm(b[1] % 128);
            FormFits(form, r.len) && b[1..r.used] == WsHeader(form, b[1] >= 128, r.len)
  {
    hide Bytes.ToBE, Bytes.FromBE, Bytes.ToLE, Bytes.FromLE, Bytes.Pow256;
    var used := ReadWsLength(b).used;
    Pow256Values();
    BEEncodesDecoded(b[2..used]);
    assert b[1..used] == [b[1]] + b[2..used];
  }

  lemma WsParts(b: seq<Byte>)
    requires b != [] && !ReadWebSocket(b).Failed?
    ensures var r, n := ReadWsLength(b), ReadWebSocket(b).used;
            && r.Length? && n == r.used + (if b[1] >= 128 then 4 else 0) + r.len <= |b|
            && b[0] % 16 != 8 && b[..n] == [b[0]] + b[1..r.used] + b[r.used..n]
  {
    hide Wire.ReadWsLength, Wire.Mask;
  }

  lemma WsBodyIsPrinted(b: seq<Byte>)
    requires b != [] && !ReadWebSocket(b).Failed?
    ensures var it := WebSocketAt(b);
            && (it.key.Some? <==> b[1] >= 128) && (it.key.Some? ==> |it.key.value| == 4)
            && |it.payload| == ReadWsLength(b).len
            && b[ReadWsLength(b).used..ReadWebSocket(b).used] == WsBody(it.key, it.payload)
  {
    hide Wire.ReadWsLength, Wire.ReadWebSocket, Wire.Mask;
    WsParts(b);
    if b[1] >= 128 {
      var s := b[ReadWsLength(b).used..ReadWebSocket(b).used];
      KeyedBodyIsPrinted(s);
      assert s[..4] == WebSocketAt(b).key.value && s[4..] == b[ReadWsLength(b).used + 4..ReadWebSocket(b).used];
    }
  }

  lemma WebSocketIsPrinted(b: seq<Byte>)
    requires b != [] && !ReadWebSocket(b).Failed? && 0x80 <= b[0] < 0xff
    ensures ValidItem(WebSocketAt(b)) && b[..ReadWebSocket(b).used] == Print(WebSocketAt(b))
  {
    hide Wire.ReadWsLength, Wire.ReadWebSocket, Wire.WsHeader, Wire.WsBody, Wire.Mask;
    WsParts(b);
    WsLengthIsPrinted(b);
    WsBodyIsPrinted(b);
  }

  lemma KeyedBodyIsPrinted(s: seq<Byte>)
    requires |s| >= 4
    ensures s == WsBody(Some(s[..4]), Mask(s[4..], s[..4]))
  {
    MaskTwice(s[4..], s[..4]);
  }

  /** Whatever a round accepts is the printed form of one valid frame, with that frame's meaning. */
  lemma AcceptedIsPrinted(b: seq<Byte>)
    requires !ReadOnce(b).Failed?
    ensures ValidItem(ItemAt(b))
    ensures b[..ReadOnce(b).used] == Print(ItemAt(b))
    ensures ReadOnce(b) == Outcome(ItemAt(b))
  {
    if b[0] == PONG_PREFIX { PongIsPrinted(b); }
    else if b[0] == RAW_PREFIX { ApiChunkIsPrinted(b); }
    else if b[0] >= 0x80 { WebSocketIsPrinted(b); }
    else { AbridgedIsPrinted(b); }
    var n := ReadOnce(b).used;
    assert b == b[..n] + b[n..];
    ReadOnceInvertsPrint(ItemAt(b), b[n..]);
  }

  // ------------------------------------------------ printed frames are recovered whole

  lemma ApiChunkIsRecovered(it: Item, rest: seq<Byte>)
    requires it.ApiItem? && ValidItem(it)
    ensures ReadApiChunk(Print(it) + rest).Frame? && ApiChunkAt(Print(it) + rest) == it
  {
    hide Bytes.ToBE, Bytes.FromBE, Bytes.ToLE, Bytes.FromLE, Bytes.Pow256;
    var b := Print(it) + rest;
    var code := it.code * 0x1_0000 + it.finFlag;
    ApiChunkIsRead(it, rest);
    Pow256Values();
    BEDecodesEncoded(it.cid, 2);
    BEDecodesEncoded(code, 4);
    assert b[1..3] == ToBE(it.cid, 2);
    assert b[3..7] == ToBE(code, 4);
    assert b[11..11 + |it.payload|] == it.payload;
  }

  lemma AbridgedIsRecovered(it: Item, rest: seq<Byte>)
    requires it.AbridgedItem? && ValidItem(it)
    ensures ReadAbridged(Print(it) + rest).Frame? && AbridgedAt(Print(it) + rest) == it
  {
    AbridgedIsRead(it, rest);
  }

  lemma WebSocketIsRecovered(it: Item, rest: seq<Byte>)
    requires it.WsItem? && ValidItem(it)
    ensures !ReadWebSocket(Print(it) + rest).Failed? && WebSocketAt(Print(it) + rest) == it
  {
    hide Wire.ReadWsLength, Wire.ReadWebSocket, Wire.WsBody, Wire.Mask;
    hide Bytes.ToBE, Bytes.FromBE, Bytes.Pow256;
    var n := |it.payload|;
    var head := WsHeader(it.form, it.key.Some?, n);
    var body := WsBody(it.key, it.payload);
    var b := Print(it) + rest;
    PrintedWsParts(it.first, head, body, rest);
    WsLengthIsRead(it.first, it.form, it.key.Some?, n, body + rest);
    WebSocketIsRead(it, rest);
    BodyParts(it.key, it.payload);
    var used := 1 + |head|;
    assert b[used..used + |body|] == body;
    if it.key.Some? {
      assert b[used..used + 4] == body[..4];
      assert b[used + 4..used + |body|] == body[4..];
    }
  }

  lemma BodyParts(key: Option<seq<Byte>>, p: seq<Byte>)
    requires key.Some? ==> |key.value| == 4
    ensures var s := WsBody(key, p);
            if key.Some? then s[..4] == key.value && Mask(s[4..], key.value) == p else s == p
  {
    if key.Some? {
      MaskTwice(p, key.value);
      assert WsBody(key, p)[4..] == Mask(p, key.value);
    }
  }

  /** Whatever follows a printed frame, the very frame is recovered: its form, its mask and, of a
      skipped frame too, its payload. */
  lemma PrintedIsRecovered(it: Item, rest: seq<Byte>)
    requires ValidItem(it)
    ensures !ReadOnce(Print(it) + rest).Failed? && ItemAt(Print(it) + rest) == it
  {
    hide Wire.ReadWebSocket, Wire.ReadAbridged, Wire.ReadApiChunk, WebSocketAt, AbridgedAt, ApiChunkAt;
    hide Bytes.ToBE, Bytes.FromBE, Bytes.ToLE, Bytes.FromLE, Bytes.Pow256;
    ReadOnceInvertsPrint(it, rest);
    var b := Print(it) + rest;
    assert b[0] == Print(it)[0];
    match it
    case PongItem(cid) =>
      Pow256Values();
      BEDecodesEncoded(cid, 2);
      assert b[1..3] == ToBE(cid, 2);
    case ApiItem(_, _, _, _) => ApiChunkIsRecovered(it, rest);
    case AbridgedItem(_, _) => AbridgedIsRecovered(it, rest);
    case WsItem(_, _, _, _) => WebSocketIsRecovered(it, rest);
  }

  // ------------------------------------------------------- frames announce their end

  lemma CutApiChunkFails(b: seq<Byte>, k: nat)
    requires b != [] && ReadApiChunk(b).Frame? && 1 <= k < ReadApiChunk(b).used
    ensures ReadApiChunk(b[..k]) == Failed(Eof)
  {
    if 11 <= k {
      assert b[..k][7..11] == b[7..11];
    }
  }

  lemma CutAbridgedFails(b: seq<Byte>, k: nat)
    requires b != [] && ReadAbridged(b).Frame? && 1 <= k < ReadAbridged(b).used
    ensures ReadAbridged(b[..k]) == Failed(Eof)
  {
    if 4 <= k {
      assert b[..k][1..4] == b[1..4];
    }
  }

  lemma CutWebSocketFails(b: seq<Byte>, k: nat)
    requires b != [] && !ReadWebSocket(b).Failed? && 1 <= k < ReadWebSocket(b).used
    ensures ReadWebSocket(b[..k]) == Failed(Eof)
  {
    var used := ReadWsLength(b).used;
    if used <= k {
      assert b[..k][2..used] == b[2..used];
    }
  }

  /** A round that gets fewer bytes than the frame needs reports end of stream. */
  lemma CutFrameFails(b: seq<Byte>, k: nat)
    requires !ReadOnce(b).Failed? && k < ReadOnce(b).used
    ensures ReadOnce(b[..k]) == Failed(Eof)
  {
    if k >= 1 {
      assert b[..k][0] == b[0];
      if b[0] == RAW_PREFIX { CutApiChunkFails(b, k); }
      else if b[0] >= 0x80 { CutWebSocketFails(b, k); }
      else if b[0] != PONG_PREFIX { CutAbridgedFails(b, k); }
    }
  }

  /** Once a round accepts, the bytes after the frame have no influence. */
  lemma ReadOnceIgnoresSuffix(b: seq<Byte>, x: seq<Byte>)
    requires !ReadOnce(b).Failed?
    ensures ReadOnce(b[..ReadOnce(b).used] + x) == ReadOnce(b)
  {
    AcceptedIsPrinted(b);
    ReadOnceInvertsPrint(ItemAt(b), x);
  }

  /** Bytes after the frame a whole read returns have no influence either. */
  lemma {:induction false} ReadIgnoresSuffix(b: seq<Byte>, x: seq<Byte>)
    requires Read(b).Got?
    ensures Read(b[..Read(b).used] + x) == Read(b)
    decreases |b|
  {
    hide Wire.ReadOnce;
    var first, n := ReadOnce(b).used, Read(b).used;
    var e := b[..n] + x;
    ReadOnceIgnoresSuffix(b, e[first..]);
    assert e == b[..first] + e[first..];
    if ReadOnce(b).Skipped? {
      ReadIgnoresSuffix(b[first..], x);
      assert e[first..] == b[first..][..n - first] + x;
    }
  }

  /** A stream that ends inside a read (first frame or any skipped one) is an end-of-stream error. */
  lemma {:induction false} CutReadFails(b: seq<Byte>, k: nat)
    requires Read(b).Got? && k < Read(b).used
    ensures Read(b[..k]) == Broken(Eof)
    decreases |b|
  {
    hide Wire.ReadOnce;
    var first := ReadOnce(b).used;
    if k < first {
      CutFrameFails(b, k);
    } else {
      ReadOnceIgnoresSuffix(b, b[first..k]);
      assert b[..k] == b[..first] + b[first..k];
      CutReadFails(b[first..], k - first);
      assert b[..k][first..] == b[first..][..k - first];
    }
  }

  // ------------------------------------------------------------------- why rounds fail

  /** A close frame, however its length is written and whether or not it is masked, ends the reading. */
  lemma CloseFrameEnds(first: Byte, form: LengthForm, key: Option<seq<Byte>>, p: seq<Byte>, rest: seq<Byte>)
    requires 0x80 <= first < 0xff && first % 16 == 8
    requires FormFits(form, |p|) && |p| <= MAX_FRAME && (key.Some? ==> |key.value| == 4)
    ensures ReadOnce([first] + WsHeader(form, key.Some?, |p|) + WsBody(key, p) + rest) == Failed(CloseFrame)
  {
    hide Wire.ReadWsLength, Wire.ReadWebSocket, Wire.WsBody;
    var head, body := WsHeader(form, key.Some?, |p|), WsBody(key, p);
    var b := [first] + head + body + rest;
    PrintedWsParts(first, head, body, rest);
    WsLengthIsRead(first, form, key.Some?, |p|, body + rest);
    WsBodyIsRead(b, 1 + |head|, key, p);
  }

  /** A chunk or WebSocket frame that announces more than 64 MiB is refused at its header. */
  lemma OversizeIsRefused(cid: nat, code: nat, first: Byte, masked: bool, len: nat, rest: seq<Byte>)
    requires len > 64 * 1024 * 1024 && 0x80 <= first < 0xff
    ensures cid < 0x1_0000 && code < 0x1_0000_0000 && len < 0x1_0000_0000 ==>
              ReadOnce([RAW_PREFIX] + ToBE(cid, 2) + ToBE(code, 4) + ToBE(len, 4) + rest) == Failed(TooLong)
    ensures len < 0x1_0000_0000_0000_0000 ==>
              ReadOnce([first, (if masked then 255 else 127)] + ToBE(len, 8) + rest) == Failed(TooLong)
  {
    hide Bytes.ToBE, Bytes.FromBE, Bytes.Pow256;
    Pow256Values();
    if cid < 0x1_0000 && code < 0x1_0000_0000 && len < 0x1_0000_0000 {
      var b := [RAW_PREFIX] + ToBE(cid, 2) + ToBE(code, 4) + ToBE(len, 4) + rest;
      BEDecodesEncoded(len, 4);
      assert b[7..11] == ToBE(len, 4);
    }
    if len < 0x1_0000_0000_0000_0000 {
      var b := [first, (if masked then 255 else 127)] + ToBE(len, 8) + rest;
      BEDecodesEncoded(len, 8);
      assert b[2..10] == ToBE(len, 8);
    }
  }

  /** Whatever a round decides, other than that it needs more bytes, more bytes do not change. */
  lemma DecidedIsStable(b: seq<Byte>, x: seq<Byte>)
    requires ReadOnce(b) != Failed(Eof)
    ensures ReadOnce(b + x) == ReadOnce(b)
  {
    assert (b + x)[0] == b[0];
    if b[0] == PONG_PREFIX {
      assert (b + x)[1..3] == b[1..3];
    } else if b[0] == RAW_PREFIX {
      DecidedApiChunk(b, x);
    } else if b[0] >= 0x80 {
      DecidedWebSocket(b, x);
    } else {
      DecidedAbridged(b, x);
    }
  }

  lemma DecidedApiChunk(b: seq<Byte>, x: seq<Byte>)
    requires b != [] && ReadApiChunk(b) != Failed(Eof)
    ensures ReadApiChunk(b + x) == ReadApiChunk(b)
  {
    hide Bytes.FromBE;
    assert (b + x)[1..3] == b[1..3] && (b + x)[3..7] == b[3..7] && (b + x)[7..11] == b[7..11];
    var len := FromBE(b[7..11]);
    if len <= MAX_FRAME {
      assert (b + x)[11..11 + len] == b[11..11 + len];
    }
  }

  lemma DecidedAbridged(b: seq<Byte>, x: seq<Byte>)
    requires b != [] && ReadAbridged(b) != Failed(Eof)
    ensures ReadAbridged(b + x) == ReadAbridged(b)
  {
    hide Bytes.FromLE;
    if |b| >= 4 {
      assert (b + x)[1..4] == b[1..4];
    }
    var r := ReadAbridgedLength(b);
    if r.Length? {
      assert (b + x)[r.used..r.used + r.len] == b[r.used..r.used + r.len];
    }
  }

  lemma DecidedWebSocket(b: seq<Byte>, x: seq<Byte>)
    requires b != [] && ReadWebSocket(b) != Failed(Eof)
    ensures ReadWebSocket(b + x) == ReadWebSocket(b)
  {
    hide Wire.ReadWsLength, Wire.Unmasked;
    DecidedWsLength(b, x);
    var r := ReadWsLength(b);
    if r.Length? {
      var body := r.used + (if b[1] >= 128 then 4 else 0);
      assert (b + x)[r.used..body] == b[r.used..body];
      assert (b + x)[body..body + r.len] == b[body..body + r.len];
    }
  }

  lemma DecidedWsLength(b: seq<Byte>, x: seq<Byte>)
    requires ReadWsLength(b) != BadLength(Eof)
    ensures ReadWsLength(b + x) == ReadWsLength(b) && (b + x)[1] == b[1]
  {
    hide Bytes.FromBE;
    var ext := ExtendedBytes(b[1] % 128);
    assert (b + x)[2..2 + ext] == b[2..2 + ext];
  }

  /** No frame, header and all, is longer than this. */
  const ENOUGH: nat := MAX_FRAME + 14

  /** And a round that reports end of stream really needs more bytes: with enough of them it decides. */
  lemma EofIsUndecided(b: seq<Byte>, x: seq<Byte>)
    requires |b + x| >= ENOUGH
    ensures ReadOnce(b + x) != Failed(Eof)
  {
    hide Bytes.FromBE, Bytes.FromLE;
  }

  // ------------------------------------------------------------------------ samples

  lemma TwoBytes(a: Byte, b: Byte)
    ensures ToBE(a * 256 + b, 2) == [a, b]
  {
    assert ToBE(a, 1) == ToBE(0, 0) + [a];
  }

  lemma FourBytes(a: Byte, b: Byte, c: Byte, d: Byte)
    ensures ToBE(((a * 256 + b) * 256 + c) * 256 + d, 4) == [a, b, c, d]
  {
    TwoBytes(a, b);
    assert ToBE((a * 256 + b) * 256 + c, 3) == ToBE(a * 256 + b, 2) + [c];
  }

  /** A pong for cid 0x1234. */
  lemma SamplePong(rest: seq<Byte>)
    ensures ReadOnce([0x00, 0x12, 0x34] + rest) == Frame(Pong(0x1234), 3)
  {
    hide Wire.ReadOnce, Bytes.ToBE;
    TwoBytes(0x12, 0x34);
    assert [0x00, 0x12, 0x34] == Print(PongItem(0x1234));
    ReadOnceInvertsPrint(PongItem(0x1234), rest);
  }

  /** A chunk for cid 7 with code 400: final when the low 16 bits of the code word are 0xFF. */
  lemma SampleChunk(last: Byte, rest: seq<Byte>)
    ensures ReadOnce([0xff, 0x00, 0x07, 0x01, 0x90, 0x00, last, 0x00, 0x00, 0x00, 0x01, 0x41] + rest) ==
            Frame(ApiChunk(7, 400, last == 0xff, [0x41]), 12)
  {
    hide Wire.ReadOnce, Bytes.ToBE;
    TwoBytes(0x00, 0x07);
    FourBytes(0x01, 0x90, 0x00, last);
    FourBytes(0x00, 0x00, 0x00, 0x01);
    var it := ApiItem(7, 400, last, [0x41]);
    assert [0xff, 0x00, 0x07, 0x01, 0x90, 0x00, last, 0x00, 0x00, 0x00, 0x01, 0x41] == Print(it);
    ReadOnceInvertsPrint(it, rest);
  }

  lemma OneLE()
    ensures ToLE(1, 3) == [1, 0, 0]
  {
    assert ToLE(0, 1) == [0] + ToLE(0, 0);
    assert ToLE(0, 2) == [0] + ToLE(0, 1);
    assert ToLE(1, 3) == [1] + ToLE(0, 2);
  }

  /** Four padded bytes behind the short header. */
  lemma SampleAbridged(rest: seq<Byte>)
    ensures ReadOnce([0x01, 0x08, 0x05, 0x00, 0x00] + rest) == Frame(Envelope([0x08, 0x05, 0x00, 0x00], true), 5)
  {
    hide Wire.ReadOnce;
    var it := AbridgedItem([0x08, 0x05, 0x00, 0x00], false);
    assert [0x01, 0x08, 0x05, 0x00, 0x00] == Print(it);
    ReadOnceInvertsPrint(it, rest);
  }

  /** And behind the extended one. */
  lemma SampleExtended(rest: seq<Byte>)
    ensures ReadOnce([0x7f, 0x01, 0x00, 0x00, 0x08, 0x05, 0x00, 0x00] + rest) ==
            Frame(Envelope([0x08, 0x05, 0x00, 0x00], true), 8)
  {
    hide Wire.ReadOnce, Bytes.ToLE;
    OneLE();
    var it := AbridgedItem([0x08, 0x05, 0x00, 0x00], true);
    assert [0x7f, 0x01, 0x00, 0x00, 0x08, 0x05, 0x00, 0x00] == Print(it);
    ReadOnceInvertsPrint(it, rest);
  }

  /** The unmasked text frame of section 5.7 of RFC 6455. */
  lemma SampleHello(rest: seq<Byte>)
    ensures ReadOnce([0x81, 0x05, 0x48, 0x65, 0x6c, 0x6c, 0x6f] + rest) ==
            Frame(Envelope([0x48, 0x65, 0x6c, 0x6c, 0x6f], false), 7)
  {
    hide Wire.ReadOnce;
    var it := WsItem(0x81, Short, None, [0x48, 0x65, 0x6c, 0x6c, 0x6f]);
    assert [0x81, 0x05, 0x48, 0x65, 0x6c, 0x6c, 0x6f] == Print(it);
    ReadOnceInvertsPrint(it, rest);
  }

  /** The length test of the extended abridged header can never fire. */
  lemma AbridgedLengthWithinLimit(b: seq<Byte>)
    requires b != []
    ensures ReadAbridgedLength(b) != BadLength(TooLong)
    ensures ReadAbridgedLength(b).Length? ==> ReadAbridgedLength(b).len <= MAX_ABRIDGED < MAX_FRAME
  {
    if b[0] == EXTENDED_PREFIX && |b| >= 4 {
      Pow256Values();
      LEEncodesDecoded(b[1..4]);
    }
  }
}
