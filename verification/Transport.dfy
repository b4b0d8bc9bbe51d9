/**
 The TCP connection: a buffered reader advancing over the peer's bytes, and the writes.
 `stream` is everything the peer will ever send; `pos` is the reader's cursor; `written`
 is everything sent so far.  Each method is proved against the functions of `Wire` and
 `Abridged`.
 */
module Transport {
  import opened Wrappers
  import opened Bytes
  import opened Wire
  import WireProofs
  import Abridged

  /** Unmask in place: byte i is combined with key byte i mod 4. */
  method Unmask(payload: array<Byte>, key: seq<Byte>)
    requires |key| == 4
    modifies payload
    ensures payload[..] == Mask(old(payload[..]), key)
  {
    var i := 0;
    while i < payload.Length
      invariant 0 <= i <= payload.Length
      invariant forall k :: 0 <= k < i ==> payload[k] == XorByte(old(payload[k]), key[k % 4])
      invariant forall k :: i <= k < payload.Length ==> payload[k] == old(payload[k])
    {
      payload[i] := XorByte(payload[i], key[i % 4]);
      i := i + 1;
    }
  }

  class TcpConn {
    const stream: seq<Byte>
    var pos: nat
    var written: seq<Byte>

    ghost predicate Valid()
      reads this
    {
      pos <= |stream|
    }

    ghost function Unread(): (s: seq<Byte>)
      reads this
      requires Valid()
    {
      stream[pos..]
    }

    constructor (peer: seq<Byte>)
      ensures Valid() && stream == peer && pos == 0 && written == []
    {
      stream := peer;
      pos := 0;
      written := [];
    }

    method ReadByte() returns (b: Option<Byte>)
      requires Valid()
      modifies this`pos
      ensures Valid()
      ensures old(Unread()) != [] ==> b == Some(old(Unread())[0]) && pos == old(pos) + 1
      ensures old(Unread()) == [] ==> b.None? && pos == old(pos)
    {
      if pos < |stream| {
        b := Some(stream[pos]);
        pos := pos + 1;
      } else {
        b := None;
      }
    }

    /** Read exactly n bytes; a stream that ends early is drained and reported. */
    method ReadFull(n: nat) returns (b: Option<seq<Byte>>)
      requires Valid()
      modifies this`pos
      ensures Valid()
      ensures n <= |old(Unread())| ==> b == Some(old(Unread())[..n]) && pos == old(pos) + n
      ensures n > |old(Unread())| ==> b.None? && pos == |stream|
    {
      if pos + n <= |stream| {
        b := Some(stream[pos..][..n]);
        pos := pos + n;
      } else {
        b := None;
        pos := |stream|;
      }
    }

    /** Decode the abridged length header whose first byte was just consumed. */
    method ReadAbridgedLength(prefix: Byte) returns (len: nat, err: Option<ReadError>)
      requires Valid() && pos >= 1 && stream[pos - 1] == prefix
      modifies this`pos
      ensures Valid() && old(pos) <= pos
      ensures match Wire.ReadAbridgedLength(stream[old(pos) - 1..])
              case Length(n, used) => err.None? && len == n && pos == old(pos) - 1 + used
              case BadLength(e) => err == Some(e)
    {
      ghost var b := stream[pos - 1..];
      assert b[1..] == stream[pos..];
      len, err := 0, None;
      if prefix < EXTENDED_PREFIX {
        len := 4 * (prefix as nat);
        return;
      }
      if prefix != EXTENDED_PREFIX {
        err := Some(BadPrefix);
        return;
      }
      var h := ReadFull(3);
      if h.None? {
        err := Some(Eof);
        return;
      }
      assert h.value == b[1..4];
      var n := FromLE(h.value);
      if n * 4 > MAX_FRAME {
        err := Some(TooLong);
        return;
      }
      len := n * 4;
    }

    /** The rest of a WebSocket header after the first byte: length and masking flag. */
    method ReadWsLength(ghost first: Byte) returns (len: nat, masked: bool, err: Option<ReadError>)
      requires Valid() && pos >= 1 && stream[pos - 1] == first
      modifies this`pos
      ensures Valid() && old(pos) <= pos
      ensures var b := stream[old(pos) - 1..];
              match Wire.ReadWsLength(b)
              case Length(n, used) =>
                err.None? && len == n && pos == old(pos) - 1 + used && (masked <==> b[1] >= 128)
              case BadLength(e) => err == Some(e)
    {
      ghost var b := stream[pos - 1..];
      assert b[1..] == stream[pos..];
      len, masked, err := 0, false, None;
      var b2 := ReadByte();
      if b2.None? {
        err := Some(Eof);
        return;
      }
      assert b2.value == b[1] && b[2..] == stream[pos..];
      masked := b2.value >= 128;
      len := b2.value % 128;
      if len == 126 {
        var ext := ReadFull(2);
        if ext.None? {
          err := Some(Eof);
          return;
        }
        assert ext.value == b[2..4];
        len := FromBE(ext.value);
      } else if len == 127 {
        var ext := ReadFull(8);
        if ext.None? {
          err := Some(Eof);
          return;
        }
        assert ext.value == b[2..10];
        len := FromBE(ext.value);
      }
      if len > MAX_FRAME {
        err := Some(TooLong);
      }
    }

    /** Consume a WebSocket frame whose first byte was just read; no frame and no error means skipped. */
    method ReadWebSocketFrame(first: Byte) returns (f: Option<WireFrame>, err: Option<ReadError>)
      requires Valid() && pos >= 1 && stream[pos - 1] == first
      modifies this`pos
      ensures Valid() && old(pos) <= pos
      ensures match Wire.ReadWebSocket(stream[old(pos) - 1..])
              case Frame(g, used) => f == Some(g) && err.None? && pos == old(pos) - 1 + used
              case Skipped(used) => f.None? && err.None? && pos == old(pos) - 1 + used
              case Failed(e) => f.None? && err == Some(e)
    {
      hide Wire.ReadWsLength, Wire.Mask;
      ghost var start := pos - 1;
      ghost var b := stream[start..];
      var len, masked, bad := ReadWsLength(first);
      f, err := None, None;
      if bad.Some? {
        err := bad;
        return;
      }
      ghost var used := pos - start;
      assert b[used..] == stream[pos..];
      var key: seq<Byte> := [];
      if masked {
        var k := ReadFull(4);
        if k.None? {
          err := Some(Eof);
          return;
        }
        key := k.value;
      }
      ghost var body := pos - start;
      assert key == b[used..body];
      assert b[body..] == stream[pos..];
      var raw := ReadFull(len);
      if raw.None? {
        err := Some(Eof);
        return;
      }
      assert raw.value == b[body..body + len];
      var payload := new Byte[len](i requires 0 <= i < |raw.value| => raw.value[i]);
      assert payload[..] == raw.value;
      if masked {
        Unmask(payload, key);
      }
      assert payload[..] == Unmasked(key, raw.value);
      var opcode := first % 16;
      if opcode == 1 || opcode == 2 {
        f := Some(Envelope(payload[..], false));
      } else if opcode == 8 {
        err := Some(CloseFrame);
      }
    }

    /** Read one wire frame; no frame and no error means a control frame was consumed. */
    method ReadFrameOnce() returns (f: Option<WireFrame>, err: Option<ReadError>)
      requires Valid()
      modifies this`pos
      ensures Valid() && old(pos) <= pos
      ensures match ReadOnce(old(Unread()))
              case Frame(g, used) => f == Some(g) && err.None? && pos == old(pos) + used
              case Skipped(used) => f.None? && err.None? && pos == old(pos) + used
              case Failed(e) => f.None? && err == Some(e)
    {
      ghost var b := Unread();
      f, err := None, None;
      var prefix := ReadByte();
      if prefix.None? {
        err := Some(Eof);
        return;
      }
      assert b[1..] == stream[pos..];
      if prefix.value == PONG_PREFIX {
        var h := ReadFull(2);
        if h.None? {
          err := Some(Eof);
          return;
        }
        assert h.value == b[1..3];
        f := Some(Pong(FromBE(h.value)));
      } else if prefix.value == RAW_PREFIX {
        f, err := ReadApiFrame();
      } else if prefix.value >= 0x80 {
        f, err := ReadWebSocketFrame(prefix.value);
      } else {
        f, err := ReadAbridgedFrame(prefix.value);
      }
    }

    method ReadApiFrame() returns (f: Option<WireFrame>, err: Option<ReadError>)
      requires Valid() && pos >= 1
      modifies this`pos
      ensures Valid() && old(pos) <= pos
      ensures match ReadApiChunk(stream[old(pos) - 1..])
              case Frame(g, used) => f == Some(g) && err.None? && pos == old(pos) - 1 + used
              case Skipped(_) => false
              case Failed(e) => f.None? && err == Some(e)
    {
      ghost var b := stream[pos - 1..];
      assert b[1..] == stream[pos..];
      f, err := None, None;
      var hdr := ReadFull(10);
      if hdr.None? {
        err := Some(Eof);
        return;
      }
      var h := hdr.value;
      assert h == b[1..11] && b[11..] == stream[pos..];
      assert h[0..2] == b[1..3] && h[2..6] == b[3..7] && h[6..10] == b[7..11];
      var code := FromBE(h[2..6]);
      var len := FromBE(h[6..10]);
      if len > MAX_FRAME {
        err := Some(TooLong);
        return;
      }
      var payload := ReadFull(len);
      if payload.None? {
        err := Some(Eof);
        return;
      }
      assert payload.value == b[11..11 + len];
      f := Some(ApiChunk(FromBE(h[0..2]), code / 0x1_0000 % 0x1_0000, code % 0x1_0000 == RAW_FIN, payload.value));
    }

    method ReadAbridgedFrame(prefix: Byte) returns (f: Option<WireFrame>, err: Option<ReadError>)
      requires Valid() && pos >= 1 && stream[pos - 1] == prefix
      modifies this`pos
      ensures Valid() && old(pos) <= pos
      ensures match ReadAbridged(stream[old(pos) - 1..])
              case Frame(g, used) => f == Some(g) && err.None? && pos == old(pos) - 1 + used
              case Skipped(_) => false
              case Failed(e) => f.None? && err == Some(e)
    {
      ghost var start := pos - 1;
      f := None;
      var len;
      len, err := ReadAbridgedLength(prefix);
      if err.Some? {
        return;
      }
      ghost var b, used := stream[start..], pos - start;
      assert b[used..] == stream[pos..];
      var payload := ReadFull(len);
      if payload.None? {
        err := Some(Eof);
        return;
      }
      assert payload.value == b[used..used + len];
      f := Some(Envelope(payload.value, true));
    }

    /** Read rounds until a frame or an error: the loop always ends, since every skipped frame uses bytes. */
    method ReadFrame() returns (f: Option<WireFrame>, err: Option<ReadError>)
      requires Valid()
      modifies this`pos
      ensures Valid() && old(pos) <= pos
      ensures match Read(old(Unread()))
              case Got(g, used) => f == Some(g) && err.None? && pos == old(pos) + used
              case Broken(e) => f.None? && err == Some(e)
    {
      hide Wire.ReadOnce;
      f, err := None, None;
      while f.None? && err.None?
        invariant Valid() && old(pos) <= pos
        invariant f.None? || err.None?
        invariant f.None? && err.None? ==>
                    Read(old(Unread())) ==
                    match Read(Unread())
                    case Broken(e) => Broken(e)
                    case Got(g, used) => Got(g, pos - old(pos) + used)
        invariant f.Some? ==> Read(old(Unread())) == Got(f.value, pos - old(pos))
        invariant err.Some? ==> Read(old(Unread())) == Broken(err.value)
        decreases |stream| - pos, if f.None? && err.None? then 1 else 0
      {
        ghost var b, p := Unread(), pos;
        f, err := ReadFrameOnce();
        assert pos > p ==> b[pos - p..] == stream[pos..];
      }
    }

    // ------------------------------------------------------------------ writing

    method WriteEnvelope(data: seq<Byte>)
      modifies this`written
      ensures written == old(written) + Abridged.EncodeFrame(Abridged.Guarded(data))
    {
      var d := data;
      if |d| > 0 && d[|d| - 1] == 0 {
        d := d + [0xf8, 0x7f, 0x01];
      }
      written := written + Abridged.EncodeFrame(d);
    }

    /** A ping is the three-byte frame a pong comes back as: only 16 bits of the cid travel. */
    method WritePing(cid: int)
      modifies this`written
      ensures written == old(written) + Print(PongItem(cid % 0x1_0000))
    {
      var c := cid % 0x1_0000;
      assert ToBE(c, 2) == [c / 256, c % 256] by {
        assert ToBE(c / 256, 1) == [c / 256];
      }
      written := written + [PONG_PREFIX, c / 256, c % 256];
    }
  }

  // --------------------------------------------------------------- raw WebSocket frames

  /** A 0xFF-prefixed WebSocket message is one API chunk; there is no length field. */
  function ParseRawFrame(data: seq<Byte>): (f: Option<WireFrame>)
  {
    if |data| < 7 then None
    else
      var code := FromBE(data[3..7]);
      Some(ApiChunk(FromBE(data[1..3]), code / 0x1_0000 % 0x1_0000, code % 0x1_0000 == RAW_FIN, data[7..]))
  }

  /** A raw message carries exactly the chunk the same header and payload carry over TCP. */
  lemma RawFrameAgreesWithTcp(cid: nat, code: nat, finFlag: nat, p: seq<Byte>, rest: seq<Byte>)
    requires ValidItem(ApiItem(cid, code, finFlag, p))
    ensures var raw := [RAW_PREFIX] + ToBE(cid, 2) + ToBE(code * 0x1_0000 + finFlag, 4) + p;
            var tcp := ReadOnce(Print(ApiItem(cid, code, finFlag, p)) + rest);
            tcp.Frame? && ParseRawFrame(raw) == Some(tcp.frame)
  {
    hide Bytes.ToBE, Bytes.FromBE, Wire.ReadOnce;
    var raw := [RAW_PREFIX] + ToBE(cid, 2) + ToBE(code * 0x1_0000 + finFlag, 4) + p;
    WireProofs.ReadOnceInvertsPrint(ApiItem(cid, code, finFlag, p), rest);
    Pow256Values();
    BEDecodesEncoded(cid, 2);
    BEDecodesEncoded(code * 0x1_0000 + finFlag, 4);
    assert raw[1..3] == ToBE(cid, 2);
    assert raw[3..7] == ToBE(code * 0x1_0000 + finFlag, 4);
    assert raw[7..] == p;
  }
}
