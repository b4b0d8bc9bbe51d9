/**
 Abridged framing and what makes it reversible.  Frames are zero-padded to a multiple of
 four bytes and the padding is not recorded, so the receiver must tell padding from content:
 the gateway trims zeros (hence the writer's guard record), the SDK decodes by trial.
 */
module Abridged {
  import opened Wrappers
  import opened Bytes
  import opened Wire
  import opened WireProofs
  import opened Protobuf

  function Padding(n: nat): (p: nat)
    ensures p < 4 && (n + p) % 4 == 0
  {
    (4 - n % 4) % 4
  }

  function Padded(p: seq<Byte>): (s: seq<Byte>)
    ensures |s| == |p| + Padding(|p|)
  {
    p + Zeros(Padding(|p|))
  }

  /** Header (one byte, or 0x7F and three little-endian bytes, truncated), payload, padding. */
  function EncodeFrame(p: seq<Byte>): (s: seq<Byte>)
    ensures |s| >= 1
  {
    var n := |Padded(p)| / 4;
    (if n < 127 then [n] else [EXTENDED_PREFIX, n % 256, n / 0x100 % 256, n / 0x1_0000 % 256]) + Padded(p)
  }

  lemma EncodeFramePrints(p: seq<Byte>)
    requires 0 < |p| <= MAX_ABRIDGED
    ensures var it := AbridgedItem(Padded(p), |Padded(p)| >= 127 * 4);
            ValidItem(it) && EncodeFrame(p) == Wire.Print(it)
  {
    var n := |Padded(p)| / 4;
    assert n / 256 / 256 == n / 0x1_0000;
    assert ToLE(n / 256 / 256, 1) == [n / 256 / 256 % 256];
    assert ToLE(n / 256, 2) == [n / 256 % 256] + ToLE(n / 256 / 256, 1);
    assert ToLE(n, 3) == [n % 256] + ToLE(n / 256, 2);
  }

  /** A payload is framed and read back with its padding exactly when it is nonempty and its
      padded length fits the 24-bit header. */
  lemma FrameRoundTrip(p: seq<Byte>, rest: seq<Byte>)
    ensures 0 < |p| <= MAX_ABRIDGED
            <==> ReadOnce(EncodeFrame(p) + rest) == Frame(Envelope(Padded(p), true), |EncodeFrame(p)|)
  {
    if p == [] {
      assert (EncodeFrame(p) + rest)[0] == PONG_PREFIX;
    } else if |p| <= MAX_ABRIDGED {
      hide Wire.ReadOnce;
      EncodeFramePrints(p);
      ReadOnceInvertsPrint(AbridgedItem(Padded(p), |Padded(p)| >= 127 * 4), rest);
    } else {
      var b := EncodeFrame(p) + rest;
      assert b[0] == EXTENDED_PREFIX;
      AbridgedLengthWithinLimit(b);
    }
  }

  // ------------------------------------------------------------------- trimming

  /** Drop trailing zeros, at most k of them. */
  function Strip(b: seq<Byte>, k: nat): (r: seq<Byte>)
    ensures |r| <= |b| && r == b[..|r|]
    ensures |b| <= |r| + k
    decreases k
  {
    if k > 0 && b != [] && b[|b| - 1] == 0 then Strip(b[..|b| - 1], k - 1) else b
  }

  method TrimPadding(b: seq<Byte>) returns (r: seq<Byte>)
    ensures r == Strip(b, 3)
  {
    var maxPadding := 3;
    if |b| < maxPadding {
      maxPadding := |b|;
    }
    var trimmed := 0;
    assert b[..|b|] == b;
    while trimmed < maxPadding && b[|b| - 1 - trimmed] == 0
      invariant 0 <= trimmed <= maxPadding
      invariant Strip(b, 3) == Strip(b[..|b| - trimmed], 3 - trimmed)
    {
      var c := b[..|b| - trimmed];
      assert c[..|c| - 1] == b[..|b| - trimmed - 1];
      trimmed := trimmed + 1;
    }
    r := b[..|b| - trimmed];
  }

  lemma {:induction false} StripZeros(g: seq<Byte>, n: nat, k: nat)
    requires n <= k
    ensures Strip(g + Zeros(n), k) == Strip(g, k - n)
    decreases n
  {
    if n == 0 {
      assert g + Zeros(0) == g;
    } else {
      var b := g + Zeros(n);
      assert b[..|b| - 1] == g + Zeros(n - 1);
      StripZeros(g, n - 1, k - 1);
    }
  }

  /** Trimming undoes padding exactly when the payload does not end in zero, or its own
      padding already uses up the three zeros the trim may take. */
  lemma TrimUndoesPadding(g: seq<Byte>)
    ensures Strip(Padded(g), 3) == g <==> g == [] || g[|g| - 1] != 0 || Padding(|g|) == 3
  {
    StripZeros(g, Padding(|g|), 3);
  }

  // -------------------------------------------------------------- the writer's guard

  /** Field 2047, varint 1. */
  const GUARD: seq<Byte> := [0xf8, 0x7f, 0x01]
  const GUARD_RECORD: Record := Record(2047, 0, [1])

  function Guarded(m: seq<Byte>): (g: seq<Byte>)
  {
    if |m| > 0 && m[|m| - 1] == 0 then m + GUARD else m
  }

  lemma GuardParses()
    ensures Parse(GUARD) == Some([GUARD_RECORD])
  {
    assert GUARD[1..] == [0x7f, 0x01];
    assert Varint(GUARD) == Some((16376, 2));
    assert GUARD[2..] == [1];
    assert Varint([1]) == Some((1, 1));
    assert GUARD[2..3] == [1] && GUARD[3..] == [];
    assert ParseRecord(GUARD) == Some((GUARD_RECORD, 3));
    assert Parse(GUARD[3..]) == Some([]);
    assert [GUARD_RECORD] + [] == [GUARD_RECORD];
  }

  /**
   The outbound path is lossless: the receiver reads the frame, trims zeros and parses the
   records that were sent, plus the one guard record when the message ended in zero.
   */
  lemma OutboundIsLossless(m: seq<Byte>, rest: seq<Byte>)
    requires m != [] && WellFormed(m) && |Guarded(m)| <= MAX_ABRIDGED
    ensures var g := Guarded(m);
            && g[|g| - 1] != 0
            && ReadOnce(EncodeFrame(g) + rest) == Frame(Envelope(Padded(g), true), |EncodeFrame(g)|)
            && Strip(Padded(g), 3) == g
            && Parse(g) == Some(Parse(m).value + if m[|m| - 1] == 0 then [GUARD_RECORD] else [])
  {
    hide Wire.ReadOnce, EncodeFrame;
    var g := Guarded(m);
    FrameRoundTrip(g, rest);
    TrimUndoesPadding(g);
    if m[|m| - 1] == 0 {
      GuardParses();
      ParseConcat(m, GUARD);
    } else {
      assert Parse(m).value + [] == Parse(m).value;
    }
  }

  // ------------------------------------------------------------------ trial decoding

  /** Typed decoding is any partial function that only succeeds on well-formed bytes. */
  ghost predicate SoundDecoder<E>(decode: seq<Byte> -> Option<E>) {
    forall b :: decode(b).Some? ==> WellFormed(b)
  }

  /** Decode, retrying with one trailing zero fewer up to k times. */
  function TrialDecode<E>(decode: seq<Byte> -> Option<E>, b: seq<Byte>, k: nat): (r: Option<E>)
    decreases k
  {
    if decode(b).Some? then decode(b)
    else if k > 0 && b != [] && b[|b| - 1] == 0 then TrialDecode(decode, b[..|b| - 1], k - 1)
    else None
  }

  function DecodeEnvelope<E>(decode: seq<Byte> -> Option<E>, payload: seq<Byte>, padded: bool): (r: Option<E>)
  {
    if padded then TrialDecode(decode, payload, 3) else decode(payload)
  }

  method UnmarshalEnvelope<E>(decode: seq<Byte> -> Option<E>, payload: seq<Byte>, padded: bool)
    returns (env: Option<E>)
    ensures env == DecodeEnvelope(decode, payload, padded)
  {
    var data := payload;
    env := decode(data);
    if !padded {
      return;
    }
    var i := 0;
    while env.None? && i < 3 && |data| > 0 && data[|data| - 1] == 0
      invariant 0 <= i <= 3 && env == decode(data)
      invariant TrialDecode(decode, payload, 3) == TrialDecode(decode, data, 3 - i)
    {
      data := data[..|data| - 1];
      env := decode(data);
      i := i + 1;
    }
  }

  lemma {:induction false} TrialDecodeStripsPadding<E>(decode: seq<Byte> -> Option<E>, m: seq<Byte>, n: nat, k: nat)
    requires SoundDecoder(decode) && decode(m).Some? && n <= k
    ensures TrialDecode(decode, m + Zeros(n), k) == decode(m)
    decreases n
  {
    hide Protobuf.Parse;
    var b := m + Zeros(n);
    if n == 0 {
      assert b == m;
    } else {
      PaddedIsMalformed(m, n);
      assert decode(b).None? && b[|b| - 1] == 0;
      assert b[..|b| - 1] == m + Zeros(n - 1);
      TrialDecodeStripsPadding(decode, m, n - 1, k - 1);
    }
  }

  /**
   The inbound path is exact: a message that decodes, even one ending in zeros, is framed,
   read and decoded by trial to exactly the same value.
   */
  lemma InboundIsExact<E>(decode: seq<Byte> -> Option<E>, m: seq<Byte>, rest: seq<Byte>)
    requires SoundDecoder(decode) && decode(m).Some?
    requires 0 < |m| <= MAX_ABRIDGED
    ensures var r := ReadOnce(EncodeFrame(m) + rest);
            && r == Frame(Envelope(Padded(m), true), |EncodeFrame(m)|)
            && DecodeEnvelope(decode, Padded(m), true) == decode(m)
  {
    FrameRoundTrip(m, rest);
    TrialDecodeStripsPadding(decode, m, Padding(|m|), 3);
  }

  /**
   WebSocket frames carry no padding: a text or binary frame, however its length is written and
   whether or not it is masked, is read whole and its payload decoded as it is, with no trial.
   */
  lemma PushedIsExact<E>(decode: seq<Byte> -> Option<E>, it: Item, rest: seq<Byte>)
    requires it.WsItem? && ValidItem(it) && (it.first % 16 == 1 || it.first % 16 == 2)
    ensures var r := ReadOnce(Wire.Print(it) + rest);
            && r.Frame? && r.frame.Envelope? && r.used == |Wire.Print(it)|
            && r.frame.payload == it.payload
            && DecodeEnvelope(decode, r.frame.payload, r.frame.padded) == decode(it.payload)
  {
    hide Wire.ReadOnce, Wire.Print;
    ReadOnceInvertsPrint(it, rest);
  }

  /** The bytes without their last i bytes, all of which are zero. */
  ghost predicate IsStrip(b: seq<Byte>, i: nat, c: seq<Byte>) {
    b == c + Zeros(i)
  }

  /** At most one way of stripping zeros off any payload decodes, so the order of the trials is immaterial. */
  lemma StripsAreUnambiguous<E>(decode: seq<Byte> -> Option<E>, b: seq<Byte>, i: nat, c: seq<Byte>, j: nat, d: seq<Byte>)
    requires SoundDecoder(decode)
    requires IsStrip(b, i, c) && IsStrip(b, j, d) && decode(c).Some? && decode(d).Some?
    ensures i == j && c == d
  {
    if i < j {
      ShorterStripIsPadded(b, i, c, j, d);
    } else if j < i {
      ShorterStripIsPadded(b, j, d, i, c);
    } else {
      assert c == b[..|b| - i] == d;
    }
  }

  lemma ShorterStripIsPadded(b: seq<Byte>, i: nat, c: seq<Byte>, j: nat, d: seq<Byte>)
    requires IsStrip(b, i, c) && IsStrip(b, j, d) && i < j
    ensures c == d + Zeros(j - i)
    ensures WellFormed(d) ==> !WellFormed(c)
  {
    assert c == b[..|b| - i];
    assert d == b[..|b| - j];
    assert c == d + Zeros(j - i) by {
      forall x | |d| <= x < |c|
        ensures c[x] == 0
      {
        assert b[x] == Zeros(j)[x - |d|];
      }
    }
    if WellFormed(d) {
      PaddedIsMalformed(d, j - i);
    }
  }

  lemma {:induction false} TrialDecodeFindsStrip<E>(decode: seq<Byte> -> Option<E>, b: seq<Byte>, k: nat)
    returns (i: nat, c: seq<Byte>)
    requires TrialDecode(decode, b, k).Some?
    ensures i <= k && IsStrip(b, i, c) && decode(c) == TrialDecode(decode, b, k)
    decreases k
  {
    if decode(b).Some? {
      i, c := 0, b;
    } else {
      var j;
      j, c := TrialDecodeFindsStrip(decode, b[..|b| - 1], k - 1);
      i := j + 1;
      assert b == b[..|b| - 1] + [0];
    }
  }

  /** Trial decoding succeeds with e exactly when some strip of at most k zeros decodes to e. */
  lemma TrialDecodeIsAnyStrip<E>(decode: seq<Byte> -> Option<E>, b: seq<Byte>, k: nat, e: E)
    requires SoundDecoder(decode)
    ensures TrialDecode(decode, b, k) == Some(e) <==>
            exists i: nat, c :: i <= k && IsStrip(b, i, c) && decode(c) == Some(e)
  {
    hide TrialDecode;
    if i: nat, c :| i <= k && IsStrip(b, i, c) && decode(c) == Some(e) {
      TrialDecodeStripsPadding(decode, c, i, k);
    }
    if TrialDecode(decode, b, k) == Some(e) {
      var i, c := TrialDecodeFindsStrip(decode, b, k);
    }
  }

  /** So a padded payload decodes to e exactly when some strip of at most three zeros does, and an
      unpadded one exactly when it does as it stands. */
  lemma EnvelopeIsAnyStrip<E>(decode: seq<Byte> -> Option<E>, b: seq<Byte>, e: E)
    requires SoundDecoder(decode)
    ensures DecodeEnvelope(decode, b, true) == Some(e) <==>
            exists i: nat, c :: i <= 3 && IsStrip(b, i, c) && decode(c) == Some(e)
    ensures DecodeEnvelope(decode, b, false) == Some(e) <==> decode(b) == Some(e)
  {
    TrialDecodeIsAnyStrip(decode, b, 3, e);
  }
}
