/**
 The record layer of the Protocol Buffers encoding ("Message Structure"): a
 message is a concatenation of records, each a varint tag (field number and wire
 type) followed by a value whose length the wire type determines.  Typed decoding
 sits on top of this layer and can only succeed on bytes that parse here; unknown
 fields, groups included, are skipped as records.
 */
module Protobuf {
  import opened Wrappers
  import opened Bytes

  const MAX_FIELD_NUMBER: nat := 0x1FFF_FFFF
  /** Inside a skipped group a field number need only fit 31 bits. */
  const MAX_NESTED_NUMBER: nat := 0x7FFF_FFFF

  /** One record; the value is kept as the raw bytes that follow the tag. */
  datatype Record = Record(num: nat, wireType: nat, value: seq<Byte>)

  /**
   A varint whose first k bytes were already consumed, as (value, bytes used).
   Ten bytes at most; the tenth may only carry bit 63.
   */
  function VarintAfter(b: seq<Byte>, k: nat): (r: Option<(nat, nat)>)
    ensures r.Some? ==> 1 <= r.value.1 <= |b|
  {
    if b == [] then None
    else if b[0] < 128 then
      if k >= 9 && b[0] > 1 then None else Some((b[0], 1))
    else if k >= 9 then None
    else
      var (v, n) :- VarintAfter(b[1..], k + 1);
      Some((b[0] % 128 + 128 * v, n + 1))
  }

  function Varint(b: seq<Byte>): (r: Option<(nat, nat)>)
    ensures r.Some? ==> 1 <= r.value.1 <= |b|
  {
    VarintAfter(b, 0)
  }

  /** How many bytes of b the value of a record with this field number and wire type takes; a group
      takes the records up to the end tag with its own number. */
  function ValueLength(num: nat, wireType: nat, b: seq<Byte>): (r: Option<nat>)
    ensures r.Some? ==> r.value <= |b|
    decreases |b|, 1
  {
    match wireType
    case 0 =>
      var (_, n) :- Varint(b);
      Some(n)
    case 1 => if |b| < 8 then None else Some(8)
    case 2 =>
      var (len, n) :- Varint(b);
      if |b| - n < len then None else Some(n + len)
    case 3 => GroupLength(num, b)
    case 5 => if |b| < 4 then None else Some(4)
    case _ => None
  }

  /** The records inside group `num`, its end tag included. */
  function GroupLength(num: nat, b: seq<Byte>): (r: Option<nat>)
    ensures r.Some? ==> r.value <= |b|
    decreases |b|, 0
  {
    var (tag, n) :- Varint(b);
    if tag / 8 < 1 || tag / 8 > MAX_NESTED_NUMBER then None
    else if tag % 8 == 4 then if tag / 8 == num then Some(n) else None
    else
      var len :- ValueLength(tag / 8, tag % 8, b[n..]);
      var rest :- GroupLength(num, b[n + len..]);
      Some(n + len + rest)
  }

  function ParseRecord(b: seq<Byte>): (r: Option<(Record, nat)>)
    ensures r.Some? ==> 1 <= r.value.1 <= |b|
  {
    var (tag, n) :- Varint(b);
    if tag / 8 < 1 || tag / 8 > MAX_FIELD_NUMBER then None
    else
      var len :- ValueLength(tag / 8, tag % 8, b[n..]);
      Some((Record(tag / 8, tag % 8, b[n..n + len]), n + len))
  }

  function Parse(b: seq<Byte>): (r: Option<seq<Record>>)
    decreases |b|
  {
    if b == [] then Some([])
    else
      var (rec, n) :- ParseRecord(b);
      var recs :- Parse(b[n..]);
      Some([rec] + recs)
  }

  ghost predicate WellFormed(b: seq<Byte>) {
    Parse(b).Some?
  }

  // ---------------------------------------------------------------- printing

  function PrintVarint(v: nat): (s: seq<Byte>)
    ensures |s| >= 1
  {
    if v < 128 then [v] else [128 + v % 128] + PrintVarint(v / 128)
  }

  function PrintRecord(r: Record): (s: seq<Byte>)
  {
    PrintVarint(r.num * 8 + r.wireType) + r.value
  }

  function Print(rs: seq<Record>): (s: seq<Byte>)
  {
    if rs == [] then [] else PrintRecord(rs[0]) + Print(rs[1..])
  }

  predicate ValidRecord(r: Record) {
    && 1 <= r.num <= MAX_FIELD_NUMBER
    && r.wireType < 8
    && ValueLength(r.num, r.wireType, r.value) == Some(|r.value|)
  }

  // --------------------------------------------- bytes after a message do not matter

  lemma {:induction false} VarintIgnoresSuffix(b: seq<Byte>, x: seq<Byte>, k: nat)
    requires VarintAfter(b, k).Some?
    ensures VarintAfter(b + x, k) == VarintAfter(b, k)
    decreases |b|
  {
    if b[0] >= 128 {
      VarintIgnoresSuffix(b[1..], x, k + 1);
      assert (b + x)[1..] == b[1..] + x;
    }
  }

  lemma TagIgnoresSuffix(b: seq<Byte>, x: seq<Byte>)
    requires Varint(b).Some?
    ensures Varint(b + x) == Varint(b)
  {
    VarintIgnoresSuffix(b, x, 0);
  }

  lemma {:induction false} ValueLengthIgnoresSuffix(num: nat, wireType: nat, b: seq<Byte>, x: seq<Byte>)
    requires ValueLength(num, wireType, b).Some?
    ensures ValueLength(num, wireType, b + x) == ValueLength(num, wireType, b)
    decreases |b|, 1
  {
    hide Varint, GroupLength;
    if wireType == 0 || wireType == 2 {
      TagIgnoresSuffix(b, x);
    } else if wireType == 3 {
      GroupLengthIgnoresSuffix(num, b, x);
    }
  }

  lemma {:induction false} GroupLengthIgnoresSuffix(num: nat, b: seq<Byte>, x: seq<Byte>)
    requires GroupLength(num, b).Some?
    ensures GroupLength(num, b + x) == GroupLength(num, b)
    decreases |b|, 0
  {
    hide Varint, ValueLength;
    TagIgnoresSuffix(b, x);
    var (tag, n) := Varint(b).value;
    if tag % 8 != 4 {
      assert (b + x)[n..] == b[n..] + x;
      ValueLengthIgnoresSuffix(tag / 8, tag % 8, b[n..], x);
      var len := ValueLength(tag / 8, tag % 8, b[n..]).value;
      assert (b + x)[n + len..] == b[n + len..] + x;
      GroupLengthIgnoresSuffix(num, b[n + len..], x);
    }
  }

  lemma ParseRecordIgnoresSuffix(b: seq<Byte>, x: seq<Byte>)
    requires ParseRecord(b).Some?
    ensures ParseRecord(b + x) == ParseRecord(b)
  {
    hide Varint, ValueLength;
    TagIgnoresSuffix(b, x);
    var (tag, n) := Varint(b).value;
    assert (b + x)[n..] == b[n..] + x;
    ValueLengthIgnoresSuffix(tag / 8, tag % 8, b[n..], x);
    var len := ValueLength(tag / 8, tag % 8, b[n..]).value;
    assert (b + x)[n..n + len] == b[n..n + len];
  }

  /** A well-formed message followed by more bytes parses exactly when those bytes do. */
  lemma {:induction false} ParseConcat(m: seq<Byte>, x: seq<Byte>)
    requires WellFormed(m)
    ensures WellFormed(m + x) <==> WellFormed(x)
    ensures WellFormed(x) ==> Parse(m + x).value == Parse(m).value + Parse(x).value
    decreases |m|
  {
    if m == [] {
      assert m + x == x;
    } else {
      ParseRecordIgnoresSuffix(m, x);
      var n := ParseRecord(m).value.1;
      assert (m + x)[n..] == m[n..] + x;
      ParseConcat(m[n..], x);
    }
  }

  /** A zero byte is a tag with field number 0, so a run of zeros never parses. */
  lemma ZerosAreMalformed(n: nat)
    requires n >= 1
    ensures !WellFormed(Zeros(n))
  {
    assert Varint(Zeros(n)) == Some((0, 1));
  }

  /** Appending zeros to a well-formed message always makes it malformed. */
  lemma PaddedIsMalformed(m: seq<Byte>, n: nat)
    requires WellFormed(m) && n >= 1
    ensures !WellFormed(m + Zeros(n))
  {
    ParseConcat(m, Zeros(n));
    ZerosAreMalformed(n);
  }

  // ------------------------------------------------------- the parser inverts printing

  function Pow128(n: nat): (p: nat)
    ensures p >= 1
  {
    if n == 0 then 1 else 128 * Pow128(n - 1)
  }

  lemma Pow128Values()
    ensures 2 * Pow128(9) == 0x1_0000_0000_0000_0000
  {
    assert Pow128(3) == 128 * 128 * 128;
    assert Pow128(6) == 128 * (128 * (128 * Pow128(3)));
    assert Pow128(9) == 128 * (128 * (128 * Pow128(6)));
  }

  lemma {:induction false} VarintDecodesPrinted(v: nat, k: nat)
    requires k <= 9 && v < 2 * Pow128(9 - k)
    ensures VarintAfter(PrintVarint(v), k) == Some((v, |PrintVarint(v)|))
  {
    if v >= 128 {
      assert k < 9;
      VarintDecodesPrinted(v / 128, k + 1);
      assert PrintVarint(v)[1..] == PrintVarint(v / 128);
    }
  }

  lemma {:induction false} VarintBounds(b: seq<Byte>, k: nat)
    requires k <= 9 && VarintAfter(b, k).Some?
    ensures VarintAfter(b, k).value.0 < 2 * Pow128(9 - k) && VarintAfter(b, k).value.1 <= 10 - k
  {
    if b[0] >= 128 {
      VarintBounds(b[1..], k + 1);
    }
  }

  /** Varints carry exactly the 64-bit values, in at most ten bytes. */
  lemma VarintIs64Bit(b: seq<Byte>, v: nat, x: seq<Byte>)
    ensures Varint(b).Some? ==> Varint(b).value.0 < 0x1_0000_0000_0000_0000 && Varint(b).value.1 <= 10
    ensures v < 0x1_0000_0000_0000_0000 ==> Varint(PrintVarint(v) + x) == Some((v, |PrintVarint(v)|))
  {
    hide PrintVarint, VarintAfter, Pow128;
    Pow128Values();
    if Varint(b).Some? {
      VarintBounds(b, 0);
    }
    if v < 0x1_0000_0000_0000_0000 {
      VarintDecodesPrinted(v, 0);
      VarintIgnoresSuffix(PrintVarint(v), x, 0);
    }
  }

  // --------------------------------------------------------- what the values look like

  /** Each wire type's values: a varint, eight bytes, a length and that many bytes, four bytes. */
  lemma ValuesOfWireTypes(num: nat, v: nat, p: seq<Byte>)
    requires 1 <= num <= 0x1FFF_FFFF && v < 0x1_0000_0000_0000_0000 && |p| < 0x1_0000_0000_0000_0000
    ensures ValidRecord(Record(num, 0, PrintVarint(v)))
    ensures ValidRecord(Record(num, 1, p)) <==> |p| == 8
    ensures ValidRecord(Record(num, 2, PrintVarint(|p|) + p))
    ensures ValidRecord(Record(num, 5, p)) <==> |p| == 4
    ensures !ValidRecord(Record(num, 4, p)) && !ValidRecord(Record(num, 6, p)) && !ValidRecord(Record(num, 7, p))
  {
    hide PrintVarint, Varint;
    VarintIs64Bit([], v, []);
    VarintIs64Bit([], |p|, p);
    assert PrintVarint(v) + [] == PrintVarint(v);
  }

  lemma GroupEnds(num: nat, b: seq<Byte>, end: nat, n: nat)
    requires 1 <= end <= MAX_NESTED_NUMBER && Varint(b) == Some((end * 8 + 4, n))
    ensures GroupLength(num, b) == if end == num then Some(n) else None
  {
    hide Varint, ValueLength;
    assert (end * 8 + 4) / 8 == end && (end * 8 + 4) % 8 == 4;
  }

  /** A field number 0 or beyond 31 bits spoils a group. */
  lemma GroupNumbers(num: nat, field: nat, wireType: nat, x: seq<Byte>)
    requires wireType < 8 && field * 8 + wireType < 0x1_0000_0000_0000_0000
    requires field == 0 || field >= 0x8000_0000
    ensures GroupLength(num, PrintVarint(field * 8 + wireType) + x).None?
  {
    hide Varint, ValueLength, PrintVarint;
    VarintIs64Bit([], field * 8 + wireType, x);
    assert (field * 8 + wireType) / 8 == field;
  }

  lemma GroupGoesOn(num: nat, b: seq<Byte>, field: nat, wireType: nat, n: nat, len: nat)
    requires 1 <= field <= MAX_NESTED_NUMBER && wireType < 8 && wireType != 4
    requires Varint(b) == Some((field * 8 + wireType, n)) && ValueLength(field, wireType, b[n..]) == Some(len)
    ensures GroupLength(num, b) == match GroupLength(num, b[n + len..]) case None => None case Some(k) => Some(n + len + k)
  {
    hide Varint, ValueLength;
    assert (field * 8 + wireType) / 8 == field && (field * 8 + wireType) % 8 == wireType;
  }

  /** A record in front of the rest of a group. */
  lemma RecordInGroup(num: nat, r: Record, rest: seq<Byte>)
    requires ValidRecord(r)
    ensures GroupLength(num, PrintRecord(r) + rest) ==
            match GroupLength(num, rest) case None => None case Some(n) => Some(|PrintRecord(r)| + n)
  {
    hide PrintVarint, Varint, ValueLength, GroupLength;
    var tag := PrintVarint(r.num * 8 + r.wireType);
    var b := PrintRecord(r) + rest;
    assert b == tag + (r.value + rest);
    VarintIs64Bit([], r.num * 8 + r.wireType, r.value + rest);
    assert b[|tag|..] == r.value + rest;
    ValidHasType(r);
    ValueLengthIgnoresSuffix(r.num, r.wireType, r.value, rest);
    assert b[|tag| + |r.value|..] == rest;
    GroupGoesOn(num, b, r.num, r.wireType, |tag|, |r.value|);
  }

  /** A group's value is records and the end tag of its own number; another number's end tag spoils it. */
  lemma {:induction false} GroupIsRecords(num: nat, rs: seq<Record>, end: nat, x: seq<Byte>)
    requires 1 <= end <= MAX_FIELD_NUMBER && forall r :: r in rs ==> ValidRecord(r)
    ensures var g := Print(rs) + PrintVarint(end * 8 + 4);
            GroupLength(num, g + x) == if end == num then Some(|g|) else None
  {
    hide PrintVarint, Varint, ValueLength, GroupLength, PrintRecord, ValidRecord;
    var tag := PrintVarint(end * 8 + 4);
    var g := Print(rs) + tag;
    if rs == [] {
      assert g + x == tag + x;
      VarintIs64Bit([], end * 8 + 4, x);
      GroupEnds(num, g + x, end, |tag|);
    } else {
      var more := Print(rs[1..]) + tag;
      assert g + x == PrintRecord(rs[0]) + (more + x);
      GroupIsRecords(num, rs[1..], end, x);
      RecordInGroup(num, rs[0], more + x);
    }
  }

  lemma ValidHasType(r: Record)
    requires ValidRecord(r)
    ensures r.wireType != 4
  {
  }

  // ------------------------------------------------------------- parsed records are valid

  lemma {:induction false} VarintPrefix(b: seq<Byte>, k: nat)
    requires VarintAfter(b, k).Some?
    ensures VarintAfter(b[..VarintAfter(b, k).value.1], k) == VarintAfter(b, k)
    decreases |b|
  {
    var n := VarintAfter(b, k).value.1;
    if b[0] >= 128 {
      VarintPrefix(b[1..], k + 1);
      assert b[..n][1..] == b[1..][..n - 1];
    }
  }

  lemma TagPrefix(b: seq<Byte>, all: nat)
    requires Varint(b).Some? && Varint(b).value.1 <= all <= |b|
    ensures Varint(b[..all]) == Varint(b)
  {
    hide VarintAfter;
    VarintPrefix(b, 0);
    var n := Varint(b).value.1;
    VarintIgnoresSuffix(b[..n], b[n..all], 0);
    assert b[..all] == b[..n] + b[n..all];
  }

  /** A value's length depends on its own bytes only. */
  lemma {:induction false} ValuePrefix(num: nat, wireType: nat, b: seq<Byte>)
    requires ValueLength(num, wireType, b).Some?
    ensures ValueLength(num, wireType, b[..ValueLength(num, wireType, b).value]) == ValueLength(num, wireType, b)
    decreases |b|, 1
  {
    hide Varint, GroupLength;
    var len := ValueLength(num, wireType, b).value;
    if wireType == 0 || wireType == 2 {
      TagPrefix(b, len);
    } else if wireType == 3 {
      GroupPrefix(num, b);
    }
  }

  lemma {:induction false} GroupPrefix(num: nat, b: seq<Byte>)
    requires GroupLength(num, b).Some?
    ensures GroupLength(num, b[..GroupLength(num, b).value]) == GroupLength(num, b)
    decreases |b|, 0
  {
    hide Varint, ValueLength;
    var all := GroupLength(num, b).value;
    var c := b[..all];
    var (tag, n) := Varint(b).value;
    TagPrefix(b, all);
    if tag % 8 != 4 {
      var len := ValueLength(tag / 8, tag % 8, b[n..]).value;
      ValuePrefix(tag / 8, tag % 8, b[n..]);
      GroupPrefix(num, b[n + len..]);
      assert b[n..][..len] + b[n + len..all] == c[n..];
      ValueLengthIgnoresSuffix(tag / 8, tag % 8, b[n..][..len], b[n + len..all]);
      assert c[n + len..] == b[n + len..][..all - n - len];
    }
  }

  /** What parses are valid records: field numbers in range and whole values. */
  lemma {:induction false} ParsedAreValid(b: seq<Byte>, r: Record)
    requires WellFormed(b) && r in Parse(b).value
    ensures ValidRecord(r) && 1 <= r.num <= 0x1FFF_FFFF
    decreases |b|
  {
    hide Varint, ValueLength;
    var (first, n) := ParseRecord(b).value;
    if r == first {
      var (tag, k) := Varint(b).value;
      ValuePrefix(tag / 8, tag % 8, b[k..]);
      assert b[k..n] == b[k..][..n - k];
    } else {
      ParsedAreValid(b[n..], r);
    }
  }

  lemma TagDecodesPrinted(r: Record)
    requires ValidRecord(r)
    ensures var tag := r.num * 8 + r.wireType;
            Varint(PrintVarint(tag) + r.value) == Some((tag, |PrintVarint(tag)|))
  {
    hide PrintVarint, Varint;
    VarintIs64Bit([], r.num * 8 + r.wireType, r.value);
  }

  lemma ParseRecordInvertsPrint(r: Record, x: seq<Byte>)
    requires ValidRecord(r)
    ensures ParseRecord(PrintRecord(r) + x) == Some((r, |PrintRecord(r)|))
  {
    hide Varint, ValueLength, PrintVarint;
    TagDecodesPrinted(r);
    var b := PrintRecord(r);
    var k := |PrintVarint(r.num * 8 + r.wireType)|;
    assert b[k..] == r.value && b[k..k + |r.value|] == r.value;
    assert ParseRecord(b) == Some((r, |b|));
    ParseRecordIgnoresSuffix(b, x);
  }

  /** Printing any list of valid records and parsing it gives the list back. */
  lemma {:induction false} ParseInvertsPrint(rs: seq<Record>)
    requires forall r :: r in rs ==> ValidRecord(r)
    ensures Parse(Print(rs)) == Some(rs)
  {
    if rs != [] {
      var b := Print(rs);
      ParseRecordInvertsPrint(rs[0], Print(rs[1..]));
      assert b[|PrintRecord(rs[0])|..] == Print(rs[1..]);
      ParseInvertsPrint(rs[1..]);
      assert rs == [rs[0]] + rs[1..];
    }
  }
}
