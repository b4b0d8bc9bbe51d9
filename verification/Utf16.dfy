/**
 UTF-16 offsets of message text.  A Go string is taken as its runes: ranging over a string
 only ever yields Unicode scalar values.  Code-unit search agrees with rune search because
 UTF-16 is self-synchronizing (section 2.1 of RFC 2781): a first or only unit never looks
 like a second one.
 */
module Utf16 {

  type Rune = r: int | 0 <= r < 0xD800 || 0xE000 <= r <= 0x10FFFF
  type Unit = u: int | 0 <= u <= 0xFFFF

  function EncodeRune(r: Rune): (us: seq<Unit>)
    ensures |us| == if r > 0xFFFF then 2 else 1
  {
    if r <= 0xFFFF then [r]
    else [0xD800 + (r - 0x10000) / 0x400, 0xDC00 + (r - 0x10000) % 0x400]
  }

  function Encode(s: seq<Rune>): (us: seq<Unit>)
  {
    if s == [] then [] else EncodeRune(s[0]) + Encode(s[1..])
  }

  predicate IsLow(u: Unit) {
    0xDC00 <= u <= 0xDFFF
  }

  /** Offset, in code units, of rune index k. */
  function Offset(s: seq<Rune>, k: nat): (o: nat)
    requires k <= |s|
  {
    |Encode(s[..k])|
  }

  /** Decoding by section 2.2 of RFC 2781: a first surrogate and the unit after it make one rune. */
  function Decode(us: seq<Unit>): (s: seq<int>) {
    if us == [] then []
    else if 0xD800 <= us[0] <= 0xDBFF && |us| >= 2 then
      [0x10000 + (us[0] - 0xD800) * 0x400 + (us[1] - 0xDC00)] + Decode(us[2..])
    else [us[0]] + Decode(us[1..])
  }

  /** Encoding loses nothing: decoding gives the runes back. */
  lemma {:induction false} DecodeInvertsEncode(s: seq<Rune>)
    ensures Decode(Encode(s)) == s
  {
    if s != [] {
      var us, rest := Encode(s), Encode(s[1..]);
      DecodeInvertsEncode(s[1..]);
      assert us[|EncodeRune(s[0])|..] == rest;
    }
  }

  // ------------------------------------------------------------------- lengths

  lemma Associative(u: seq<Unit>, v: seq<Unit>, w: seq<Unit>)
    ensures u + (v + w) == u + v + w
  {
  }

  lemma ConsConcat(s: seq<Rune>, t: seq<Rune>)
    requires s != []
    ensures (s + t)[0] == s[0] && (s + t)[1..] == s[1..] + t
  {
  }

  lemma {:induction false} EncodeConcat(s: seq<Rune>, t: seq<Rune>)
    ensures Encode(s + t) == Encode(s) + Encode(t)
  {
    hide EncodeRune;
    if s == [] {
      assert s + t == t;
    } else {
      EncodeConcat(s[1..], t);
      ConsConcat(s, t);
      Associative(EncodeRune(s[0]), Encode(s[1..]), Encode(t));
    }
  }

  lemma EncodeSplit(s: seq<Rune>, k: nat)
    requires k <= |s|
    ensures Encode(s) == Encode(s[..k]) + Encode(s[k..])
  {
    hide Encode;
    EncodeConcat(s[..k], s[k..]);
    assert s == s[..k] + s[k..];
  }

  lemma EncodeStep(s: seq<Rune>, k: nat)
    requires k < |s|
    ensures Encode(s[..k + 1]) == Encode(s[..k]) + EncodeRune(s[k])
  {
    assert Encode([s[k]]) == EncodeRune(s[k]);
    hide Encode;
    EncodeConcat(s[..k], [s[k]]);
    assert s[..k + 1] == s[..k] + [s[k]];
  }

  method Utf16Len(s: seq<Rune>) returns (n: nat)
    ensures n == |Encode(s)|
  {
    n := 0;
    for i := 0 to |s|
      invariant n == |Encode(s[..i])|
    {
      EncodeStep(s, i);
      if s[i] > 0xFFFF {
        n := n + 2;
      } else {
        n := n + 1;
      }
    }
    assert s[..|s|] == s;
  }

  method RuneIndexToUtf16(s: seq<Rune>, runeIdx: int) returns (off: nat)
    ensures off == Offset(s, if runeIdx < 0 then 0 else if runeIdx < |s| then runeIdx else |s|)
  {
    off := 0;
    var i := 0;
    while i < |s|
      invariant 0 <= i <= |s| && (i == 0 || i <= runeIdx)
      invariant off == Offset(s, i)
    {
      if i >= runeIdx {
        break;
      }
      EncodeStep(s, i);
      if s[i] > 0xFFFF {
        off := off + 2;
      } else {
        off := off + 1;
      }
      i := i + 1;
    }
  }

  // ----------------------------------------------------------- self-synchronization

  /** sub's code units stand at index i of us. */
  ghost predicate UnitsAt(us: seq<Unit>, sub: seq<Unit>, i: int) {
    0 <= i && i + |sub| <= |us| && us[i..i + |sub|] == sub
  }

  /** sub's runes stand at index k of text. */
  ghost predicate RunesAt(text: seq<Rune>, sub: seq<Rune>, k: int) {
    0 <= k && k + |sub| <= |text| && text[k..k + |sub|] == sub
  }

  /** Every code-unit index is either the offset of some rune or holds a second surrogate. */
  lemma {:induction false} BoundaryOrLow(s: seq<Rune>, i: nat) returns (k: nat)
    requires i < |Encode(s)|
    ensures k < |s|
    ensures Offset(s, k) == i || (IsLow(Encode(s)[i]) && Offset(s, k) + 1 == i && s[k] > 0xFFFF)
  {
    var w := |EncodeRune(s[0])|;
    if i < w {
      k := 0;
    } else {
      var j := BoundaryOrLow(s[1..], i - w);
      k := j + 1;
      assert s[..k] == [s[0]] + s[1..][..j];
      EncodeConcat([s[0]], s[1..][..j]);
      assert Encode([s[0]]) == EncodeRune(s[0]);
    }
  }

  lemma SplitPrefix(a: seq<Unit>, b: seq<Unit>, c: seq<Unit>, d: seq<Unit>)
    requires |a| == |c| && |a + b| <= |c + d| && (c + d)[..|a + b|] == a + b
    ensures a == c && |b| <= |d| && d[..|b|] == b
  {
    forall i | 0 <= i < |a|
      ensures a[i] == c[i]
    {
      assert (a + b)[i] == (c + d)[i];
    }
    forall i | 0 <= i < |b|
      ensures d[i] == b[i]
    {
      assert (a + b)[|a| + i] == (c + d)[|a| + i];
    }
  }

  /** Runes are a prefix code: equal encoded prefixes come from equal rune prefixes. */
  lemma {:induction false} EncodedPrefix(t: seq<Rune>, sub: seq<Rune>)
    requires |Encode(sub)| <= |Encode(t)| && Encode(t)[..|Encode(sub)|] == Encode(sub)
    ensures |sub| <= |t| && t[..|sub|] == sub
  {
    if sub != [] {
      var a, b := EncodeRune(sub[0]), Encode(sub[1..]);
      assert t != [];
      var c, d := EncodeRune(t[0]), Encode(t[1..]);
      assert (a + b)[0] == (c + d)[0] == a[0] == c[0];
      SplitPrefix(a, b, c, d);
      assert t[0] == sub[0];
      EncodedPrefix(t[1..], sub[1..]);
      assert t[..|sub|] == [t[0]] + t[1..][..|sub| - 1];
    }
  }

  /** A code-unit match always begins at a rune boundary and is a rune match there. */
  lemma UnitMatchIsRuneMatch(text: seq<Rune>, sub: seq<Rune>, i: int) returns (k: nat)
    requires sub != [] && UnitsAt(Encode(text), Encode(sub), i)
    ensures RunesAt(text, sub, k) && Offset(text, k) == i
  {
    var us, vs := Encode(text), Encode(sub);
    assert !IsLow(vs[0]);
    assert us[i] == vs[0];
    k := BoundaryOrLow(text, i);
    EncodeSplit(text, k);
    assert us[i..] == Encode(text[k..]);
    assert Encode(text[k..])[..|vs|] == us[i..i + |vs|];
    EncodedPrefix(text[k..], sub);
    assert text[k..][..|sub|] == text[k..k + |sub|];
  }

  /** A rune match is a code-unit match at its offset. */
  lemma RuneMatchIsUnitMatch(text: seq<Rune>, sub: seq<Rune>, k: int)
    requires RunesAt(text, sub, k)
    ensures UnitsAt(Encode(text), Encode(sub), Offset(text, k))
  {
    EncodeSplit(text, k);
    EncodeSplit(text[k..], |sub|);
    assert text[k..][..|sub|] == sub;
  }

  /** Offsets grow strictly with the rune index. */
  lemma {:induction false} OffsetIncreases(s: seq<Rune>, j: nat, k: nat)
    requires j < k <= |s|
    ensures Offset(s, j) < Offset(s, k)
    decreases k
  {
    EncodeStep(s, k - 1);
    if j < k - 1 {
      OffsetIncreases(s, j, k - 1);
    }
  }

  // ---------------------------------------------------------------- mention spans

  /** First rune index at which sub occurs. */
  ghost predicate FirstAt(text: seq<Rune>, sub: seq<Rune>, k: int) {
    RunesAt(text, sub, k) && forall j :: 0 <= j < k ==> !RunesAt(text, sub, j)
  }

  /** The first code-unit match is the offset of the first rune match. */
  lemma FirstUnitMatch(text: seq<Rune>, sub: seq<Rune>, i: int) returns (k: nat)
    requires sub != [] && UnitsAt(Encode(text), Encode(sub), i)
    requires forall h :: 0 <= h < i ==> !UnitsAt(Encode(text), Encode(sub), h)
    ensures FirstAt(text, sub, k) && Offset(text, k) == i
  {
    k := UnitMatchIsRuneMatch(text, sub, i);
    forall j | 0 <= j < k
      ensures !RunesAt(text, sub, j)
    {
      if RunesAt(text, sub, j) {
        RuneMatchIsUnitMatch(text, sub, j);
        OffsetIncreases(text, j, k);
      }
    }
  }

  method EncodeText(s: seq<Rune>) returns (us: seq<Unit>)
    ensures us == Encode(s)
  {
    us := [];
    for i := 0 to |s|
      invariant us == Encode(s[..i])
    {
      EncodeStep(s, i);
      us := us + EncodeRune(s[i]);
    }
    assert s[..|s|] == s;
  }

  /** The inner comparison loop: do sub's units stand at index i? */
  method MatchesAt(units: seq<Unit>, subUnits: seq<Unit>, i: nat) returns (matches: bool)
    requires i + |subUnits| <= |units|
    ensures matches <==> UnitsAt(units, subUnits, i)
  {
    var j := 0;
    while j < |subUnits|
      invariant 0 <= j <= |subUnits|
      invariant forall h :: 0 <= h < j ==> units[i + h] == subUnits[h]
    {
      if units[i + j] != subUnits[j] {
        assert units[i..i + |subUnits|][j] != subUnits[j];
        return false;
      }
      j := j + 1;
    }
    assert units[i..i + |subUnits|] == subUnits;
    return true;
  }

  lemma NoUnitMatchNoRuneMatch(text: seq<Rune>, sub: seq<Rune>)
    requires forall i :: !UnitsAt(Encode(text), Encode(sub), i)
    ensures forall k :: !RunesAt(text, sub, k)
  {
    forall k
      ensures !RunesAt(text, sub, k)
    {
      if RunesAt(text, sub, k) {
        RuneMatchIsUnitMatch(text, sub, k);
      }
    }
  }

  /**
   The span of the first occurrence of sub, in code units: found exactly when sub is nonempty
   and occurs as runes, starting at the offset of its first rune occurrence.
   */
  method MentionSpan(text: seq<Rune>, sub: seq<Rune>) returns (start: nat, end: nat, ok: bool)
    ensures ok <==> sub != [] && exists k :: RunesAt(text, sub, k)
    ensures ok ==> exists k :: FirstAt(text, sub, k) && start == Offset(text, k)
    ensures ok ==> end == start + |Encode(sub)|
    ensures !ok ==> start == 0 && end == 0
  {
    var units := EncodeText(text);
    var subUnits := EncodeText(sub);
    start, end, ok := 0, 0, false;
    if |subUnits| == 0 {
      return;
    }
    hide RunesAt, Encode, Offset;
    var i := 0;
    while i + |subUnits| <= |units|
      invariant 0 <= i
      invariant forall h :: 0 <= h < i ==> !UnitsAt(units, subUnits, h)
    {
      var matches := MatchesAt(units, subUnits, i);
      if matches {
        ghost var k := FirstUnitMatch(text, sub, i);
        return i, i + |subUnits|, true;
      }
      i := i + 1;
    }
    NoUnitMatchNoRuneMatch(text, sub);
  }
}
