/**
 Snowflake ids: 41 bits of milliseconds, a fixed data-center and worker field, and a sequence
 number meant to have 12 bits.  The sequence is Or-ed in without a mask, which gives the exact
 bound of the uniqueness promise.
 */
module Snowflake {
  import opened Bits

  const EPOCH: int := 1577836800000
  const PER_MILLI: nat := 4096

  /** The milliseconds for which the id is a nonnegative 64-bit value. */
  predicate InRange(ts: int) {
    EPOCH <= ts < EPOCH + Pow2(41)
  }

  /** ((ts - epoch) << 22) | (1 << 17) | (1 << 12) | seq */
  function Id(ts: int, n: nat): (id: nat)
    requires InRange(ts)
  {
    Or(Or(Or(Shl(ts - EPOCH, 22), Shl(1, 17)), Shl(1, 12)), n)
  }

  datatype State = State(sequence: nat, last: int)

  const INITIAL: State := State(0, 0)

  function Next(s: State, ts: int): (s': State) {
    if ts == s.last then State(s.sequence + 1, ts) else State(0, ts)
  }

  class Generator {
    var sequence: nat
    var last: int

    constructor ()
      ensures State(sequence, last) == INITIAL
    {
      sequence, last := 0, 0;
    }

    method Generate(ts: int) returns (id: nat)
      requires InRange(ts)
      modifies this
      ensures State(sequence, last) == Next(old(State(sequence, last)), ts)
      ensures id == Id(ts, sequence)
    {
      hide Bits.Or, Bits.Shl, Bits.Pow2;
      if ts == last {
        sequence := sequence + 1;
      } else {
        sequence := 0;
        last := ts;
      }
      id := Or(Or(Or(Shl(ts - EPOCH, 22), Shl(1, 17)), Shl(1, 12)), sequence);
    }
  }

  /** State after the clock readings of a run, from program start. */
  function After(clock: seq<int>): (s: State) {
    if clock == [] then INITIAL else Next(After(clock[..|clock| - 1]), clock[|clock| - 1])
  }

  /** The id the n-th call of a run returns. */
  function IdAt(clock: seq<int>, n: nat): (id: nat)
    requires n < |clock| && InRange(clock[n])
  {
    Id(clock[n], After(clock[..n + 1]).sequence)
  }

  /** Every reading can be packed into an id. */
  ghost predicate Readable(clock: seq<int>) {
    forall i :: 0 <= i < |clock| ==> InRange(clock[i])
  }

  ghost predicate ValidClock(clock: seq<int>) {
    Readable(clock) && forall i, j :: 0 <= i <= j < |clock| ==> clock[i] <= clock[j]
  }

  /** The calls of a millisecond follow one another: the clock never comes back to a reading it left. */
  ghost predicate Contiguous(clock: seq<int>) {
    forall i, h, j :: 0 <= i <= h <= j < |clock| && clock[i] == clock[j] ==> clock[h] == clock[i]
  }

  /** No reading comes back 4096 calls later. */
  ghost predicate AtMostPerMilli(clock: seq<int>) {
    forall i, j :: 0 <= i && j == i + PER_MILLI && j < |clock| ==> clock[i] != clock[j]
  }

  // ------------------------------------------------------------------- packing

  lemma Pow2Values()
    ensures Pow2(12) == 4096 && Pow2(17) == 0x2_0000 && Pow2(22) == 0x40_0000
    ensures Pow2(41) == 0x200_0000_0000 && Pow2(63) == 0x8000_0000_0000_0000
  {
    assert Pow2(2) == 4 && Pow2(1) == 2;
    hide Bits.Pow2;
    Pow2Adds(2, 2);
    Pow2Adds(4, 1);
    Pow2Adds(4, 4);
    Pow2Adds(8, 4);
    Pow2Adds(12, 5);
    Pow2Adds(17, 5);
    Pow2Adds(17, 2);
    Pow2Adds(22, 19);
    Pow2Adds(41, 22);
  }

  lemma {:induction false} Pow2Adds(m: nat, n: nat)
    ensures Pow2(m + n) == Pow2(m) * Pow2(n)
  {
    if n > 0 {
      Pow2Adds(m, n - 1);
      assert Pow2(m) * Pow2(n) == 2 * (Pow2(m) * Pow2(n - 1));
    }
  }

  lemma {:induction false} ShlIsTimes(x: nat, n: nat)
    ensures Shl(x, n) == x * Pow2(n)
  {
    if n > 0 {
      ShlIsTimes(x, n - 1);
      assert x * Pow2(n) == 2 * (x * Pow2(n - 1));
    }
  }

  /** The fields above the sequence, as one number. */
  function Head(ts: int): (h: nat)
    requires InRange(ts)
  {
    (ts - EPOCH) * 1024 + 33
  }

  lemma HeadIsPacked(ts: int)
    requires InRange(ts)
    ensures Or(Or(Shl(ts - EPOCH, 22), Shl(1, 17)), Shl(1, 12)) == Shl(Head(ts), 12)
  {
    hide Bits.Or, Bits.Shl, Bits.Pow2;
    var t := ts - EPOCH;
    Pow2Values();
    ShlIsTimes(t, 22);
    ShlIsTimes(1, 17);
    ShlIsTimes(1, 12);
    ShlIsTimes(t * 32 + 1, 17);
    ShlIsTimes(Head(ts), 12);
    OrLowField(t, Shl(1, 17), 22);
    OrLowField(t * 32 + 1, Shl(1, 12), 17);
  }

  /** Inside the 12-bit sequence the fields do not overlap. */
  lemma IdValue(ts: int, n: nat)
    requires InRange(ts) && n < PER_MILLI
    ensures Id(ts, n) == (ts - 1577836800000) * 0x40_0000 + 0x2_0000 + 0x1000 + n
    ensures Id(ts, n) < 0x8000_0000_0000_0000
  {
    Pow2Values();
    HeadIsPacked(ts);
    ShlIsTimes(Head(ts), 12);
    OrLowField(Head(ts), n, 12);
  }

  /** One past the 12-bit sequence, the carry bit is already set and the first id comes back. */
  lemma IdWrapsAround(ts: int)
    requires InRange(ts)
    ensures Id(ts, PER_MILLI) == Id(ts, 0)
  {
    hide Bits.Or, Bits.Shl, Bits.Pow2;
    var h := Head(ts);
    HeadIsPacked(ts);
    assert h % 2 == 1 by { assert h == 2 * ((ts - EPOCH) * 512 + 16) + 1; }
    OrSetField(h);
    OrZero(Shl(h, 12));
  }

  lemma OrSetField(h: nat)
    requires h % 2 == 1
    ensures Or(Shl(h, 12), PER_MILLI) == Shl(h, 12)
  {
    hide Bits.Or, Bits.Shl, Bits.Pow2;
    Pow2Values();
    ShlIsTimes(1, 12);
    OrShifted(h, 1, 12);
    OrSetBit(h);
  }

  lemma OrSetBit(x: nat)
    requires x % 2 == 1
    ensures Or(x, 1) == x
  {
    OrDigit(x, 1);
    OrZero(x / 2);
  }

  // --------------------------------------------------------------------- runs

  /** The sequence number counts the calls since the clock arrived at its reading. */
  lemma {:induction false} SequenceCounts(clock: seq<int>, n: nat)
    requires Readable(clock) && n < |clock|
    ensures var k := After(clock[..n + 1]).sequence;
            && k <= n && (forall h :: n - k <= h <= n ==> clock[h] == clock[n])
            && (k < n ==> clock[n - k - 1] != clock[n])
            && After(clock[..n + 1]).last == clock[n]
  {
    var c := clock[..n + 1];
    assert c[..|c| - 1] == clock[..n];
    if n == 0 {
      assert clock[..0] == [];
    } else {
      SequenceCounts(clock, n - 1);
    }
  }

  /** Where call n's reading began, the sequence was 0; since then it grew by one a call. */
  lemma {:induction false} SequenceFrom(clock: seq<int>, i: nat, n: nat)
    requires Readable(clock) && i <= n < |clock|
    requires forall h :: i <= h <= n ==> clock[h] == clock[i]
    ensures After(clock[..n + 1]).sequence == After(clock[..i + 1]).sequence + (n - i)
    decreases n
  {
    if i < n {
      SequenceFrom(clock, i, n - 1);
      SequenceCounts(clock, n - 1);
      var c := clock[..n + 1];
      assert c[..|c| - 1] == clock[..n];
    }
  }

  lemma BlockStart(clock: seq<int>, n: nat) returns (first: nat)
    requires Readable(clock) && n < |clock|
    ensures first <= n && After(clock[..first + 1]).sequence == 0
    ensures forall h :: first <= h <= n ==> clock[h] == clock[n]
  {
    SequenceCounts(clock, n);
    first := n - After(clock[..n + 1]).sequence;
    SequenceFrom(clock, first, n);
  }

  lemma SequenceBounded(clock: seq<int>, n: nat)
    requires Readable(clock) && AtMostPerMilli(clock) && n < |clock|
    ensures After(clock[..n + 1]).sequence < PER_MILLI
  {
    if After(clock[..n + 1]).sequence >= PER_MILLI {
      SameReading(clock, n, n - PER_MILLI);
    }
  }

  lemma SameReading(clock: seq<int>, n: nat, h: int)
    requires Readable(clock) && n < |clock|
    requires n - After(clock[..n + 1]).sequence <= h <= n
    ensures 0 <= h && clock[h] == clock[n]
  {
    SequenceCounts(clock, n);
  }

  /** Under the bound, consecutive ids of a non-decreasing clock increase. */
  lemma ConsecutiveIncrease(clock: seq<int>, n: nat)
    requires ValidClock(clock) && AtMostPerMilli(clock) && n + 1 < |clock|
    ensures IdAt(clock, n) < IdAt(clock, n + 1)
    ensures IdAt(clock, n + 1) < 0x8000_0000_0000_0000
  {
    SequenceBounded(clock, n);
    SequenceBounded(clock, n + 1);
    var c := clock[..n + 2];
    assert c[..|c| - 1] == clock[..n + 1];
    SequenceCounts(clock, n);
    IdValue(clock[n], After(clock[..n + 1]).sequence);
    IdValue(clock[n + 1], After(clock[..n + 2]).sequence);
  }

  lemma {:induction false} IdsIncrease(clock: seq<int>, i: nat, j: nat)
    requires ValidClock(clock) && AtMostPerMilli(clock) && i < j < |clock|
    ensures IdAt(clock, i) < IdAt(clock, j)
    decreases j
  {
    ConsecutiveIncrease(clock, j - 1);
    if i < j - 1 {
      IdsIncrease(clock, i, j - 1);
    }
  }

  /** Calls of contiguous milliseconds within the bound get different ids. */
  lemma ContiguousIdsDiffer(clock: seq<int>, i: nat, j: nat)
    requires Readable(clock) && Contiguous(clock) && AtMostPerMilli(clock) && i < j < |clock|
    ensures IdAt(clock, i) != IdAt(clock, j)
  {
    SequenceBounded(clock, i);
    SequenceBounded(clock, j);
    IdValue(clock[i], After(clock[..i + 1]).sequence);
    IdValue(clock[j], After(clock[..j + 1]).sequence);
    if clock[i] == clock[j] {
      SequenceFrom(clock, i, j);
    }
  }

  /** A reading the clock left and came back to repeats that reading's first id. */
  lemma ReturnRepeatsId(clock: seq<int>, i: nat, h: nat, j: nat) returns (a: nat, b: nat)
    requires Readable(clock) && i < h < j < |clock| && clock[i] == clock[j] && clock[h] != clock[i]
    ensures a < b < |clock| && IdAt(clock, a) == IdAt(clock, b)
  {
    a := BlockStart(clock, i);
    b := BlockStart(clock, j);
    assert clock[a] == clock[i] && clock[b] == clock[j];
  }

  /** A 4097th call in one unbroken millisecond repeats that millisecond's first id. */
  lemma RepeatedId(clock: seq<int>, i: nat) returns (first: nat)
    requires Readable(clock) && i + PER_MILLI < |clock|
    requires forall h :: i <= h <= i + PER_MILLI ==> clock[h] == clock[i]
    ensures first <= i && IdAt(clock, first) == IdAt(clock, first + PER_MILLI)
  {
    first := BlockStart(clock, i);
    assert forall h :: first <= h <= first + PER_MILLI ==> clock[h] == clock[first];
    SequenceFrom(clock, first, first + PER_MILLI);
    IdWrapsAround(clock[first]);
  }

  ghost predicate DistinctIds(clock: seq<int>)
    requires Readable(clock)
  {
    forall i, j :: 0 <= i < j < |clock| ==> IdAt(clock, i) != IdAt(clock, j)
  }

  /** For every clock, also one that steps back: the ids of a run are pairwise distinct exactly when the
      calls of each millisecond are contiguous and at most 4096. */
  lemma UniqueExactlyWhen(clock: seq<int>)
    requires Readable(clock)
    ensures DistinctIds(clock) <==> Contiguous(clock) && AtMostPerMilli(clock)
  {
    if Contiguous(clock) && AtMostPerMilli(clock) {
      forall i, j | 0 <= i < j < |clock|
        ensures IdAt(clock, i) != IdAt(clock, j)
      {
        ContiguousIdsDiffer(clock, i, j);
      }
    } else if !Contiguous(clock) {
      var i, h, j :| 0 <= i <= h <= j < |clock| && clock[i] == clock[j] && clock[h] != clock[i];
      var a, b := ReturnRepeatsId(clock, i, h, j);
    } else {
      var i :| 0 <= i && i + PER_MILLI < |clock| && clock[i] == clock[i + PER_MILLI];
      var first := RepeatedId(clock, i);
    }
  }

  /** With a non-decreasing clock only the bound remains. */
  lemma UniqueExactlyUnderBound(clock: seq<int>)
    requires ValidClock(clock)
    ensures DistinctIds(clock) <==> AtMostPerMilli(clock)
  {
    UniqueExactlyWhen(clock);
  }

  /** Without a non-decreasing clock even two calls may collide: the clock steps back one millisecond. */
  lemma ClockStepBackCollides(ts: int)
    requires InRange(ts) && InRange(ts + 1)
    ensures var clock := [ts, ts + 1, ts];
            IdAt(clock, 0) == IdAt(clock, 2)
  {
    var clock := [ts, ts + 1, ts];
    assert clock[..1] == [ts] && clock[..2] == [ts, ts + 1] && clock[..3] == clock;
    assert clock[..3][..2] == clock[..2] && clock[..2][..1] == clock[..1] && clock[..1][..0] == [];
    assert After(clock[..1]) == State(0, ts);
    assert After(clock[..2]) == State(0, ts + 1);
    assert After(clock[..3]) == State(0, ts);
  }
}
