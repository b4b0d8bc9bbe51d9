/**
 The bounded insertion-ordered cache as a list of entries, and what its operations do over
 whole histories.  A maximum of zero or less means unbounded.
 */
module OrderedCache {
  import opened Wrappers

  datatype Entry<K, V> = Entry(key: K, value: V)

  type Cache<K, V> = seq<Entry<K, V>>

  function Values<K, V>(c: Cache<K, V>): (vs: seq<V>)
    ensures |vs| == |c| && forall i :: 0 <= i < |c| ==> vs[i] == c[i].value
  {
    seq(|c|, i requires 0 <= i < |c| => c[i].value)
  }

  predicate Has<K(==), V>(c: Cache<K, V>, k: K) {
    exists i :: 0 <= i < |c| && c[i].key == k
  }

  ghost predicate Distinct<K, V>(c: Cache<K, V>) {
    forall i, j :: 0 <= i < j < |c| ==> c[i].key != c[j].key
  }

  function Get<K(==), V>(c: Cache<K, V>, k: K): (r: Option<V>)
    ensures r.Some? <==> Has(c, k)
    ensures r.Some? ==> exists i :: 0 <= i < |c| && c[i] == Entry(k, r.value)
  {
    if c == [] then None
    else if c[0].key == k then
      assert c[0] == Entry(k, c[0].value);
      Some(c[0].value)
    else
      var r := Get(c[1..], k);
      assert forall i :: 0 <= i < |c| - 1 ==> c[1..][i] == c[i + 1];
      assert Has(c, k) <==> Has(c[1..], k) by {
        if i :| 0 <= i < |c| && c[i].key == k {
          assert c[1..][i - 1].key == k;
        }
      }
      r
  }

  /** Replace the value of an existing key in place. */
  function Overwrite<K(==), V>(c: Cache<K, V>, k: K, v: V): (r: Cache<K, V>)
    ensures |r| == |c|
    ensures forall i :: 0 <= i < |c| ==> r[i] == if c[i].key == k then Entry(k, v) else c[i]
  {
    seq(|c|, i requires 0 <= i < |c| => if c[i].key == k then Entry(k, v) else c[i])
  }

  predicate Full<K, V>(c: Cache<K, V>, max: int) {
    max > 0 && |c| >= max
  }

  /** Overwrite in place, or append, dropping the oldest entry of a full cache first. */
  function Put<K(==), V>(c: Cache<K, V>, max: int, k: K, v: V): (r: Cache<K, V>)
  {
    if Has(c, k) then Overwrite(c, k, v)
    else (if Full(c, max) then c[1..] else c) + [Entry(k, v)]
  }

  function Drop<K(==), V>(c: Cache<K, V>, k: K): (r: Cache<K, V>)
  {
    if c == [] then []
    else if c[0].key == k then c[1..]
    else [c[0]] + Drop(c[1..], k)
  }

  // -------------------------------------------------------------- lookups as a map

  /** In a duplicate-free list a lookup succeeds with exactly the entry that stands there. */
  lemma {:induction false} GetIsMembership<K, V>(c: Cache<K, V>, k: K, v: V)
    requires Distinct(c)
    ensures Get(c, k) == Some(v) <==> Entry(k, v) in c
  {
    if c != [] {
      assert Distinct(c[1..]);
      GetIsMembership(c[1..], k, v);
      assert c == [c[0]] + c[1..];
    }
  }

  lemma PutDistinct<K, V>(c: Cache<K, V>, max: int, k: K, v: V)
    requires Distinct(c)
    ensures Distinct(Put(c, max, k, v))
  {
  }

  /** A put changes its own key and, at most, forgets the oldest one. */
  lemma PutGet<K, V>(c: Cache<K, V>, max: int, k: K, v: V, x: K)
    requires Distinct(c)
    ensures Get(Put(c, max, k, v), x) ==
            if x == k then Some(v)
            else if !Has(c, k) && 0 < max <= |c| && c[0].key == x then None
            else Get(c, x)
  {
    var r := Put(c, max, k, v);
    PutDistinct(c, max, k, v);
    if x == k {
      if Has(c, k) {
        var i :| 0 <= i < |c| && c[i].key == k;
        assert r[i] == Entry(k, v);
      } else {
        assert r[|r| - 1] == Entry(k, v);
      }
      GetIsMembership(r, k, v);
    } else {
      OtherKeysStay(c, max, k, v, x);
    }
  }

  /** A put adds an entry unless it overwrites one or the maximum is reached. */
  lemma PutSize<K, V>(c: Cache<K, V>, max: int, k: K, v: V)
    ensures |Put(c, max, k, v)| == if Has(c, k) || 0 < max <= |c| then |c| else |c| + 1
  {
  }

  lemma OtherKeysStay<K, V>(c: Cache<K, V>, max: int, k: K, v: V, x: K)
    requires Distinct(c) && x != k
    ensures Get(Put(c, max, k, v), x) ==
            if !Has(c, k) && 0 < max <= |c| && c[0].key == x then None else Get(c, x)
  {
    hide Get;
    var r := Put(c, max, k, v);
    var d := if !Has(c, k) && Full(c, max) then c[1..] else c;
    PutDistinct(c, max, k, v);
    assert Distinct(d);
    forall w
      ensures Entry(x, w) in r <==> Entry(x, w) in d
    {
      if Entry(x, w) in d {
        var i :| 0 <= i < |d| && d[i] == Entry(x, w);
        assert r[i] == Entry(x, w);
      }
    }
    SameEntries(r, d, x);
    if d != c {
      GetTail(c, x);
    }
  }

  lemma GetTail<K, V>(c: Cache<K, V>, x: K)
    requires Distinct(c) && c != []
    ensures Get(c[1..], x) == if c[0].key == x then None else Get(c, x)
  {
    if c[0].key == x && Get(c[1..], x).Some? {
      GetIsMembership(c[1..], x, Get(c[1..], x).value);
    }
  }

  lemma SameEntries<K, V>(c: Cache<K, V>, d: Cache<K, V>, x: K)
    requires Distinct(c) && Distinct(d)
    requires forall w :: Entry(x, w) in c <==> Entry(x, w) in d
    ensures Get(c, x) == Get(d, x)
  {
    if Get(c, x).Some? {
      GetIsMembership(c, x, Get(c, x).value);
      GetIsMembership(d, x, Get(c, x).value);
    } else if Get(d, x).Some? {
      GetIsMembership(c, x, Get(d, x).value);
      GetIsMembership(d, x, Get(d, x).value);
    }
  }

  lemma HeadKeyIsUnique<K, V>(c: Cache<K, V>, e: Entry<K, V>)
    requires Distinct(c) && c != [] && e in c[1..]
    ensures e.key != c[0].key
  {
    var i :| 0 <= i < |c| - 1 && c[1..][i] == e;
    assert c[i + 1] == e;
  }

  lemma {:induction false} DropEntry<K, V>(c: Cache<K, V>, k: K, e: Entry<K, V>)
    requires Distinct(c)
    ensures e in Drop(c, k) <==> e in c && e.key != k
  {
    if c != [] {
      DropEntry(c[1..], k, e);
      assert c == [c[0]] + c[1..];
      if e in c[1..] {
        HeadKeyIsUnique(c, e);
      }
    }
  }

  lemma {:induction false} DropDistinct<K, V>(c: Cache<K, V>, k: K)
    requires Distinct(c)
    ensures Distinct(Drop(c, k))
  {
    if c != [] {
      DropDistinct(c[1..], k);
      forall e | e in Drop(c[1..], k)
        ensures e.key != c[0].key
      {
        DropEntry(c[1..], k, e);
        HeadKeyIsUnique(c, e);
      }
      ConsDistinct(c[0], Drop(c[1..], k));
    }
  }

  lemma ConsDistinct<K, V>(e: Entry<K, V>, c: Cache<K, V>)
    requires Distinct(c) && forall f :: f in c ==> f.key != e.key
    ensures Distinct([e] + c)
  {
    var r := [e] + c;
    forall i, j | 0 <= i < j < |r|
      ensures r[i].key != r[j].key
    {
      assert r[j] == c[j - 1] && c[j - 1] in c;
    }
  }

  /** A drop removes its own key and nothing else. */
  lemma DropGet<K, V>(c: Cache<K, V>, k: K, x: K)
    requires Distinct(c)
    ensures Get(Drop(c, k), x) == if x == k then None else Get(c, x)
  {
    DropDistinct(c, k);
    var r := Drop(c, k);
    forall w
      ensures Entry(x, w) in r <==> Entry(x, w) in c && x != k
    {
      DropEntry(c, k, Entry(x, w));
    }
    if x != k {
      SameEntries(r, c, x);
    } else if Get(r, x).Some? {
      GetIsMembership(r, x, Get(r, x).value);
    }
  }

  // ------------------------------------------------------------------- histories

  datatype Op<K, V> = SetOp(key: K, value: V) | DeleteOp(key: K)

  function Step<K(==), V>(c: Cache<K, V>, max: int, op: Op<K, V>): (r: Cache<K, V>) {
    match op
    case SetOp(k, v) => Put(c, max, k, v)
    case DeleteOp(k) => Drop(c, k)
  }

  /** The cache after a history of operations. */
  function History<K(==), V>(ops: seq<Op<K, V>>, max: int): (c: Cache<K, V>) {
    if ops == [] then [] else Step(History(ops[..|ops| - 1], max), max, ops[|ops| - 1])
  }

  /** The operation at which a key last went from absent to present; -1 if it never did. */
  function InsertedAt<K(==), V>(ops: seq<Op<K, V>>, max: int, k: K): (n: int)
    ensures -1 <= n < |ops|
  {
    if ops == [] then -1
    else
      var before, op := ops[..|ops| - 1], ops[|ops| - 1];
      if op.SetOp? && op.key == k && !Has(History(before, max), k) then |before|
      else InsertedAt(before, max, k)
  }

  /** The value of the last Set of a key with no later Delete of it. */
  function LastWrite<K(==), V>(ops: seq<Op<K, V>>, k: K): (v: Option<V>) {
    if ops == [] then None
    else
      var op := ops[|ops| - 1];
      if op.key != k then LastWrite(ops[..|ops| - 1], k)
      else if op.SetOp? then Some(op.value) else None
  }

  /** Over every history keys are distinct and a positive maximum is respected. */
  lemma {:induction false} HistoryIsBounded<K, V>(ops: seq<Op<K, V>>, max: int)
    ensures Distinct(History(ops, max))
    ensures max > 0 ==> |History(ops, max)| <= max
  {
    if ops != [] {
      var c := History(ops[..|ops| - 1], max);
      HistoryIsBounded(ops[..|ops| - 1], max);
      match ops[|ops| - 1]
      case SetOp(k, v) => PutDistinct(c, max, k, v);
      case DeleteOp(k) => DropDistinct(c, k); DropShrinks(c, k);
    }
  }

  lemma {:induction false} DropShrinks<K, V>(c: Cache<K, V>, k: K)
    ensures |Drop(c, k)| <= |c|
  {
    if c != [] {
      DropShrinks(c[1..], k);
    }
  }

  /** A cached value is always the one last written; unbounded, every last write is cached. */
  lemma {:induction false} CachedIsLastWrite<K, V>(ops: seq<Op<K, V>>, max: int, k: K)
    ensures Has(History(ops, max), k) ==> Get(History(ops, max), k) == LastWrite(ops, k)
    ensures max <= 0 ==> Get(History(ops, max), k) == LastWrite(ops, k)
  {
    if ops != [] {
      var before, op := ops[..|ops| - 1], ops[|ops| - 1];
      CachedIsLastWrite(before, max, k);
      HistoryIsBounded(before, max);
      match op
      case SetOp(x, v) => PutGet(History(before, max), max, x, v, k);
      case DeleteOp(x) => DropGet(History(before, max), x, k);
    }
  }

  /** The keys a history ever set. */
  function KeysSet<K(==), V>(ops: seq<Op<K, V>>): (ks: set<K>) {
    if ops == [] then {}
    else
      var op := ops[|ops| - 1];
      KeysSet(ops[..|ops| - 1]) + (if op.SetOp? then {op.key} else {})
  }

  ghost function Keys<K, V>(c: Cache<K, V>): (ks: set<K>) {
    set e | e in c :: e.key
  }

  lemma {:induction false} KeysCount<K, V>(c: Cache<K, V>)
    requires Distinct(c)
    ensures |Keys(c)| == |c|
  {
    if c != [] {
      var d := c[1..];
      KeysCount(d);
      assert c == [c[0]] + d;
      assert Keys(c) == {c[0].key} + Keys(d);
      forall e | e in d
        ensures e.key != c[0].key
      {
        HeadKeyIsUnique(c, e);
      }
    }
  }

  /** Every key in the cache was set at some time. */
  lemma {:induction false} KeysWereSet<K, V>(ops: seq<Op<K, V>>, max: int)
    ensures Keys(History(ops, max)) <= KeysSet(ops)
  {
    if ops != [] {
      var before, op := ops[..|ops| - 1], ops[|ops| - 1];
      KeysWereSet(before, max);
      HistoryIsBounded(before, max);
      var c := History(before, max);
      forall e | e in History(ops, max)
        ensures e.key in KeysSet(ops)
      {
        if op.DeleteOp? {
          DropEntry(c, op.key, e);
        } else if e.key != op.key {
          PutEntry(c, max, op.key, op.value, e);
        }
      }
    }
  }

  lemma PutEntry<K, V>(c: Cache<K, V>, max: int, k: K, v: V, e: Entry<K, V>)
    requires e in Put(c, max, k, v) && e.key != k
    ensures e in c
  {
  }

  /** Nothing is evicted early: while a history has set no more keys than the maximum, every last
      write is cached. */
  lemma {:induction false} NothingIsEvictedEarly<K, V>(ops: seq<Op<K, V>>, max: int, k: K)
    requires |KeysSet(ops)| <= max
    ensures Get(History(ops, max), k) == LastWrite(ops, k)
    decreases |ops|
  {
    if ops != [] {
      var before, op := ops[..|ops| - 1], ops[|ops| - 1];
      var c := History(before, max);
      SubsetSize(KeysSet(before), KeysSet(ops));
      NothingIsEvictedEarly(before, max, k);
      HistoryIsBounded(before, max);
      match op
      case DeleteOp(x) => DropGet(c, x, k);
      case SetOp(x, v) =>
        PutGet(c, max, x, v, k);
        if !Has(c, x) {
          KeysCount(c);
          KeysWereSet(before, max);
          assert x !in Keys(c);
          SubsetSize(Keys(c) + {x}, KeysSet(ops));
        }
    }
  }

  lemma {:induction false} SubsetSize<K>(a: set<K>, b: set<K>)
    requires a <= b
    ensures |a| <= |b|
  {
    assert b == a + (b - a);
  }

  /** The list is in insertion order, so the entry evicted, the first, is the earliest surviving insertion. */
  ghost predicate InInsertionOrder<K, V>(c: Cache<K, V>, ops: seq<Op<K, V>>, max: int) {
    forall i, j :: 0 <= i < j < |c| ==> InsertedAt(ops, max, c[i].key) < InsertedAt(ops, max, c[j].key)
  }

  lemma {:induction false} HistoryIsInInsertionOrder<K, V>(ops: seq<Op<K, V>>, max: int)
    ensures InInsertionOrder(History(ops, max), ops, max)
  {
    if ops != [] {
      var before, op := ops[..|ops| - 1], ops[|ops| - 1];
      var c := History(before, max);
      HistoryIsInInsertionOrder(before, max);
      HistoryIsBounded(before, max);
      match op {
        case SetOp(k, v) =>
          assert ops == before + [op];
          PutKeepsOrder(before, op, max);
        case DeleteOp(k) =>
          assert forall x :: InsertedAt(ops, max, x) == InsertedAt(before, max, x);
          DropKeepsOrder(c, k, before, max);
      }
    }
  }

  lemma InsertedAtAfterSet<K, V>(before: seq<Op<K, V>>, op: Op<K, V>, max: int, x: K)
    requires op.SetOp?
    ensures InsertedAt(before + [op], max, x) ==
            if x == op.key && !Has(History(before, max), x) then |before| else InsertedAt(before, max, x)
    ensures History(before + [op], max) == Put(History(before, max), max, op.key, op.value)
  {
    var ops := before + [op];
    assert ops[..|ops| - 1] == before;
  }

  lemma PutKeepsOrder<K, V>(before: seq<Op<K, V>>, op: Op<K, V>, max: int)
    requires op.SetOp? && InInsertionOrder(History(before, max), before, max)
    ensures InInsertionOrder(History(before + [op], max), before + [op], max)
  {
    hide History, InsertedAt;
    var ops := before + [op];
    InsertedAtAfterSet(before, op, max, op.key);
    var c, r := History(before, max), History(ops, max);
    var d := if !Has(c, op.key) && Full(c, max) then 1 else 0;
    forall i, j | 0 <= i < j < |r|
      ensures InsertedAt(ops, max, r[i].key) < InsertedAt(ops, max, r[j].key)
    {
      InsertedAtAfterSet(before, op, max, r[i].key);
      InsertedAtAfterSet(before, op, max, r[j].key);
      assert r[i].key == c[i + d].key;
      if j + d < |c| {
        assert r[j].key == c[j + d].key;
      }
    }
  }

  /** Dropping keeps the relative order of the remaining keys. */
  lemma {:induction false} DropIndices<K, V>(c: Cache<K, V>, k: K, i: nat) returns (m: nat)
    requires i < |Drop(c, k)|
    ensures m < |c| && Drop(c, k)[i] == c[m]
    ensures m == i || m == i + 1
    ensures m == i + 1 <==> exists h :: 0 <= h <= i && c[h].key == k
  {
    if c[0].key == k {
      m := i + 1;
    } else if i == 0 {
      m := 0;
    } else {
      var m' := DropIndices(c[1..], k, i - 1);
      m := m' + 1;
      assert forall h :: 0 <= h < |c| - 1 ==> c[1..][h] == c[h + 1];
      if m == i + 1 {
        var h :| 0 <= h <= i - 1 && c[1..][h].key == k;
        assert c[h + 1].key == k;
      } else if h :| 0 <= h <= i && c[h].key == k {
        assert c[1..][h - 1].key == k;
      }
    }
  }

  lemma DropKeepsOrder<K, V>(c: Cache<K, V>, k: K, ops: seq<Op<K, V>>, max: int)
    requires InInsertionOrder(c, ops, max)
    ensures InInsertionOrder(Drop(c, k), ops, max)
  {
    var r := Drop(c, k);
    forall i, j | 0 <= i < j < |r|
      ensures InsertedAt(ops, max, r[i].key) < InsertedAt(ops, max, r[j].key)
    {
      var m := DropIndices(c, k, i);
      var n := DropIndices(c, k, j);
    }
  }
}
