/**
 Correlation of replies with waiting requests.  Envelope replies carry the whole cid; pongs and
 API responses carry 16 bits of it, so the lookup takes the exact key if there is one and
 otherwise any key with the same low 16 bits, in map iteration order.
 */
module Correlation {
  import opened Wrappers

  function Low(k: int): (c: nat)
    ensures c < 0x1_0000
  {
    k % 0x1_0000
  }

  /** The keys a raw lookup of c may take, over all iteration orders. */
  predicate MayTake<C>(table: map<int, C>, c: int, k: int) {
    k in table && (k == c || (c !in table && Low(k) == c))
  }

  /** All pending cids lie within 65535 of one another. */
  ghost predicate Window<C>(table: map<int, C>) {
    forall j, k :: j in table && k in table ==> j - k <= 0xFFFF
  }

  lemma WindowIsInjective<C>(table: map<int, C>, j: int, k: int)
    requires Window(table) && j in table && k in table && Low(j) == Low(k)
    ensures j == k
  {
    assert j - k <= 0xFFFF && k - j <= 0xFFFF;
  }

  /** Inside a window a raw lookup takes the one key congruent to c, whatever the order, or none. */
  lemma RawLookupIsExact<C>(table: map<int, C>, c: int)
    requires Window(table) && 0 <= c < 0x1_0000
    ensures forall k :: MayTake(table, c, k) <==> k in table && Low(k) == c
    ensures forall j, k :: MayTake(table, c, j) && MayTake(table, c, k) ==> j == k
  {
    forall j, k | j in table && k in table && Low(j) == Low(k)
      ensures j == k
    {
      WindowIsInjective(table, j, k);
    }
  }

  /** No other pending cid has the same low 16 bits. */
  ghost predicate Alone<C>(table: map<int, C>, k: int) {
    forall j :: j in table && Low(j) == Low(k) ==> j == k
  }

  /** Without the window: the reply to request k is certain to reach it exactly when k itself fits
      in 16 bits or no other pending cid shares its low 16 bits. */
  lemma RoutedExactlyWhen<C>(table: map<int, C>, k: int)
    requires k in table
    ensures (forall j :: MayTake(table, Low(k), j) ==> j == k) <==> 0 <= k < 0x1_0000 || Alone(table, k)
  {
    if 0 <= k < 0x1_0000 {
      assert Low(k) == k;
    } else if !Alone(table, k) {
      var j :| j in table && Low(j) == Low(k) && j != k;
      if Low(k) in table {
        assert MayTake(table, Low(k), Low(k));
      } else {
        assert MayTake(table, Low(k), j);
      }
    }
  }

  /** A raw lookup finds a request exactly when some pending cid has those low 16 bits. */
  lemma MatchedExactlyWhen<C>(table: map<int, C>, c: int)
    requires 0 <= c < 0x1_0000
    ensures (exists k :: MayTake(table, c, k)) <==> (exists k :: k in table && Low(k) == c)
    ensures forall k :: MayTake(table, c, k) ==> Low(k) == c
  {
    if k :| k in table && Low(k) == c {
      assert MayTake(table, c, if c in table then c else k);
    }
  }

  ghost predicate DistinctChannels<C>(table: map<int, C>) {
    forall j, k :: j in table && k in table && j != k ==> table[j] != table[k]
  }

  /** What other goroutines may do to the table meanwhile: senders register their cids and clear them,
      other read loops take entries; a pending request keeps its channel and shares it with none. */
  ghost predicate Interferes<C>(table: map<int, C>, table': map<int, C>) {
    && (forall k :: k in table && k in table' ==> table'[k] == table[k])
    && (DistinctChannels(table) ==> DistinctChannels(table'))
  }

  /** A stale entry 65536 requests back takes the reply meant for the later request. */
  lemma StaleEntryStealsReply<C>(table: map<int, C>, k: int)
    requires 0 <= k < 0x1_0000 && k in table && k + 0x1_0000 in table
    ensures var c := Low(k + 0x1_0000);
            MayTake(table, c, k) && forall j :: MayTake(table, c, j) ==> j == k
  {
  }

  class CidTable<C> {
    var cids: map<int, C>
    var nextCid: int

    constructor ()
      ensures cids == map[] && nextCid == 1
    {
      cids, nextCid := map[], 1;
    }

    method GenerateCid() returns (cid: int)
      modifies this`nextCid
      ensures cid == old(nextCid) && nextCid == old(nextCid) + 1
    {
      nextCid := nextCid + 1;
      cid := nextCid - 1;
    }

    method ClearCid(cid: int)
      modifies this`cids
      ensures cids == old(cids) - {cid}
    {
      cids := cids - {cid};
    }

    method TakeCid(cid: int) returns (ch: Option<C>)
      modifies this`cids
      ensures ch == (if cid in old(cids) then Some(old(cids)[cid]) else None)
      ensures cids == old(cids) - {cid}
    {
      ch := None;
      if cid in cids {
        ch := Some(cids[cid]);
        cids := cids - {cid};
      }
    }

    /**
     Take the exact key, or the first key met with the same low 16 bits; `order` is the order in
     which the runtime happens to range over the map.
     */
    method TakeRawCid(cid: int, order: seq<int>) returns (ch: Option<C>, ghost key: int)
      requires forall k :: k in order <==> k in cids
      modifies this`cids
      ensures ch.Some? <==> exists k :: MayTake(old(cids), cid, k)
      ensures ch.Some? ==>
                MayTake(old(cids), cid, key) && ch.value == old(cids)[key] && cids == old(cids) - {key}
      ensures ch.None? ==> cids == old(cids)
    {
      ch, key := None, cid;
      if cid in cids {
        assert MayTake(cids, cid, cid);
        ch := Some(cids[cid]);
        cids := cids - {cid};
        return;
      }
      for i := 0 to |order|
        invariant cids == old(cids)
        invariant forall j :: 0 <= j < i ==> Low(order[j]) != cid
      {
        var k := order[i];
        assert k in order;
        if Low(k) == cid {
          assert MayTake(cids, cid, k);
          key := k;
          ch := Some(cids[k]);
          cids := cids - {k};
          return;
        }
      }
    }
  }
}
