/**
 The in-memory cache: a map for the values and a slice for the order, changed in place.
 `Entries` is the list it stands for; each method performs the list operation of that name.
 */
module CacheManager {
  import opened Wrappers
  import L = OrderedCache

  class CacheManager<K(==), V> {
    var items: map<K, V>
    var order: seq<K>
    const maxSize: int
    const fetcher: Option<K -> Option<V>>

    /** The order slice is duplicate-free and lists exactly the map's keys. */
    ghost predicate Valid()
      reads this
    {
      Lists(order, items.Keys)
    }

    ghost function Entries(): (c: L.Cache<K, V>)
      reads this
      requires Valid()
      ensures |c| == |order|
      ensures forall i :: 0 <= i < |c| ==> order[i] in items && c[i] == L.Entry(order[i], items[order[i]])
    {
      Pairs(items, order)
    }

    constructor (fetch: Option<K -> Option<V>>, max: int)
      ensures Valid() && Entries() == [] && maxSize == max && fetcher == fetch
    {
      items, order, maxSize, fetcher := map[], [], max, fetch;
    }

    /** The map answers as the list would. */
    lemma EntriesHas(k: K)
      requires Valid()
      ensures L.Distinct(Entries())
      ensures k in items <==> L.Has(Entries(), k)
      ensures L.Get(Entries(), k) == if k in items then Some(items[k]) else None
    {
      if k in items {
        var i :| 0 <= i < |order| && order[i] == k;
        assert Entries()[i] == L.Entry(k, items[k]);
        L.GetIsMembership(Entries(), k, items[k]);
      }
    }

    lemma SizeIsLength()
      requires Valid()
      ensures |items| == |order|
    {
      KeysCounted(order, items.Keys);
    }

    method Get(id: K) returns (v: Option<V>)
      requires Valid()
      ensures v == L.Get(Entries(), id)
    {
      EntriesHas(id);
      v := if id in items then Some(items[id]) else None;
    }

    method Set(id: K, value: V)
      requires Valid()
      modifies this
      ensures Valid() && Entries() == L.Put(old(Entries()), maxSize, id, value)
    {
      hide L.Get, L.Has, L.Distinct;
      EntriesHas(id);
      SizeIsLength();
      ghost var before := Entries();
      if id !in items {
        if maxSize > 0 && |items| >= maxSize && |order| > 0 {
          var oldest := order[0];
          order := order[1..];
          items := items - {oldest};
        }
        order := order + [id];
      }
      items := items[id := value];
      assert Valid();
      assert Entries() == L.Put(before, maxSize, id, value);
    }

    method Fetch(id: K) returns (v: Option<V>)
      requires Valid()
      modifies this
      ensures Valid()
      ensures var c := old(Entries());
              match L.Get(c, id)
              case Some(w) => v == Some(w) && Entries() == c
              case None =>
                && v == (if fetcher.None? then None else fetcher.value(id))
                && Entries() == (if v.None? then c else L.Put(c, maxSize, id, v.value))
    {
      v := Get(id);
      if v.Some? || fetcher.None? {
        return;
      }
      v := fetcher.value(id);
      if v.Some? {
        Set(id, v.value);
      }
    }

    method Delete(id: K) returns (found: bool)
      requires Valid()
      modifies this
      ensures Valid() && Entries() == L.Drop(old(Entries()), id)
      ensures found <==> L.Has(old(Entries()), id)
    {
      hide L.Drop, L.Get, L.Has, L.Distinct, Lists, Pairs;
      EntriesHas(id);
      ghost var before := Entries();
      if id !in items {
        DropAbsent(before, id);
        return false;
      }
      var i := IndexOf(id);
      CutEntries(items, order, i);
      items := items - {id};
      order := order[..i] + order[i + 1..];
      return true;
    }

    /** The scan of the order slice for a key that is in it. */
    method IndexOf(id: K) returns (i: nat)
      requires Valid() && id in items
      ensures i < |order| && order[i] == id && forall j :: 0 <= j < i ==> order[j] != id
    {
      i := 0;
      while order[i] != id
        invariant 0 <= i < |order|
        invariant forall j :: 0 <= j < i ==> order[j] != id
        decreases |order| - i
      {
        assert i + 1 < |order| by { assert id in order; }
        i := i + 1;
      }
    }

    method Values() returns (out: seq<V>)
      requires Valid()
      ensures out == L.Values(Entries())
    {
      out := [];
      for i := 0 to |order|
        invariant |out| == i
        invariant forall j :: 0 <= j < i ==> out[j] == Entries()[j].value
      {
        out := out + [items[order[i]]];
      }
    }

    method Size() returns (n: nat)
      requires Valid()
      ensures n == |Entries()|
    {
      SizeIsLength();
      n := |items|;
    }
  }

  ghost predicate Lists<K>(order: seq<K>, keys: set<K>) {
    && (forall i, j :: 0 <= i < j < |order| ==> order[i] != order[j])
    && keys == (set k | k in order)
  }

  lemma WithoutIndex<K>(s: seq<K>, keys: set<K>, i: nat)
    requires i < |s| && Lists(s, keys)
    ensures Lists(s[..i] + s[i + 1..], keys - {s[i]})
  {
    var r := s[..i] + s[i + 1..];
    assert s == s[..i] + [s[i]] + s[i + 1..];
    assert forall a :: 0 <= a < |r| ==> r[a] == s[if a < i then a else a + 1];
  }

  /** The map's values in the order of the slice. */
  ghost function Pairs<K, V>(items: map<K, V>, order: seq<K>): (c: L.Cache<K, V>)
    requires Lists(order, items.Keys)
    ensures |c| == |order|
    ensures forall i :: 0 <= i < |c| ==> order[i] in items && c[i] == L.Entry(order[i], items[order[i]])
  {
    seq(|order|, i requires 0 <= i < |order| && order[i] in items => L.Entry(order[i], items[order[i]]))
  }

  /** Cutting the key at i out of map and slice drops it from the list. */
  lemma CutEntries<K, V>(items: map<K, V>, order: seq<K>, i: nat)
    requires i < |order| && Lists(order, items.Keys)
    ensures var items', order' := items - {order[i]}, order[..i] + order[i + 1..];
            Lists(order', items'.Keys) && Pairs(items', order') == L.Drop(Pairs(items, order), order[i])
  {
    hide L.Drop;
    var items', order' := items - {order[i]}, order[..i] + order[i + 1..];
    WithoutIndex(order, items.Keys, i);
    assert items'.Keys == items.Keys - {order[i]};
    var c := Pairs(items, order);
    DropAt(c, order[i], i);
    assert Pairs(items', order') == c[..i] + c[i + 1..];
  }

  lemma {:induction false} KeysCounted<K>(order: seq<K>, keys: set<K>)
    requires forall i, j :: 0 <= i < j < |order| ==> order[i] != order[j]
    requires forall k :: k in keys <==> k in order
    ensures |keys| == |order|
  {
    if order == [] {
      assert keys == {};
    } else {
      var k := order[|order| - 1];
      assert forall x :: x in order[..|order| - 1] <==> x in order && x != k;
      KeysCounted(order[..|order| - 1], keys - {k});
    }
  }

  lemma {:induction false} DropAbsent<K, V>(c: L.Cache<K, V>, k: K)
    requires !L.Has(c, k)
    ensures L.Drop(c, k) == c
  {
    if c != [] {
      DropAbsent(c[1..], k);
      assert c == [c[0]] + c[1..];
    }
  }

  lemma {:induction false} DropAt<K, V>(c: L.Cache<K, V>, k: K, i: nat)
    requires i < |c| && c[i].key == k && forall j :: 0 <= j < i ==> c[j].key != k
    ensures L.Drop(c, k) == c[..i] + c[i + 1..]
  {
    if i > 0 {
      DropAt(c[1..], k, i - 1);
      assert c[..i] == [c[0]] + c[1..][..i - 1];
      assert c[1..][i..] == c[i + 1..];
    }
  }
}
