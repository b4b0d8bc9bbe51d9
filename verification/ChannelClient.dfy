/**
 The client's channel caches as live objects.  `TextChannel` objects are updated in place and
 shared between the client's cache and their clan's; `Tiers` is the abstract state, with the
 objects themselves as references, and each method performs the operation of that name on it.
 The server is a parameter of the methods that ask it.
 */
module ChannelClient {
  import opened Wrappers
  import opened ChannelTiers
  import L = OrderedCache

  class TextChannel {
    const id: int
    const clan: int
    var name: string
    var channelType: int
    var isPrivate: bool
    var categoryId: int
    var categoryName: string
    var parentId: int
    var meetingCode: string

    ghost function Content(): (c: Channel)
      reads this
    {
      Channel(id, clan, Fields(name, channelType, isPrivate, categoryId, categoryName, parentId, meetingCode))
    }

    constructor (d: Desc, clan: int)
      ensures Content() == Channel(d.channelId, clan, View(d)) && this.clan == clan && id == d.channelId
      ensures name == d.channelLabel && channelType == d.kind && (isPrivate <==> d.channelPrivate != 0)
      ensures categoryId == d.categoryId && categoryName == d.categoryName
      ensures parentId == d.parentId && meetingCode == d.meetingCode
    {
      this.id := d.channelId;
      this.clan := clan;
      name, channelType, isPrivate := d.channelLabel, d.kind, d.channelPrivate != 0;
      categoryId, categoryName := d.categoryId, d.categoryName;
      parentId, meetingCode := d.parentId, d.meetingCode;
    }

    method UpdateFromDesc(d: Desc)
      modifies this
      ensures Content() == old(Content()).(fields := View(d))
      ensures name == d.channelLabel && channelType == d.kind && (isPrivate <==> d.channelPrivate != 0)
      ensures categoryId == d.categoryId && categoryName == d.categoryName
      ensures parentId == d.parentId && meetingCode == d.meetingCode
    {
      name := d.channelLabel;
      channelType := d.kind;
      isPrivate := d.channelPrivate != 0;
      categoryId := d.categoryId;
      categoryName := d.categoryName;
      parentId := d.parentId;
      meetingCode := d.meetingCode;
    }
  }

  class Client {
    var store: Option<map<int, Desc>>
    const maxChannels: int
    var channels: L.Cache<int, TextChannel>
    var clans: map<int, L.Cache<int, TextChannel>>
    var loaded: set<int>
    ghost var objs: set<TextChannel>

    ghost predicate Holds(c: L.Cache<int, TextChannel>)
      reads this
    {
      forall i :: 0 <= i < |c| ==> c[i].value in objs
    }

    /** Every cached object is one of the client's objects. */
    ghost predicate Valid()
      reads this
    {
      && Holds(channels)
      && forall k :: k in clans ==> Holds(clans[k])
    }

    ghost function State(): (s: Tiers<TextChannel>)
      reads this, objs
    {
      Tiers(store, maxChannels, channels, clans, map o | o in objs :: o.Content())
    }

    constructor (shared: bool, max: int)
      ensures Valid() && objs == {} && loaded == {}
      ensures State() == Tiers(if shared then Some(map[]) else None, if max <= 0 then 5000 else max, [], map[], map[])
    {
      store := if shared then Some(map[]) else None;
      maxChannels := if max <= 0 then 5000 else max;
      channels := [];
      clans := map[];
      loaded := {};
      objs := {};
    }

    lemma CachedIsHeld(c: L.Cache<int, TextChannel>, id: int)
      requires Holds(c) && L.Get(c, id).Some?
      ensures L.Get(c, id).value in objs
    {
    }

    /** The clan's cache first, then the client's. */
    method FindCached(clan: int, id: int) returns (found: Option<TextChannel>)
      requires Valid()
      ensures found == Cached(State(), clan, id)
      ensures found.Some? ==> found.value in objs
    {
      hide L.Get, L.Has;
      var inClan := if clan in clans then clans[clan] else [];
      found := L.Get(inClan, id);
      if found.Some? {
        CachedIsHeld(inClan, id);
      } else {
        found := L.Get(channels, id);
        if found.Some? {
          CachedIsHeld(channels, id);
        }
      }
    }

    /** Update the channel found in place, or create a new one. */
    method Refresh(found: Option<TextChannel>, clan: int, d: Desc) returns (ch: TextChannel)
      requires Valid() && (found.Some? ==> found.value in objs)
      modifies this`objs, objs
      ensures Valid() && objs == old(objs) + {ch}
      ensures if found.Some? then ch == found.value else fresh(ch)
      ensures var s := old(State());
              State() == s.(objs := s.objs[ch := if ch in s.objs then s.objs[ch].(fields := View(d))
                                                 else Channel(d.channelId, clan, View(d))])
    {
      if found.Some? {
        ch := found.value;
        ch.UpdateFromDesc(d);
      } else {
        ch := NewChannel(clan, d);
      }
    }

    method NewChannel(clan: int, d: Desc) returns (ch: TextChannel)
      requires Valid()
      modifies this`objs
      ensures Valid() && fresh(ch) && objs == old(objs) + {ch}
      ensures var s := old(State());
              State() == s.(objs := s.objs[ch := Channel(d.channelId, clan, View(d))])
    {
      ch := new TextChannel(d, clan);
      objs := objs + {ch};
      assert State().objs == old(State()).objs[ch := Channel(d.channelId, clan, View(d))];
    }

    /** Register a channel in its clan's cache and in the client's. */
    method RegisterChannel(clan: int, id: int, ch: TextChannel)
      requires Valid() && ch in objs
      modifies this`channels, this`clans
      ensures Valid()
      ensures State() == Register(old(State()), clan, id, ch)
    {
      hide L.Get, L.Has, L.Put;
      var inClan := if clan in clans then clans[clan] else [];
      PutHolds(inClan, 0, id, ch);
      PutHolds(channels, maxChannels, id, ch);
      clans := clans[clan := L.Put(inClan, 0, id, ch)];
      channels := L.Put(channels, maxChannels, id, ch);
    }

    lemma PutHolds(c: L.Cache<int, TextChannel>, max: int, id: int, ch: TextChannel)
      requires Holds(c) && ch in objs
      ensures Holds(L.Put(c, max, id, ch))
    {
    }

    lemma DropHolds(c: L.Cache<int, TextChannel>, id: int)
      requires Holds(c)
      ensures Holds(L.Drop(c, id))
    {
      forall i | 0 <= i < |L.Drop(c, id)|
        ensures L.Drop(c, id)[i].value in objs
      {
        var m := L.DropIndices(c, id, i);
      }
    }

    /** Update a cached channel in place or create one, then register it in both caches. */
    method UpsertChannel(clan: int, d: Desc) returns (ch: TextChannel)
      requires Valid()
      modifies this`channels, this`clans, this`objs, objs
      ensures Valid() && objs == old(objs) + {ch} && (ch in old(objs) || fresh(ch))
      ensures State() == Upsert(old(State()), clan, d, ch)
      ensures ch == Chosen(old(State()), clan, d.channelId, ch)
      ensures Usable(old(State()), clan, d.channelId, ch)
    {
      hide L.Get, L.Has, L.Put;
      var found := FindCached(clan, d.channelId);
      ch := Refresh(found, clan, d);
      RegisterChannel(clan, d.channelId, ch);
    }

    /** Load a channel the client cache misses: from the shared store, else from the server. */
    method FetchChannel(server: map<int, Desc>, id: int) returns (ch: Option<TextChannel>)
      requires Valid()
      modifies this`store, this`channels, this`clans, this`objs, objs
      ensures Valid() && old(objs) <= objs && fresh(objs - old(objs))
      ensures match Loaded(old(State()), server, id)
              case None => ch.None? && State() == old(State())
              case Some(d) =>
                && ch.Some? && ch.value in objs
                && State() == Upsert(AfterLoad(old(State()), server, id), d.clanId, d, ch.value)
                && ch.value == Chosen(old(State()), d.clanId, d.channelId, ch.value)
                && Usable(old(State()), d.clanId, d.channelId, ch.value)
    {
      hide L.Get, L.Has, L.Put, Upsert;
      ch := None;
      var d: Desc;
      if store.Some? && id in store.value {
        d := store.value[id];
      } else {
        if id !in server || server[id].channelId == 0 {
          return;
        }
        d := server[id];
        if store.Some? {
          store := Some(store.value[id := d]);
        }
      }
      ghost var mid := State();
      assert mid == AfterLoad(old(State()), server, id);
      var c := UpsertChannel(d.clanId, d);
      ch := Some(c);
    }

    /** A miss that loads a description creates no object but a new one. */
    static ghost predicate LoadUses(s: Tiers<TextChannel>, server: map<int, Desc>, id: int, ch: TextChannel) {
      var d := Loaded(s, server, id);
      d.Some? && Usable(s, d.value.clanId, d.value.channelId, ch)
    }

    /** The client cache's fetch: a hit, or a load that is then set again. */
    method Fetch(server: map<int, Desc>, id: int) returns (ch: Option<TextChannel>)
      requires Valid()
      modifies this`store, this`channels, this`clans, this`objs, objs
      ensures Valid() && old(objs) <= objs && fresh(objs - old(objs)) && (ch.Some? ==> ch.value in objs)
      ensures ch.Some? ==>
                && State() == ChannelTiers.Fetch(old(State()), server, id, ch.value)
                && Fetched(old(State()), server, id, ch.value) == ch
                && (L.Get(old(channels), id).Some? || LoadUses(old(State()), server, id, ch.value))
      ensures ch.None? ==>
                && State() == old(State()) && L.Get(old(channels), id).None?
                && Loaded(old(State()), server, id).None?
    {
      hide L.Get, L.Has, L.Put;
      ch := L.Get(channels, id);
      if ch.Some? {
        CachedIsHeld(channels, id);
        return;
      }
      ch := FetchChannel(server, id);
      if ch.Some? {
        PutHolds(channels, maxChannels, id, ch.value);
        channels := L.Put(channels, maxChannels, id, ch.value);
      }
    }

    /** The clan cache's fetch falls back to the client's and remembers the result in that clan. */
    method FetchInClan(server: map<int, Desc>, clan: int, id: int) returns (ch: Option<TextChannel>)
      requires Valid() && clan in clans
      modifies this`store, this`channels, this`clans, this`objs, objs
      ensures Valid() && (ch.Some? ==> ch.value in objs)
      ensures ch.Some? ==>
                && State() == ChannelTiers.FetchInClan(old(State()), server, clan, id, ch.value)
                && FetchedInClan(old(State()), server, clan, id, ch.value) == ch
                && (Cached(old(State()), clan, id).Some? || LoadUses(old(State()), server, id, ch.value))
      ensures ch.None? ==>
                && State() == old(State())
                && Cached(old(State()), clan, id).None? && Loaded(old(State()), server, id).None?
    {
      hide L.Get, L.Has, L.Put, ChannelTiers.Fetch, Fetched;
      ch := L.Get(clans[clan], id);
      if ch.Some? {
        CachedIsHeld(clans[clan], id);
        return;
      }
      ch := Fetch(server, id);
      if ch.Some? {
        var inClan := if clan in clans then clans[clan] else [];
        PutHolds(inClan, 0, id, ch.value);
        clans := clans[clan := L.Put(inClan, 0, id, ch.value)];
      }
    }

    /** Channel deleted and channel updated: drop the channel from every tier. */
    method OnChannelChanged(clan: int, id: int)
      requires Valid()
      modifies this`store, this`channels, this`clans
      ensures Valid() && State() == Forget(old(State()), clan, id)
    {
      hide L.Get, L.Has, L.Drop;
      DropHolds(channels, id);
      channels := L.Drop(channels, id);
      if store.Some? {
        store := Some(store.value - {id});
      }
      if clan in clans {
        DropHolds(clans[clan], id);
        clans := clans[clan := L.Drop(clans[clan], id)];
      }
    }

    /** Merge the clan's channel listing, skipping zero ids, and mark the clan loaded. */
    method ReloadChannels(clan: int, ds: seq<Desc>) returns (ghost used: seq<TextChannel>)
      requires Valid()
      modifies this`channels, this`clans, this`objs, this`loaded, objs
      ensures Valid() && |used| == |Listed(ds)| && loaded == old(loaded) + {clan}
      ensures State() == Reload(old(State()), clan, Listed(ds), used)
      ensures UsableSupply(old(State()), clan, Listed(ds), used)
    {
      hide L.Get, L.Has, L.Put, Upsert, Reloaded;
      used := [];
      ghost var before := State();
      ReloadNothing(before, clan, ds[..0]);
      for i := 0 to |ds|
        invariant Valid() && old(objs) <= objs && fresh(objs - old(objs)) && loaded == old(loaded)
        invariant Reloaded(before, clan, ds[..i], used, State())
      {
        ghost var mid := State();
        if ds[i].channelId == 0 {
          ReloadSkips(before, clan, ds, i, used, mid);
          continue;
        }
        var ch := UpsertChannel(clan, ds[i]);
        ReloadStep(before, clan, ds, i, used, mid, ch);
        used := used + [ch];
      }
      assert ds[..|ds|] == ds;
      ghost var after := State();
      ReloadedIs(before, clan, ds, used, after);
      loaded := loaded + {clan};
      assert State().objs == after.objs;
    }

    /** Create a channel in a clan and cache it as a new object. */
    method CreateChannel(clan: int, d: Desc) returns (ch: TextChannel)
      requires Valid()
      modifies this`channels, this`clans, this`objs
      ensures Valid() && fresh(ch) && State() == Create(old(State()), clan, d, ch)
    {
      hide L.Get, L.Has, L.Put, Register;
      ch := NewChannel(clan, d);
      RegisterChannel(clan, d.channelId, ch);
    }

    /** Delete a channel from its clan: both caches forget it, the store does not. */
    method DeleteChannel(clan: int, id: int)
      requires Valid()
      modifies this`channels, this`clans
      ensures Valid() && State() == Remove(old(State()), clan, id)
    {
      hide L.Get, L.Has, L.Drop;
      var inClan := if clan in clans then clans[clan] else [];
      DropHolds(inClan, id);
      DropHolds(channels, id);
      clans := clans[clan := L.Drop(inClan, id)];
      channels := L.Drop(channels, id);
    }
  }

  /** The listing was merged into s, giving s', with the objects used. */
  ghost predicate Reloaded<R>(s: Tiers<R>, clan: int, ds: seq<Desc>, used: seq<R>, s': Tiers<R>) {
    && |used| == |Listed(ds)|
    && s' == Reload(s, clan, Listed(ds), used)
    && UsableSupply(s, clan, Listed(ds), used)
  }

  lemma ReloadedIs<R>(s: Tiers<R>, clan: int, ds: seq<Desc>, used: seq<R>, s': Tiers<R>)
    requires Reloaded(s, clan, ds, used, s')
    ensures |used| == |Listed(ds)| && s' == Reload(s, clan, Listed(ds), used)
    ensures UsableSupply(s, clan, Listed(ds), used)
  {
  }

  lemma ReloadNothing<R>(s: Tiers<R>, clan: int, ds: seq<Desc>)
    requires ds == []
    ensures Reloaded(s, clan, ds, [], s)
  {
  }

  lemma ReloadSkips<R>(s: Tiers<R>, clan: int, ds: seq<Desc>, i: nat, used: seq<R>, s': Tiers<R>)
    requires i < |ds| && ds[i].channelId == 0 && Reloaded(s, clan, ds[..i], used, s')
    ensures Reloaded(s, clan, ds[..i + 1], used, s')
  {
    assert ds[..i + 1][..i] == ds[..i];
  }

  lemma ReloadStep<R>(s: Tiers<R>, clan: int, ds: seq<Desc>, i: nat, used: seq<R>, s': Tiers<R>, r: R)
    requires i < |ds| && ds[i].channelId != 0 && Reloaded(s, clan, ds[..i], used, s')
    requires Usable(s', clan, ds[i].channelId, r)
    ensures Reloaded(s, clan, ds[..i + 1], used + [r], Upsert(s', clan, ds[i], r))
  {
    hide Upsert, Usable;
    assert ds[..i + 1][..i] == ds[..i];
    var before := Listed(ds[..i]);
    assert (before + [ds[i]])[..|before|] == before && (used + [r])[..|before|] == used;
  }
}
