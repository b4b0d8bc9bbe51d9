/**
 The channel caches: live channel objects registered in the client cache (bounded) and in their
 clan's cache (unbounded), over an optional shared store and the server.  Objects are references
 of type R into `objs`, so that sharing and in-place updates are visible.
 Every operation is one step; channel ids are canonical and a channel never changes clan.
 */
module ChannelTiers {
  import opened Wrappers
  import L = OrderedCache

  /** A channel description as the server and the shared store hold it. */
  datatype Desc = Desc(channelId: int, clanId: int, channelLabel: string, kind: int, channelPrivate: int,
                       categoryId: int, categoryName: string, parentId: int, meetingCode: string)

  /** The fields a live channel object copies from its description. */
  datatype Fields = Fields(name: string, channelType: int, isPrivate: bool, categoryId: int,
                           categoryName: string, parentId: int, meetingCode: string)

  function View(d: Desc): (f: Fields) {
    Fields(d.channelLabel, d.kind, d.channelPrivate != 0, d.categoryId, d.categoryName, d.parentId, d.meetingCode)
  }

  /** The fields show the description, one by one. */
  predicate Shows(f: Fields, d: Desc) {
    && f.name == d.channelLabel
    && f.channelType == d.kind
    && (f.isPrivate <==> d.channelPrivate != 0)
    && f.categoryId == d.categoryId && f.categoryName == d.categoryName
    && f.parentId == d.parentId
    && f.meetingCode == d.meetingCode
  }

  lemma ViewShows(f: Fields, d: Desc)
    ensures f == View(d) <==> Shows(f, d)
  {
  }

  datatype Channel = Channel(id: int, clan: int, fields: Fields)

  datatype Tiers<R> = Tiers(
    store: Option<map<int, Desc>>,
    max: int,
    client: L.Cache<int, R>,
    clans: map<int, L.Cache<int, R>>,
    objs: map<R, Channel>)

  // ---------------------------------------------------------------------- operations

  function ClanCache<R>(s: Tiers<R>, clan: int): (c: L.Cache<int, R>) {
    if clan in s.clans then s.clans[clan] else []
  }

  /** The object already cached for a channel: the clan's cache first, then the client's. */
  function Cached<R>(s: Tiers<R>, clan: int, id: int): (r: Option<R>) {
    var r := L.Get(ClanCache(s, clan), id);
    if r.Some? then r else L.Get(s.client, id)
  }

  /** Put an object into both caches. */
  function Register<R(==)>(s: Tiers<R>, clan: int, id: int, r: R): (s': Tiers<R>) {
    s.(client := L.Put(s.client, s.max, id, r),
       clans := s.clans[clan := L.Put(ClanCache(s, clan), 0, id, r)])
  }

  /** The object an upsert uses: the cached one, else the fresh one. */
  function Chosen<R>(s: Tiers<R>, clan: int, id: int, spare: R): (r: R) {
    var c := Cached(s, clan, id);
    if c.Some? then c.value else spare
  }

  /** The reference offered for a new object is new, should one be needed. */
  ghost predicate Usable<R>(s: Tiers<R>, clan: int, id: int, spare: R) {
    Cached(s, clan, id).None? ==> spare !in s.objs
  }

  /** Update the cached object in place, or create one; either way register it in both caches. */
  function Upsert<R(==)>(s: Tiers<R>, clan: int, d: Desc, spare: R): (s': Tiers<R>)
  {
    var r := Chosen(s, clan, d.channelId, spare);
    var content := if r in s.objs then s.objs[r].(fields := View(d)) else Channel(d.channelId, clan, View(d));
    Register(s.(objs := s.objs[r := content]), clan, d.channelId, r)
  }

  function StoreGet<R>(s: Tiers<R>, id: int): (d: Option<Desc>) {
    if s.store.Some? && id in s.store.value then Some(s.store.value[id]) else None
  }

  function StoreSet<R>(s: Tiers<R>, id: int, d: Desc): (s': Tiers<R>) {
    if s.store.Some? then s.(store := Some(s.store.value[id := d])) else s
  }

  function StoreDelete<R>(s: Tiers<R>, id: int): (s': Tiers<R>) {
    if s.store.Some? then s.(store := Some(s.store.value - {id})) else s
  }

  /** What a client-cache miss loads: the store's description, else the server's (zero ids rejected). */
  function Loaded<R>(s: Tiers<R>, server: map<int, Desc>, id: int): (d: Option<Desc>) {
    if StoreGet(s, id).Some? then StoreGet(s, id)
    else if id in server && server[id].channelId != 0 then Some(server[id])
    else None
  }

  /** Loading from the server also fills the store. */
  function AfterLoad<R>(s: Tiers<R>, server: map<int, Desc>, id: int): (s': Tiers<R>) {
    if StoreGet(s, id).None? && Loaded(s, server, id).Some? then StoreSet(s, id, Loaded(s, server, id).value) else s
  }

  /** A fetch through the client cache: a hit changes nothing; a miss loads and upserts. */
  function Fetched<R(==)>(s: Tiers<R>, server: map<int, Desc>, id: int, spare: R): (r: Option<R>) {
    if L.Get(s.client, id).Some? then L.Get(s.client, id)
    else
      match Loaded(s, server, id)
      case None => None
      case Some(d) => Some(Chosen(s, d.clanId, d.channelId, spare))
  }

  function Fetch<R(==)>(s: Tiers<R>, server: map<int, Desc>, id: int, spare: R): (s': Tiers<R>) {
    if L.Get(s.client, id).Some? then s
    else
      match Loaded(s, server, id)
      case None => s
      case Some(d) =>
        var t := Upsert(AfterLoad(s, server, id), d.clanId, d, spare);
        t.(client := L.Put(t.client, t.max, id, Chosen(s, d.clanId, d.channelId, spare)))
  }

  /** A fetch through a clan's cache falls back to the client cache and remembers what it got. */
  function FetchInClan<R(==)>(s: Tiers<R>, server: map<int, Desc>, clan: int, id: int, spare: R): (s': Tiers<R>) {
    if L.Get(ClanCache(s, clan), id).Some? then s
    else
      var t := Fetch(s, server, id, spare);
      match Fetched(s, server, id, spare)
      case None => t
      case Some(r) => t.(clans := t.clans[clan := L.Put(ClanCache(t, clan), 0, id, r)])
  }

  function FetchedInClan<R(==)>(s: Tiers<R>, server: map<int, Desc>, clan: int, id: int, spare: R): (r: Option<R>) {
    if L.Get(ClanCache(s, clan), id).Some? then L.Get(ClanCache(s, clan), id) else Fetched(s, server, id, spare)
  }

  /** The entries of a listing that name a channel. */
  function Listed(ds: seq<Desc>): (r: seq<Desc>)
    ensures forall d :: d in r ==> d in ds && d.channelId != 0
  {
    if ds == [] then []
    else
      var r := Listed(ds[..|ds| - 1]);
      if ds[|ds| - 1].channelId == 0 then r else r + [ds[|ds| - 1]]
  }

  lemma ListedSnoc(ds: seq<Desc>, d: Desc)
    ensures Listed(ds + [d]) == if d.channelId == 0 then Listed(ds) else Listed(ds) + [d]
  {
    assert (ds + [d])[..|ds|] == ds;
  }

  lemma {:induction false} ListedHas(ds: seq<Desc>, d: Desc)
    ensures d in Listed(ds) <==> d in ds && d.channelId != 0
  {
    if ds != [] {
      var before, last := ds[..|ds| - 1], ds[|ds| - 1];
      ListedHas(before, d);
      ListedSnoc(before, last);
      assert ds == before + [last];
    }
  }

  lemma Associative<T>(a: seq<T>, b: seq<T>, c: seq<T>)
    ensures a + (b + c) == a + b + c
  {
  }

  lemma {:induction false} ListedConcat(ds: seq<Desc>, more: seq<Desc>)
    ensures Listed(ds + more) == Listed(ds) + Listed(more)
    decreases |more|
  {
    if more == [] {
      assert ds + more == ds && Listed(ds) + [] == Listed(ds);
    } else {
      hide Listed;
      var front, last := more[..|more| - 1], more[|more| - 1];
      assert more == front + [last];
      Associative(ds, front, [last]);
      ListedConcat(ds, front);
      ListedSnoc(ds + front, last);
      ListedSnoc(front, last);
      Associative(Listed(ds), Listed(front), [last]);
    }
  }

  /** They are exactly the entries with an id, each list's before the next one's. */
  lemma ListedIsFilter(ds: seq<Desc>, d: Desc, more: seq<Desc>)
    ensures d in Listed(ds) <==> d in ds && d.channelId != 0
    ensures Listed(ds + more) == Listed(ds) + Listed(more)
  {
    hide Listed;
    ListedHas(ds, d);
    ListedConcat(ds, more);
  }

  /** Upsert a list of descriptions in turn; spare supplies one reference for each. */
  function Reload<R(==)>(s: Tiers<R>, clan: int, ds: seq<Desc>, spare: seq<R>): (s': Tiers<R>)
    requires |spare| == |ds|
    decreases |ds|
  {
    if ds == [] then s
    else
      var n := |ds| - 1;
      Upsert(Reload(s, clan, ds[..n], spare[..n]), clan, ds[n], spare[n])
  }

  /** Every reference offered to a reload is new at the upsert that needs it. */
  ghost predicate UsableSupply<R>(s: Tiers<R>, clan: int, ds: seq<Desc>, spares: seq<R>)
    decreases |ds|
  {
    && |spares| == |ds|
    && (ds == [] ||
        var n := |ds| - 1;
        && UsableSupply(s, clan, ds[..n], spares[..n])
        && Usable(Reload(s, clan, ds[..n], spares[..n]), clan, ds[n].channelId, spares[n]))
  }

  /** Both handlers, channel deleted and channel updated, drop the channel from every tier. */
  function Forget<R>(s: Tiers<R>, clan: int, id: int): (s': Tiers<R>) {
    var t := StoreDelete(s, id).(client := L.Drop(s.client, id));
    if clan in s.clans then t.(clans := s.clans[clan := L.Drop(s.clans[clan], id)]) else t
  }

  /** A create registers a new object without looking for a cached one. */
  function Create<R(==)>(s: Tiers<R>, clan: int, d: Desc, spare: R): (s': Tiers<R>) {
    Register(s.(objs := s.objs[spare := Channel(d.channelId, clan, View(d))]), clan, d.channelId, spare)
  }

  /** The clan's delete drops the channel from both caches but leaves the store alone. */
  function Remove<R>(s: Tiers<R>, clan: int, id: int): (s': Tiers<R>) {
    s.(client := L.Drop(s.client, id), clans := s.clans[clan := L.Drop(ClanCache(s, clan), id)])
  }

  // ---------------------------------------------------------------------- invariants

  /** Fixed facts about the world: which clan owns a channel. */
  type Owner = int -> int

  ghost predicate Canonical(m: map<int, Desc>, owner: Owner) {
    forall id :: id in m ==> m[id].channelId == id && id != 0 && m[id].clanId == owner(id)
  }

  ghost predicate ValidCache<R>(s: Tiers<R>, c: L.Cache<int, R>) {
    && L.Distinct(c)
    && (forall id :: L.Get(c, id).Some? ==> L.Get(c, id).value in s.objs && s.objs[L.Get(c, id).value].id == id)
  }

  /** The object in the owning clan's cache. */
  function Owned<R>(s: Tiers<R>, owner: Owner, id: int): (r: Option<R>) {
    L.Get(ClanCache(s, owner(id)), id)
  }

  ghost predicate Valid<R>(s: Tiers<R>, owner: Owner) {
    && (s.store.Some? ==> Canonical(s.store.value, owner))
    && ValidCache(s, s.client)
    && (forall clan :: clan in s.clans ==> ValidCache(s, s.clans[clan]))
    && (forall id :: L.Get(s.client, id).Some? ==> L.Get(s.client, id) == Owned(s, owner, id))
  }

  /** One channel agrees with the server in the store and in its owning clan's cache. */
  ghost predicate Agrees<R>(s: Tiers<R>, owner: Owner, server: map<int, Desc>, id: int) {
    && (StoreGet(s, id).Some? ==> id in server && server[id] == StoreGet(s, id).value)
    && (Owned(s, owner, id).Some? ==>
          id in server && Owned(s, owner, id).value in s.objs &&
          s.objs[Owned(s, owner, id).value].fields == View(server[id]))
  }

  /** Every channel without an unhandled change event agrees. */
  ghost predicate Coherent<R>(s: Tiers<R>, owner: Owner, server: map<int, Desc>, pending: seq<int>) {
    forall id :: id !in pending ==> Agrees(s, owner, server, id)
  }

  // --------------------------------------------------------- effect of each operation

  /** Which object an upsert works on, in any state: the clan's, else the client's, else the new one. */
  lemma UpsertReuses<R>(s: Tiers<R>, clan: int, d: Desc, spare: R)
    ensures var inClan, inClient := L.Get(ClanCache(s, clan), d.channelId), L.Get(s.client, d.channelId);
            var r := Chosen(s, clan, d.channelId, spare);
            && (inClan.Some? ==> r == inClan.value)
            && (inClan.None? && inClient.Some? ==> r == inClient.value)
            && (inClan.None? && inClient.None? ==> r == spare)
            && r in Upsert(s, clan, d, spare).objs && Shows(Upsert(s, clan, d, spare).objs[r].fields, d)
  {
  }

  lemma ClanCacheIsValid<R>(s: Tiers<R>, owner: Owner, clan: int)
    requires Valid(s, owner)
    ensures ValidCache(s, ClanCache(s, clan))
  {
  }

  lemma RegisterGets<R>(s: Tiers<R>, clan: int, id: int, r: R, x: int)
    requires L.Distinct(s.client) && L.Distinct(ClanCache(s, clan))
    ensures var s' := Register(s, clan, id, r);
            && L.Get(s'.clans[clan], x) == (if x == id then Some(r) else L.Get(ClanCache(s, clan), x))
            && (x == id ==> L.Get(s'.client, x) == Some(r))
            && (x != id && L.Get(s'.client, x).Some? ==> L.Get(s'.client, x) == L.Get(s.client, x))
  {
    L.PutGet(s.client, s.max, id, r, x);
    L.PutGet(ClanCache(s, clan), 0, id, r, x);
  }

  /** Registering the object of a channel in its owning clan keeps the caches valid. */
  lemma RegisterKeepsValid<R>(s: Tiers<R>, owner: Owner, id: int, r: R)
    requires Valid(s, owner) && r in s.objs && s.objs[r].id == id
    ensures Valid(Register(s, owner(id), id, r), owner)
  {
    hide L.Get, L.Put, L.Drop, L.Has, L.Distinct;
    var clan := owner(id);
    var s' := Register(s, clan, id, r);
    ClanCacheIsValid(s, owner, clan);
    L.PutDistinct(s.client, s.max, id, r);
    L.PutDistinct(ClanCache(s, clan), 0, id, r);
    forall x
      ensures L.Get(s'.clans[clan], x) == (if x == id then Some(r) else L.Get(ClanCache(s, clan), x))
      ensures x == id ==> L.Get(s'.client, x) == Some(r)
      ensures x != id && L.Get(s'.client, x).Some? ==> L.Get(s'.client, x) == L.Get(s.client, x)
    {
      RegisterGets(s, clan, id, r, x);
    }
    assert ValidCache(s', s'.client);
    assert forall c :: c in s'.clans ==> ValidCache(s', s'.clans[c]);
  }

  /** Nothing but channel id differs between two states, as far as agreement and identity go. */
  ghost predicate OnlyTouches<R>(s: Tiers<R>, s': Tiers<R>, owner: Owner, id: int) {
    forall x :: x != id ==>
      && StoreGet(s', x) == StoreGet(s, x)
      && Owned(s', owner, x) == Owned(s, owner, x)
      && (Owned(s, owner, x).Some? && Owned(s, owner, x).value in s.objs ==>
            Owned(s, owner, x).value in s'.objs &&
            s'.objs[Owned(s, owner, x).value] == s.objs[Owned(s, owner, x).value])
  }

  lemma OthersStillAgree<R>(s: Tiers<R>, s': Tiers<R>, owner: Owner, server: map<int, Desc>, id: int, x: int)
    requires OnlyTouches(s, s', owner, id) && x != id && Agrees(s, owner, server, x)
    ensures Agrees(s', owner, server, x)
  {
    hide L.Get, L.Put, L.Drop, L.Has, L.Distinct;
  }

  /** Upserting a description through the owning clan: the cached object if there is one, with the
      new fields, is what both caches hold afterwards. */
  lemma UpsertEffect<R>(s: Tiers<R>, owner: Owner, d: Desc, spare: R)
    requires Valid(s, owner) && Usable(s, owner(d.channelId), d.channelId, spare)
    ensures var id := d.channelId;
            && Cached(s, owner(id), id) == Owned(s, owner, id)
            && (Owned(s, owner, id).Some? ==> Owned(s, owner, id).value in s.objs)
    ensures var id, clan := d.channelId, owner(d.channelId);
            var s', r := Upsert(s, clan, d, spare), Chosen(s, clan, id, spare);
            && Valid(s', owner) && OnlyTouches(s, s', owner, id)
            && Owned(s', owner, id) == L.Get(s'.client, id) == Some(r)
            && (Owned(s, owner, id).Some? ==> Owned(s, owner, id) == Some(r))
            && Shows(s'.objs[r].fields, d) && s'.objs[r].fields == View(d) && s'.objs[r].id == id
            && s'.objs[r].clan == (if Owned(s, owner, id).Some? then s.objs[r].clan else clan)
            && s'.store == s.store && s'.objs.Keys == s.objs.Keys + {r} && clan in s'.clans
            && (forall c :: c in s.clans ==> c in s'.clans)
  {
    hide L.Get, L.Put, L.Drop, L.Has, L.Distinct;
    var id, clan := d.channelId, owner(d.channelId);
    ClanCacheIsValid(s, owner, clan);
    var r := Chosen(s, clan, id, spare);
    var content := if r in s.objs then s.objs[r].(fields := View(d)) else Channel(id, clan, View(d));
    var t := s.(objs := s.objs[r := content]);
    ContentKeepsValid(s, owner, r, content);
    RegisterKeepsValid(t, owner, id, r);
    RegisterOnlyTouches(t, owner, id, r);
    RegisterGets(t, clan, id, r, id);
    var s' := Register(t, clan, id, r);
    forall x | x != id && Owned(s, owner, x).Some?
      ensures Owned(s, owner, x).value != r
    {
      ClanCacheIsValid(s, owner, owner(x));
    }
    assert OnlyTouches(s, s', owner, id);
  }

  lemma ContentKeepsValid<R>(s: Tiers<R>, owner: Owner, r: R, content: Channel)
    requires Valid(s, owner) && (r in s.objs ==> s.objs[r].id == content.id)
    ensures Valid(s.(objs := s.objs[r := content]), owner)
  {
    hide L.Get, L.Put, L.Drop, L.Has, L.Distinct;
    var t := s.(objs := s.objs[r := content]);
    assert ValidCache(t, t.client);
    assert forall c :: c in t.clans ==> ValidCache(t, t.clans[c]);
    assert forall id :: Owned(t, owner, id) == Owned(s, owner, id);
  }

  lemma RegisterOnlyTouches<R>(s: Tiers<R>, owner: Owner, id: int, r: R)
    requires Valid(s, owner)
    ensures OnlyTouches(s, Register(s, owner(id), id, r), owner, id)
  {
    hide L.Get, L.Put, L.Drop, L.Has, L.Distinct;
    ClanCacheIsValid(s, owner, owner(id));
    forall x | x != id
      ensures Owned(Register(s, owner(id), id, r), owner, x) == Owned(s, owner, x)
    {
      RegisterGets(s, owner(id), id, r, x);
    }
  }

  lemma ForgetEffect<R>(s: Tiers<R>, owner: Owner, id: int)
    requires Valid(s, owner)
    ensures var s' := Forget(s, owner(id), id);
            && Valid(s', owner) && OnlyTouches(s, s', owner, id)
            && Owned(s', owner, id).None? && StoreGet(s', id).None? && L.Get(s'.client, id).None?
  {
    hide L.Get, L.Put, L.Drop, L.Has, L.Distinct;
    var clan := owner(id);
    var s' := Forget(s, clan, id);
    DropGets(s.client, id);
    L.DropDistinct(s.client, id);
    if clan in s.clans {
      assert ValidCache(s, s.clans[clan]);
      DropGets(s.clans[clan], id);
      L.DropDistinct(s.clans[clan], id);
    }
    assert ValidCache(s', s'.client);
    assert forall c :: c in s'.clans ==> ValidCache(s', s'.clans[c]);
  }

  lemma DropGets<R>(c: L.Cache<int, R>, id: int)
    requires L.Distinct(c)
    ensures forall x :: L.Get(L.Drop(c, id), x) == if x == id then None else L.Get(c, x)
  {
    forall x
      ensures L.Get(L.Drop(c, id), x) == if x == id then None else L.Get(c, x)
    {
      L.DropGet(c, id, x);
    }
  }

  lemma RemoveEffect<R>(s: Tiers<R>, owner: Owner, id: int)
    requires Valid(s, owner)
    ensures var s' := Remove(s, owner(id), id);
            && Valid(s', owner) && OnlyTouches(s, s', owner, id)
            && Owned(s', owner, id).None? && L.Get(s'.client, id).None? && s'.store == s.store
  {
    hide L.Get, L.Put, L.Drop, L.Has, L.Distinct;
    var clan := owner(id);
    var s' := Remove(s, clan, id);
    ClanCacheIsValid(s, owner, clan);
    DropGets(s.client, id);
    L.DropDistinct(s.client, id);
    DropGets(ClanCache(s, clan), id);
    L.DropDistinct(ClanCache(s, clan), id);
    assert ValidCache(s', s'.client);
    assert forall c :: c in s'.clans ==> ValidCache(s', s'.clans[c]);
  }

  lemma CreateEffect<R>(s: Tiers<R>, owner: Owner, d: Desc, spare: R)
    requires Valid(s, owner) && spare !in s.objs
    ensures var id := d.channelId;
            var s' := Create(s, owner(id), d, spare);
            && Valid(s', owner) && OnlyTouches(s, s', owner, id)
            && Owned(s', owner, id) == L.Get(s'.client, id) == Some(spare) && s'.store == s.store
            && s'.objs[spare].id == id && s'.objs[spare].clan == owner(id)
            && Shows(s'.objs[spare].fields, d) && s'.objs[spare].fields == View(d)
  {
    hide L.Get, L.Put, L.Drop, L.Has, L.Distinct;
    var id := d.channelId;
    var content := Channel(id, owner(id), View(d));
    var t := s.(objs := s.objs[spare := content]);
    ContentKeepsValid(s, owner, spare, content);
    RegisterKeepsValid(t, owner, id, spare);
    RegisterOnlyTouches(t, owner, id, spare);
    RegisterGets(t, owner(id), id, spare, id);
    var s' := Create(s, owner(id), d, spare);
    forall x | x != id && Owned(s, owner, x).Some?
      ensures Owned(s, owner, x).value != spare
    {
      ClanCacheIsValid(s, owner, owner(x));
    }
    assert OnlyTouches(s, s', owner, id);
  }
}
