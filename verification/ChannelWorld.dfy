/**
 Runs of the channel caches against a changing server: every fetch, listing, handler and server
 change is one step.  Two promises hold in every reachable state: channels without an unhandled
 change event agree with the server in every tier, and a channel keeps its object until it is
 deleted or an update event for it is handled.
 */
module ChannelWorld {
  import opened Wrappers
  import opened ChannelTiers
  import L = OrderedCache

  /** `pending` lists the channels of the change events not yet handled, oldest first. */
  datatype World<R> = World(tiers: Tiers<R>, server: map<int, Desc>, pending: seq<int>)

  datatype Step<R> =
    | ServerUpdate(d: Desc)
    | ServerCreate(d: Desc)
    | ServerDelete(id: int)
    | HandleEvent
    | FetchChannel(id: int, spare: R)
    | FetchFromClan(clan: int, id: int, spare: R)
    | ReloadClan(clan: int, ds: seq<Desc>, spares: seq<R>)
    | CacheListed(d: Desc, spare: R)
    | CreateInClan(d: Desc, spare: R)
    | DeleteInClan(id: int)
    | StoreExpires(id: int)
    | PeerStores(id: int)

  /** A description the server currently gives for a channel of that clan. */
  ghost predicate Current(server: map<int, Desc>, d: Desc) {
    d.channelId in server && server[d.channelId] == d
  }

  ghost predicate NewChannel(server: map<int, Desc>, owner: Owner, d: Desc) {
    d.channelId !in server && d.channelId != 0 && d.clanId == owner(d.channelId)
  }

  /** The clan is registered, and the reference offered is new should its cache miss and one be needed. */
  ghost predicate UsableInClan<R>(s: Tiers<R>, owner: Owner, clan: int, id: int, spare: R) {
    clan in s.clans && (L.Get(s.clans[clan], id).Some? || Usable(s, owner(id), id, spare))
  }

  ghost predicate Enabled<R>(w: World<R>, owner: Owner, step: Step<R>) {
    match step
    case ServerUpdate(d) => d.channelId in w.server && d.clanId == owner(d.channelId)
    case ServerCreate(d) => NewChannel(w.server, owner, d)
    case ServerDelete(id) => id in w.server
    case HandleEvent => w.pending != []
    case FetchChannel(id, f) => Usable(w.tiers, owner(id), id, f)
    case FetchFromClan(clan, id, f) => UsableInClan(w.tiers, owner, clan, id, f)
    case ReloadClan(clan, ds, fs) =>
      && UsableSupply(w.tiers, clan, Listed(ds), fs)
      && forall d :: d in Listed(ds) ==> Current(w.server, d) && d.clanId == clan
    case CacheListed(d, f) => Current(w.server, d) && Usable(w.tiers, d.clanId, d.channelId, f)
    case CreateInClan(d, f) => NewChannel(w.server, owner, d) && f !in w.tiers.objs
    case DeleteInClan(id) => id in w.server
    case StoreExpires(_) => true
    case PeerStores(id) => id in w.server
  }

  function Do<R(==)>(w: World<R>, owner: Owner, step: Step<R>): (w': World<R>)
    requires Enabled(w, owner, step)
  {
    var s := w.tiers;
    match step
    case ServerUpdate(d) => World(s, w.server[d.channelId := d], w.pending + [d.channelId])
    case ServerCreate(d) => World(s, w.server[d.channelId := d], w.pending)
    case ServerDelete(id) => World(s, w.server - {id}, w.pending + [id])
    case HandleEvent => World(Forget(s, owner(w.pending[0]), w.pending[0]), w.server, w.pending[1..])
    case FetchChannel(id, f) => w.(tiers := Fetch(s, w.server, id, f))
    case FetchFromClan(clan, id, f) => w.(tiers := FetchInClan(s, w.server, clan, id, f))
    case ReloadClan(clan, ds, fs) => w.(tiers := Reload(s, clan, Listed(ds), fs))
    case CacheListed(d, f) => w.(tiers := Upsert(s, d.clanId, d, f))
    case CreateInClan(d, f) => World(Create(s, d.clanId, d, f), w.server[d.channelId := d], w.pending)
    case DeleteInClan(id) => World(Remove(s, owner(id), id), w.server - {id}, w.pending + [id])
    case StoreExpires(id) => w.(tiers := StoreDelete(s, id))
    case PeerStores(id) => w.(tiers := StoreSet(s, id, w.server[id]))
  }

  ghost predicate Inv<R>(w: World<R>, owner: Owner) {
    && Canonical(w.server, owner)
    && Valid(w.tiers, owner)
    && Coherent(w.tiers, owner, w.server, w.pending)
  }

  // ----------------------------------------------------------------- fetching

  lemma PutSame<R>(c: L.Cache<int, R>, max: int, id: int, r: R)
    requires L.Distinct(c) && L.Get(c, id) == Some(r)
    ensures L.Put(c, max, id, r) == c
  {
    L.GetIsMembership(c, id, r);
    var i :| 0 <= i < |c| && c[i] == L.Entry(id, r);
    forall j | 0 <= j < |c| && c[j].key == id
      ensures c[j] == L.Entry(id, r)
    {
      assert j == i;
    }
  }

  lemma StoreKeepsValid<R>(s: Tiers<R>, owner: Owner, id: int, d: Desc)
    requires Valid(s, owner) && d.channelId == id && id != 0 && d.clanId == owner(id)
    ensures Valid(StoreSet(s, id, d), owner) && OnlyTouches(s, StoreSet(s, id, d), owner, id)
  {
    hide L.Get, L.Put, L.Drop, L.Has, L.Distinct;
    var t := StoreSet(s, id, d);
    assert ValidCache(t, t.client);
    assert forall c :: c in s.clans ==> ValidCache(t, t.clans[c]);
    assert forall x :: Owned(t, owner, x) == Owned(s, owner, x);
  }

  lemma StoreDeleteKeepsValid<R>(s: Tiers<R>, owner: Owner, id: int)
    requires Valid(s, owner)
    ensures Valid(StoreDelete(s, id), owner) && OnlyTouches(s, StoreDelete(s, id), owner, id)
  {
    hide L.Get, L.Put, L.Drop, L.Has, L.Distinct;
    var t := StoreDelete(s, id);
    assert ValidCache(t, t.client);
    assert forall c :: c in s.clans ==> ValidCache(t, t.clans[c]);
    assert forall x :: Owned(t, owner, x) == Owned(s, owner, x);
  }

  /** The result of a fetch is the server's: found exactly when the server has the channel, with its fields. */
  ghost predicate AnswersAs<R>(s': Tiers<R>, r: Option<R>, server: map<int, Desc>, id: int) {
    && (r.Some? <==> id in server)
    && (r.Some? ==> r.value in s'.objs && Shows(s'.objs[r.value].fields, server[id]))
  }

  /** A clan's cache holds an object for the channel that its owning clan has given up. */
  ghost predicate Orphan<R>(s: Tiers<R>, owner: Owner, clan: int, id: int) {
    var c := L.Get(ClanCache(s, clan), id);
    c.Some? && c != Owned(s, owner, id)
  }

  /** What a fetch does and returns: it touches only its own channel, returns the object the owning
      clan already has, and, where the tiers agreed with the server, answers as the server would. */
  lemma FetchEffect<R>(s: Tiers<R>, owner: Owner, server: map<int, Desc>, id: int, f: R)
    requires Valid(s, owner) && Canonical(server, owner) && Usable(s, owner(id), id, f)
    ensures var s', r := Fetch(s, server, id, f), Fetched(s, server, id, f);
            && Valid(s', owner) && OnlyTouches(s, s', owner, id)
            && (r.Some? ==> Owned(s', owner, id) == L.Get(s'.client, id) == r)
            && (Owned(s, owner, id).Some? ==> Owned(s', owner, id) == Owned(s, owner, id))
            && (Agrees(s, owner, server, id) ==>
                  && Agrees(s', owner, server, id)
                  && (r.Some? <==> id in server))
  {
    hide L.Get, L.Put, L.Drop, L.Has, L.Distinct;
    if L.Get(s.client, id).None? && Loaded(s, server, id).Some? {
      FetchIsUpsert(s, owner, server, id, f);
      UpsertEffect(AfterLoad(s, server, id), owner, Loaded(s, server, id).value, f);
    }
  }

  /**
   Where a fetch takes its answer from: a hit changes nothing; a miss shows the store's description if
   there is one and leaves the store alone, else the server's, which it also puts into the store; a
   channel neither has is not found and changes nothing.
   */
  lemma FetchLoads<R>(s: Tiers<R>, owner: Owner, server: map<int, Desc>, id: int, f: R)
    requires Valid(s, owner) && Canonical(server, owner) && Usable(s, owner(id), id, f)
    ensures var s', r := Fetch(s, server, id, f), Fetched(s, server, id, f);
            var hit, stored := L.Get(s.client, id), StoreGet(s, id);
            if hit.Some? then r == hit && s' == s
            else if stored.Some? then
              r.Some? && r.value in s'.objs && Shows(s'.objs[r.value].fields, stored.value) && s'.store == s.store
            else if id in server then
              && r.Some? && r.value in s'.objs && Shows(s'.objs[r.value].fields, server[id])
              && s'.store == (if s.store.Some? then Some(s.store.value[id := server[id]]) else None)
            else r.None? && s' == s
  {
    hide L.Get, L.Put, L.Drop, L.Has, L.Distinct, Upsert;
    if L.Get(s.client, id).None? && Loaded(s, server, id).Some? {
      FetchIsUpsert(s, owner, server, id, f);
      UpsertEffect(AfterLoad(s, server, id), owner, Loaded(s, server, id).value, f);
    }
  }

  /** A description without an id, should the server give one, counts as not found. */
  lemma ZeroIdIsNotFound<R>(s: Tiers<R>, server: map<int, Desc>, id: int, f: R)
    requires L.Get(s.client, id).None? && StoreGet(s, id).None? && id in server && server[id].channelId == 0
    ensures Fetched(s, server, id, f).None? && Fetch(s, server, id, f) == s
  {
  }

  /** On a miss, setting the channel again after the upsert changes nothing. */
  lemma FetchIsUpsert<R>(s: Tiers<R>, owner: Owner, server: map<int, Desc>, id: int, f: R)
    requires Valid(s, owner) && Canonical(server, owner) && Usable(s, owner(id), id, f)
    requires L.Get(s.client, id).None? && Loaded(s, server, id).Some?
    ensures var d, t := Loaded(s, server, id).value, AfterLoad(s, server, id);
            && d.channelId == id && d.clanId == owner(id)
            && Valid(t, owner) && OnlyTouches(s, t, owner, id) && Usable(t, owner(id), id, f)
            && t == s.(store := t.store) && (StoreGet(s, id).Some? || s.store.None? ==> t == s)
            && (t != s ==> StoreGet(t, id) == Some(server[id]) && id in server)
            && Fetched(s, server, id, f) == Some(Chosen(t, owner(id), id, f))
            && Fetch(s, server, id, f) == Upsert(t, owner(id), d, f)
  {
    hide L.Get, L.Put, L.Drop, L.Has, L.Distinct;
    var d, t := Loaded(s, server, id).value, AfterLoad(s, server, id);
    assert d.channelId == id && d.clanId == owner(id) && id != 0;
    StoreKeepsValid(s, owner, id, d);
    UpsertEffect(t, owner, d, f);
    var u := Upsert(t, d.clanId, d, f);
    assert Chosen(t, d.clanId, id, f) == Chosen(s, d.clanId, id, f);
    PutSame(u.client, u.max, id, Chosen(s, d.clanId, id, f));
  }

  /** Remembering a fetched object in any clan's cache changes nothing in the owning clan. */
  lemma RememberEffect<R>(s: Tiers<R>, owner: Owner, clan: int, id: int, r: R)
    requires Valid(s, owner) && clan in s.clans && Owned(s, owner, id) == Some(r)
    ensures var s' := s.(clans := s.clans[clan := L.Put(s.clans[clan], 0, id, r)]);
            && Valid(s', owner)
            && (forall x :: Owned(s', owner, x) == Owned(s, owner, x))
            && (forall x :: L.Get(s'.clans[clan], x) == if x == id then Some(r) else L.Get(s.clans[clan], x))
  {
    hide L.Get, L.Put, L.Drop, L.Has, L.Distinct;
    var c := s.clans[clan];
    var s' := s.(clans := s.clans[clan := L.Put(c, 0, id, r)]);
    assert ValidCache(s, c);
    ClanCacheIsValid(s, owner, owner(id));
    L.PutDistinct(c, 0, id, r);
    forall x
      ensures L.Get(L.Put(c, 0, id, r), x) == if x == id then Some(r) else L.Get(c, x)
    {
      L.PutGet(c, 0, id, r, x);
    }
    assert ValidCache(s', s'.client);
    assert forall k :: k in s'.clans ==> ValidCache(s', s'.clans[k]);
  }

  /** A clan fetch answers from that clan's cache, whatever it holds; without an entry there, or with
      the owning clan's object, it answers as the server would where the tiers agreed with it. */
  lemma FetchInClanEffect<R>(s: Tiers<R>, owner: Owner, server: map<int, Desc>, clan: int, id: int, f: R)
    requires Valid(s, owner) && Canonical(server, owner) && UsableInClan(s, owner, clan, id, f)
    ensures var s', r := FetchInClan(s, server, clan, id, f), FetchedInClan(s, server, clan, id, f);
            && Valid(s', owner) && OnlyTouches(s, s', owner, id)
            && L.Get(ClanCache(s', clan), id) == r && (r.Some? ==> r.value in s'.objs)
            && (L.Get(ClanCache(s, clan), id).Some? ==> s' == s)
            && (Owned(s, owner, id).Some? ==> Owned(s', owner, id) == Owned(s, owner, id))
            && (Agrees(s, owner, server, id) ==>
                  && Agrees(s', owner, server, id)
                  && (!Orphan(s, owner, clan, id) ==> AnswersAs(s', r, server, id)))
  {
    hide L.Get, L.Put, L.Drop, L.Has, L.Distinct, Fetch, Fetched;
    var c := L.Get(ClanCache(s, clan), id);
    ClanCacheIsValid(s, owner, clan);
    if c.None? {
      FetchEffect(s, owner, server, id, f);
      FetchKeepsClans(s, server, id, f);
      var t := Fetch(s, server, id, f);
      var r := Fetched(s, server, id, f);
      if r.Some? {
        RememberEffect(t, owner, clan, id, r.value);
      } else {
        FetchFails(s, server, id, f);
      }
    }
  }

  lemma FetchFails<R>(s: Tiers<R>, server: map<int, Desc>, id: int, f: R)
    requires Fetched(s, server, id, f).None?
    ensures Fetch(s, server, id, f) == s
  {
  }

  lemma FetchKeepsClans<R>(s: Tiers<R>, server: map<int, Desc>, id: int, f: R)
    ensures forall c :: c in s.clans ==> c in Fetch(s, server, id, f).clans
  {
  }

  /** Merging a listing keeps the tiers valid, keeps every object, and can only create agreement. */
  lemma {:induction false} ReloadEffect<R>(
    s: Tiers<R>, owner: Owner, server: map<int, Desc>, clan: int, ds: seq<Desc>, fs: seq<R>, x: int)
    requires Valid(s, owner) && Canonical(server, owner) && UsableSupply(s, clan, ds, fs)
    requires forall d :: d in ds ==> Current(server, d) && d.clanId == clan
    ensures var s' := Reload(s, clan, ds, fs);
            && Valid(s', owner)
            && (Owned(s, owner, x).Some? ==> Owned(s', owner, x) == Owned(s, owner, x))
            && (Agrees(s, owner, server, x) ==> Agrees(s', owner, server, x))
    decreases |ds|
  {
    hide L.Get, L.Put, L.Drop, L.Has, L.Distinct;
    if ds != [] {
      var n := |ds| - 1;
      var d := ds[n];
      ReloadEffect(s, owner, server, clan, ds[..n], fs[..n], x);
      var t := Reload(s, clan, ds[..n], fs[..n]);
      assert Current(server, d) && clan == owner(d.channelId);
      UpsertEffect(t, owner, d, fs[n]);
      if x != d.channelId && Agrees(s, owner, server, x) {
        OthersStillAgree(t, Upsert(t, clan, d, fs[n]), owner, server, d.channelId, x);
      }
    }
  }

  /** After merging a listing every channel listed is in its clan's cache, showing its description. */
  lemma {:induction false} ReloadShows<R>(
    s: Tiers<R>, owner: Owner, server: map<int, Desc>, clan: int, ds: seq<Desc>, fs: seq<R>, d: Desc)
    requires Valid(s, owner) && Canonical(server, owner) && UsableSupply(s, clan, ds, fs)
    requires forall d :: d in ds ==> Current(server, d) && d.clanId == clan
    requires d in ds
    ensures var s', r := Reload(s, clan, ds, fs), Owned(Reload(s, clan, ds, fs), owner, d.channelId);
            r.Some? && r.value in s'.objs && Shows(s'.objs[r.value].fields, d)
    decreases |ds|
  {
    hide L.Get, L.Put, L.Drop, L.Has, L.Distinct, Upsert;
    var n := |ds| - 1;
    ReloadEffect(s, owner, server, clan, ds[..n], fs[..n], d.channelId);
    assert Current(server, ds[n]) && clan == owner(ds[n].channelId);
    UpsertEffect(Reload(s, clan, ds[..n], fs[..n]), owner, ds[n], fs[n]);
    if d.channelId == ds[n].channelId {
      assert d == ds[n];
    } else {
      ReloadShows(s, owner, server, clan, ds[..n], fs[..n], d);
    }
  }

  /** And nothing else has changed: neither the store nor a channel that was not listed. */
  lemma {:induction false} ReloadKeepsOthers<R>(
    s: Tiers<R>, owner: Owner, server: map<int, Desc>, clan: int, ds: seq<Desc>, fs: seq<R>, x: int)
    requires Valid(s, owner) && Canonical(server, owner) && UsableSupply(s, clan, ds, fs)
    requires forall d :: d in ds ==> Current(server, d) && d.clanId == clan && d.channelId != x
    ensures var s', r := Reload(s, clan, ds, fs), Owned(s, owner, x);
            && s'.store == s.store && Owned(s', owner, x) == r
            && (r.Some? && r.value in s.objs ==> r.value in s'.objs && s'.objs[r.value] == s.objs[r.value])
    decreases |ds|
  {
    hide L.Get, L.Put, L.Drop, L.Has, L.Distinct, Upsert;
    if ds != [] {
      var n := |ds| - 1;
      ReloadKeepsOthers(s, owner, server, clan, ds[..n], fs[..n], x);
      ReloadEffect(s, owner, server, clan, ds[..n], fs[..n], x);
      assert Current(server, ds[n]) && clan == owner(ds[n].channelId);
      UpsertEffect(Reload(s, clan, ds[..n], fs[..n]), owner, ds[n], fs[n]);
    }
  }

  // -------------------------------------------------------------------- every step

  /** A step through which a channel's object may be given up. */
  ghost predicate GivesUp<R>(w: World<R>, step: Step<R>, id: int) {
    match step
    case HandleEvent => w.pending != [] && w.pending[0] == id
    case CreateInClan(d, _) => d.channelId == id
    case DeleteInClan(x) => x == id
    case _ => false
  }

  lemma TouchKeepsCoherent<R>(w: World<R>, s': Tiers<R>, owner: Owner, id: int)
    requires Inv(w, owner) && Valid(s', owner) && OnlyTouches(w.tiers, s', owner, id)
    requires Agrees(w.tiers, owner, w.server, id) ==> Agrees(s', owner, w.server, id)
    ensures Inv(w.(tiers := s'), owner)
  {
    forall x | x !in w.pending
      ensures Agrees(s', owner, w.server, x)
    {
      if x != id {
        OthersStillAgree(w.tiers, s', owner, w.server, id, x);
      }
    }
  }

  /** A server change is covered by the event it queues. */
  lemma ServerChangeKeepsInv<R>(w: World<R>, owner: Owner, server': map<int, Desc>, id: int)
    requires Inv(w, owner) && Canonical(server', owner)
    requires forall x :: x != id ==> (x in server' <==> x in w.server) && (x in server' ==> server'[x] == w.server[x])
    ensures Inv(World(w.tiers, server', w.pending + [id]), owner)
    ensures id !in w.server ==> Inv(World(w.tiers, server', w.pending), owner)
  {
    assert forall x :: x !in w.pending + [id] ==> x !in w.pending && x != id;
    forall x | x !in w.pending && (x != id || id !in w.server)
      ensures Agrees(w.tiers, owner, server', x)
    {
      assert Agrees(w.tiers, owner, w.server, x);
    }
  }

  lemma HandleEventKeepsInv<R>(w: World<R>, owner: Owner)
    requires Inv(w, owner) && w.pending != []
    ensures Inv(Do(w, owner, HandleEvent), owner)
  {
    hide L.Get, L.Put, L.Drop, L.Has, L.Distinct;
    var id := w.pending[0];
    ForgetEffect(w.tiers, owner, id);
    var s' := Forget(w.tiers, owner(id), id);
    assert w.pending == [id] + w.pending[1..];
    forall x | x !in w.pending[1..]
      ensures Agrees(s', owner, w.server, x)
    {
      if x != id {
        OthersStillAgree(w.tiers, s', owner, w.server, id, x);
      }
    }
  }

  lemma CreateKeepsInv<R>(w: World<R>, owner: Owner, d: Desc, f: R)
    requires Inv(w, owner) && Enabled(w, owner, CreateInClan(d, f))
    ensures Inv(Do(w, owner, CreateInClan(d, f)), owner)
  {
    hide L.Get, L.Put, L.Drop, L.Has, L.Distinct;
    var id := d.channelId;
    var w1 := w.(server := w.server[id := d]);
    ServerChangeKeepsInv(w, owner, w1.server, id);
    CreateEffect(w.tiers, owner, d, f);
    TouchKeepsCoherent(w1, Create(w.tiers, d.clanId, d, f), owner, id);
  }

  lemma DeleteKeepsInv<R>(w: World<R>, owner: Owner, id: int)
    requires Inv(w, owner) && id in w.server
    ensures Inv(Do(w, owner, DeleteInClan(id)), owner)
  {
    hide L.Get, L.Put, L.Drop, L.Has, L.Distinct;
    ServerChangeKeepsInv(w, owner, w.server - {id}, id);
    var w1 := World(w.tiers, w.server - {id}, w.pending + [id]);
    RemoveEffect(w.tiers, owner, id);
    TouchKeepsCoherent(w1, Remove(w.tiers, owner(id), id), owner, id);
  }

  lemma ReloadKeepsInv<R>(w: World<R>, owner: Owner, clan: int, ds: seq<Desc>, fs: seq<R>)
    requires Inv(w, owner) && Enabled(w, owner, ReloadClan(clan, ds, fs))
    ensures Inv(Do(w, owner, ReloadClan(clan, ds, fs)), owner)
  {
    hide L.Get, L.Put, L.Drop, L.Has, L.Distinct;
    ReloadEffect(w.tiers, owner, w.server, clan, Listed(ds), fs, 0);
    forall x | x !in w.pending
      ensures Agrees(Reload(w.tiers, clan, Listed(ds), fs), owner, w.server, x)
    {
      ReloadEffect(w.tiers, owner, w.server, clan, Listed(ds), fs, x);
    }
  }

  lemma TierStepKeepsInv<R>(w: World<R>, owner: Owner, step: Step<R>)
    requires Inv(w, owner) && Enabled(w, owner, step)
    requires step.FetchChannel? || step.FetchFromClan? || step.CacheListed? || step.StoreExpires? || step.PeerStores?
    ensures Inv(Do(w, owner, step), owner)
  {
    hide L.Get, L.Put, L.Drop, L.Has, L.Distinct;
    var s := w.tiers;
    match step
    case FetchChannel(id, f) =>
      FetchEffect(s, owner, w.server, id, f);
      TouchKeepsCoherent(w, Fetch(s, w.server, id, f), owner, id);
    case FetchFromClan(clan, id, f) =>
      FetchInClanEffect(s, owner, w.server, clan, id, f);
      TouchKeepsCoherent(w, FetchInClan(s, w.server, clan, id, f), owner, id);
    case CacheListed(d, f) =>
      UpsertEffect(s, owner, d, f);
      TouchKeepsCoherent(w, Upsert(s, d.clanId, d, f), owner, d.channelId);
    case StoreExpires(id) =>
      StoreDeleteKeepsValid(s, owner, id);
      TouchKeepsCoherent(w, StoreDelete(s, id), owner, id);
    case PeerStores(id) =>
      StoreKeepsValid(s, owner, id, w.server[id]);
      TouchKeepsCoherent(w, StoreSet(s, id, w.server[id]), owner, id);
  }

  /** Every step keeps the tiers coherent with the server. */
  lemma StepKeepsInv<R>(w: World<R>, owner: Owner, step: Step<R>)
    requires Inv(w, owner) && Enabled(w, owner, step)
    ensures Inv(Do(w, owner, step), owner)
  {
    match step
    case ServerUpdate(d) => ServerChangeKeepsInv(w, owner, w.server[d.channelId := d], d.channelId);
    case ServerCreate(d) => ServerChangeKeepsInv(w, owner, w.server[d.channelId := d], d.channelId);
    case ServerDelete(id) => ServerChangeKeepsInv(w, owner, w.server - {id}, id);
    case HandleEvent => HandleEventKeepsInv(w, owner);
    case ReloadClan(clan, ds, fs) => ReloadKeepsInv(w, owner, clan, ds, fs);
    case CreateInClan(d, f) => CreateKeepsInv(w, owner, d, f);
    case DeleteInClan(id) => DeleteKeepsInv(w, owner, id);
    case _ => TierStepKeepsInv(w, owner, step);
  }

  /** A step that does not give a channel up keeps the object its owning clan holds for it. */
  lemma StepKeepsObject<R>(w: World<R>, owner: Owner, step: Step<R>, id: int)
    requires Inv(w, owner) && Enabled(w, owner, step)
    requires !GivesUp(w, step, id) && Owned(w.tiers, owner, id).Some?
    ensures Owned(Do(w, owner, step).tiers, owner, id) == Owned(w.tiers, owner, id)
  {
    hide L.Get, L.Put, L.Drop, L.Has, L.Distinct;
    var s := w.tiers;
    match step
    case HandleEvent => ForgetEffect(s, owner, w.pending[0]);
    case FetchChannel(x, f) => FetchEffect(s, owner, w.server, x, f);
    case FetchFromClan(clan, x, f) => FetchInClanEffect(s, owner, w.server, clan, x, f);
    case ReloadClan(clan, ds, fs) => ReloadEffect(s, owner, w.server, clan, Listed(ds), fs, id);
    case CacheListed(d, f) => UpsertEffect(s, owner, d, f);
    case CreateInClan(d, f) => CreateEffect(s, owner, d, f);
    case DeleteInClan(x) => RemoveEffect(s, owner, x);
    case _ =>
  }

  // -------------------------------------------------------------------------- runs

  ghost predicate Legal<R>(w: World<R>, owner: Owner, steps: seq<Step<R>>)
    decreases |steps|
  {
    steps == [] || (Enabled(w, owner, steps[0]) && Legal(Do(w, owner, steps[0]), owner, steps[1..]))
  }

  ghost function Run<R>(w: World<R>, owner: Owner, steps: seq<Step<R>>): (w': World<R>)
    requires Legal(w, owner, steps)
    decreases |steps|
  {
    if steps == [] then w else Run(Do(w, owner, steps[0]), owner, steps[1..])
  }

  /** No step of the run gives the channel up. */
  ghost predicate KeptThroughout<R>(w: World<R>, owner: Owner, steps: seq<Step<R>>, id: int)
    requires Legal(w, owner, steps)
    decreases |steps|
  {
    steps == [] ||
    (!GivesUp(w, steps[0], id) && KeptThroughout(Do(w, owner, steps[0]), owner, steps[1..], id))
  }

  lemma {:induction false} RunKeepsInv<R>(w: World<R>, owner: Owner, steps: seq<Step<R>>)
    requires Inv(w, owner) && Legal(w, owner, steps)
    ensures Inv(Run(w, owner, steps), owner)
    decreases |steps|
  {
    hide Do, Enabled, Inv;
    if steps != [] {
      StepKeepsInv(w, owner, steps[0]);
      RunKeepsInv(Do(w, owner, steps[0]), owner, steps[1..]);
    }
  }

  lemma {:induction false} RunKeepsObject<R>(w: World<R>, owner: Owner, steps: seq<Step<R>>, id: int)
    requires Inv(w, owner) && Legal(w, owner, steps) && KeptThroughout(w, owner, steps, id)
    requires Owned(w.tiers, owner, id).Some?
    ensures Owned(Run(w, owner, steps).tiers, owner, id) == Owned(w.tiers, owner, id)
    decreases |steps|
  {
    hide Do, Enabled, Inv, GivesUp;
    if steps != [] {
      StepKeepsInv(w, owner, steps[0]);
      StepKeepsObject(w, owner, steps[0], id);
      RunKeepsObject(Do(w, owner, steps[0]), owner, steps[1..], id);
    }
  }

  /** What peers stored is what the server has, unless a change event is still to be handled. */
  ghost predicate StoreIsCurrent<R>(w: World<R>) {
    forall id :: id !in w.pending && StoreGet(w.tiers, id).Some? ==>
      id in w.server && w.server[id] == StoreGet(w.tiers, id).value
  }

  /** A client that has just started, on a store its peers may have filled. */
  ghost predicate Initial<R>(w: World<R>, owner: Owner) {
    && Canonical(w.server, owner)
    && (w.tiers.store.Some? ==> Canonical(w.tiers.store.value, owner) && StoreIsCurrent(w))
    && w.tiers.client == [] && (forall clan :: clan in w.tiers.clans ==> w.tiers.clans[clan] == [])
  }

  /**
   Cache coherence: after any run, fetching a channel with no unhandled change event succeeds
   exactly when the server has it, and the object returned shows the server's description.
   */
  lemma FetchAgreesWithServer<R>(w: World<R>, owner: Owner, steps: seq<Step<R>>, id: int, f: R)
    requires Initial(w, owner) && Legal(w, owner, steps)
    requires var e := Run(w, owner, steps); id !in e.pending && Usable(e.tiers, owner(id), id, f)
    ensures var e := Run(w, owner, steps);
            var r, s' := Fetched(e.tiers, e.server, id, f), Fetch(e.tiers, e.server, id, f);
            AnswersAs(s', r, e.server, id)
  {
    InitialIsInv(w, owner);
    RunKeepsInv(w, owner, steps);
    var e := Run(w, owner, steps);
    assert Agrees(e.tiers, owner, e.server, id);
    FetchEffect(e.tiers, owner, e.server, id, f);
  }

  lemma InitialIsInv<R>(w: World<R>, owner: Owner)
    requires Initial(w, owner)
    ensures Inv(w, owner)
  {
  }

  // ------------------------------------------------------------------- the client's bound

  /** A positive maximum of the client cache is respected. */
  ghost predicate Bounded<R>(s: Tiers<R>) {
    s.max > 0 ==> |s.client| <= s.max
  }

  lemma UpsertIsBounded<R>(s: Tiers<R>, clan: int, d: Desc, f: R)
    requires Bounded(s)
    ensures Bounded(Upsert(s, clan, d, f)) && Upsert(s, clan, d, f).max == s.max
  {
    hide L.Get, L.Put, L.Has;
    L.PutSize(s.client, s.max, d.channelId, Chosen(s, clan, d.channelId, f));
  }

  lemma CreateIsBounded<R>(s: Tiers<R>, clan: int, d: Desc, f: R)
    requires Bounded(s)
    ensures Bounded(Create(s, clan, d, f)) && Create(s, clan, d, f).max == s.max
  {
    hide L.Get, L.Put, L.Has;
    L.PutSize(s.client, s.max, d.channelId, f);
  }

  lemma FetchIsBounded<R>(s: Tiers<R>, server: map<int, Desc>, id: int, f: R)
    requires Bounded(s)
    ensures Bounded(Fetch(s, server, id, f)) && Fetch(s, server, id, f).max == s.max
  {
    hide L.Get, L.Put, L.Has, Upsert, Chosen;
    if L.Get(s.client, id).None? && Loaded(s, server, id).Some? {
      var d, t := Loaded(s, server, id).value, AfterLoad(s, server, id);
      UpsertIsBounded(t, d.clanId, d, f);
      var u := Upsert(t, d.clanId, d, f);
      L.PutSize(u.client, u.max, id, Chosen(s, d.clanId, d.channelId, f));
    }
  }

  lemma {:induction false} ReloadIsBounded<R>(s: Tiers<R>, clan: int, ds: seq<Desc>, fs: seq<R>)
    requires Bounded(s) && |fs| == |ds|
    ensures Bounded(Reload(s, clan, ds, fs)) && Reload(s, clan, ds, fs).max == s.max
    decreases |ds|
  {
    hide Upsert;
    if ds != [] {
      var n := |ds| - 1;
      ReloadIsBounded(s, clan, ds[..n], fs[..n]);
      UpsertIsBounded(Reload(s, clan, ds[..n], fs[..n]), clan, ds[n], fs[n]);
    }
  }

  lemma StepIsBounded<R>(w: World<R>, owner: Owner, step: Step<R>)
    requires Enabled(w, owner, step) && Bounded(w.tiers)
    ensures Bounded(Do(w, owner, step).tiers) && Do(w, owner, step).tiers.max == w.tiers.max
  {
    hide L.Get, L.Put, L.Has, L.Drop, Upsert, Create, Fetch, Reload;
    var s := w.tiers;
    match step
    case HandleEvent => L.DropShrinks(s.client, w.pending[0]);
    case FetchChannel(id, f) => FetchIsBounded(s, w.server, id, f);
    case FetchFromClan(_, id, f) => FetchIsBounded(s, w.server, id, f);
    case ReloadClan(clan, ds, fs) => ReloadIsBounded(s, clan, Listed(ds), fs);
    case CacheListed(d, f) => UpsertIsBounded(s, d.clanId, d, f);
    case CreateInClan(d, f) => CreateIsBounded(s, d.clanId, d, f);
    case DeleteInClan(id) => L.DropShrinks(s.client, id);
    case _ =>
  }

  /** After any run the client cache is within its maximum, which never changes. */
  lemma {:induction false} ClientIsBounded<R>(w: World<R>, owner: Owner, steps: seq<Step<R>>)
    requires Bounded(w.tiers) && Legal(w, owner, steps)
    ensures Bounded(Run(w, owner, steps).tiers) && Run(w, owner, steps).tiers.max == w.tiers.max
    decreases |steps|
  {
    hide Do, Enabled, Bounded;
    if steps != [] {
      StepIsBounded(w, owner, steps[0]);
      ClientIsBounded(Do(w, owner, steps[0]), owner, steps[1..]);
    }
  }

  // ------------------------------------------------------------------------- identity

  /**
   Channel identity: from any reachable state, while no step gives the channel up, every later
   fetch that succeeds returns the object the owning clan held, evictions and reloads notwithstanding,
   and the client cache never holds another one.
   */
  lemma FetchReturnsSameObject<R>(w: World<R>, owner: Owner, steps: seq<Step<R>>, id: int, f: R)
    requires Inv(w, owner) && Legal(w, owner, steps) && KeptThroughout(w, owner, steps, id)
    requires Owned(w.tiers, owner, id).Some?
    ensures var e := Run(w, owner, steps);
            && (Fetched(e.tiers, e.server, id, f).Some? ==>
                  Fetched(e.tiers, e.server, id, f) == Owned(w.tiers, owner, id))
            && (L.Get(e.tiers.client, id).Some? ==> L.Get(e.tiers.client, id) == Owned(w.tiers, owner, id))
  {
    RunKeepsInv(w, owner, steps);
    RunKeepsObject(w, owner, steps, id);
    var e := Run(w, owner, steps);
    FetchEffect(e.tiers, owner, e.server, id, f);
  }

  // ---------------------------------------------------- fetching through another clan

  /**
   After any run, a fetch through any registered clan of a channel without unhandled change events
   answers as the server exactly when that clan's cache holds no orphan for it, or one that happens
   to show what the server has.  The owning clan's cache never holds one.
   */
  lemma ClanFetchAgreesExactlyWhen<R>(w: World<R>, owner: Owner, steps: seq<Step<R>>, clan: int, id: int, f: R)
    requires Initial(w, owner) && Legal(w, owner, steps)
    requires var e := Run(w, owner, steps); id !in e.pending && UsableInClan(e.tiers, owner, clan, id, f)
    ensures var e := Run(w, owner, steps);
            var s, c := e.tiers, L.Get(ClanCache(e.tiers, clan), id);
            && (AnswersAs(FetchInClan(s, e.server, clan, id, f), FetchedInClan(s, e.server, clan, id, f), e.server, id) <==>
                (Orphan(s, owner, clan, id) ==>
                   id in e.server && c.value in s.objs && Shows(s.objs[c.value].fields, e.server[id])))
            && (clan == owner(id) ==> !Orphan(s, owner, clan, id))
  {
    InitialIsInv(w, owner);
    RunKeepsInv(w, owner, steps);
    var e := Run(w, owner, steps);
    assert Agrees(e.tiers, owner, e.server, id);
    ClanCacheIsValid(e.tiers, owner, clan);
    FetchInClanEffect(e.tiers, owner, e.server, clan, id, f);
  }

  /** A clan that does not own the channel has an entry for it. */
  ghost predicate Foreign<R>(s: Tiers<R>, owner: Owner, clan: int, id: int) {
    clan != owner(id) && L.Get(ClanCache(s, clan), id).Some?
  }

  /** Such an entry stays, and, if it is an orphan, stays one with the same fields. */
  ghost predicate Frozen<R>(s: Tiers<R>, s': Tiers<R>, owner: Owner, clan: int, id: int) {
    var c := L.Get(ClanCache(s, clan), id);
    && c.Some? && L.Get(ClanCache(s', clan), id) == c && c.value in s.objs && c.value in s'.objs
    && (Orphan(s, owner, clan, id) ==> Orphan(s', owner, clan, id) && s'.objs[c.value] == s.objs[c.value])
  }

  lemma UpsertFreezes<R>(s: Tiers<R>, owner: Owner, d: Desc, f: R, clan: int, id: int)
    requires Valid(s, owner) && Usable(s, owner(d.channelId), d.channelId, f) && Foreign(s, owner, clan, id)
    ensures Frozen(s, Upsert(s, owner(d.channelId), d, f), owner, clan, id)
  {
    hide L.Get, L.Put, L.Drop, L.Has, L.Distinct;
    var x, k := d.channelId, owner(d.channelId);
    ClanCacheIsValid(s, owner, clan);
    ClanCacheIsValid(s, owner, k);
    UpsertEffect(s, owner, d, f);
    var r := Chosen(s, k, x, f);
    var content := if r in s.objs then s.objs[r].(fields := View(d)) else Channel(x, k, View(d));
    RegisterGets(s.(objs := s.objs[r := content]), k, x, r, id);
  }

  lemma CreateFreezes<R>(s: Tiers<R>, owner: Owner, d: Desc, f: R, clan: int, id: int)
    requires Valid(s, owner) && f !in s.objs && Foreign(s, owner, clan, id)
    ensures Frozen(s, Create(s, owner(d.channelId), d, f), owner, clan, id)
  {
    hide L.Get, L.Put, L.Drop, L.Has, L.Distinct;
    var x, k := d.channelId, owner(d.channelId);
    ClanCacheIsValid(s, owner, clan);
    ClanCacheIsValid(s, owner, k);
    CreateEffect(s, owner, d, f);
    RegisterGets(s.(objs := s.objs[f := Channel(x, k, View(d))]), k, x, f, id);
  }

  lemma FetchFreezes<R>(s: Tiers<R>, owner: Owner, server: map<int, Desc>, x: int, f: R, clan: int, id: int)
    requires Valid(s, owner) && Canonical(server, owner) && Usable(s, owner(x), x, f) && Foreign(s, owner, clan, id)
    ensures Frozen(s, Fetch(s, server, x, f), owner, clan, id)
  {
    hide L.Get, L.Put, L.Drop, L.Has, L.Distinct, Upsert, OnlyTouches;
    ClanCacheIsValid(s, owner, clan);
    if L.Get(s.client, x).None? && Loaded(s, server, x).Some? {
      FetchIsUpsert(s, owner, server, x, f);
      UpsertFreezes(AfterLoad(s, server, x), owner, Loaded(s, server, x).value, f, clan, id);
    }
  }

  lemma FetchInClanFreezes<R>(
    s: Tiers<R>, owner: Owner, server: map<int, Desc>, k: int, x: int, f: R, clan: int, id: int)
    requires Valid(s, owner) && Canonical(server, owner) && UsableInClan(s, owner, k, x, f)
    requires Foreign(s, owner, clan, id)
    ensures Frozen(s, FetchInClan(s, server, k, x, f), owner, clan, id)
  {
    hide L.Get, L.Put, L.Drop, L.Has, L.Distinct, Fetch, Fetched, OnlyTouches;
    ClanCacheIsValid(s, owner, clan);
    if L.Get(ClanCache(s, k), x).None? {
      FetchFreezes(s, owner, server, x, f, clan, id);
      FetchEffect(s, owner, server, x, f);
      FetchKeepsClans(s, server, x, f);
      var r := Fetched(s, server, x, f);
      if r.Some? {
        RememberEffect(Fetch(s, server, x, f), owner, k, x, r.value);
      }
    }
  }

  lemma DropsFreeze<R>(s: Tiers<R>, owner: Owner, x: int, clan: int, id: int)
    requires Valid(s, owner) && Foreign(s, owner, clan, id)
    ensures Frozen(s, Forget(s, owner(x), x), owner, clan, id)
    ensures Frozen(s, Remove(s, owner(x), x), owner, clan, id)
  {
    hide L.Get, L.Put, L.Drop, L.Has, L.Distinct;
    ClanCacheIsValid(s, owner, clan);
    ClanCacheIsValid(s, owner, owner(x));
    DropGets(ClanCache(s, owner(x)), x);
  }

  lemma {:induction false} ReloadFreezes<R>(
    s: Tiers<R>, owner: Owner, server: map<int, Desc>, k: int, ds: seq<Desc>, fs: seq<R>, clan: int, id: int)
    requires Valid(s, owner) && Canonical(server, owner) && UsableSupply(s, k, ds, fs) && Foreign(s, owner, clan, id)
    requires forall d :: d in ds ==> Current(server, d) && d.clanId == k
    ensures Frozen(s, Reload(s, k, ds, fs), owner, clan, id)
    decreases |ds|
  {
    hide L.Get, L.Put, L.Drop, L.Has, L.Distinct, Upsert;
    ClanCacheIsValid(s, owner, clan);
    if ds != [] {
      var n := |ds| - 1;
      ReloadFreezes(s, owner, server, k, ds[..n], fs[..n], clan, id);
      ReloadEffect(s, owner, server, k, ds[..n], fs[..n], id);
      assert Current(server, ds[n]) && k == owner(ds[n].channelId);
      UpsertFreezes(Reload(s, k, ds[..n], fs[..n]), owner, ds[n], fs[n], clan, id);
    }
  }

  lemma StepFreezes<R>(w: World<R>, owner: Owner, step: Step<R>, clan: int, id: int)
    requires Inv(w, owner) && Enabled(w, owner, step) && Foreign(w.tiers, owner, clan, id)
    ensures Frozen(w.tiers, Do(w, owner, step).tiers, owner, clan, id)
  {
    hide L.Get, L.Put, L.Drop, L.Has, L.Distinct, Upsert, Fetch, FetchInClan, Reload, Create, Forget, Remove;
    var s := w.tiers;
    ClanCacheIsValid(s, owner, clan);
    match step
    case HandleEvent => DropsFreeze(s, owner, w.pending[0], clan, id);
    case FetchChannel(x, f) => FetchFreezes(s, owner, w.server, x, f, clan, id);
    case FetchFromClan(k, x, f) => FetchInClanFreezes(s, owner, w.server, k, x, f, clan, id);
    case ReloadClan(k, ds, fs) => ReloadFreezes(s, owner, w.server, k, Listed(ds), fs, clan, id);
    case CacheListed(d, f) => UpsertFreezes(s, owner, d, f, clan, id);
    case CreateInClan(d, f) => CreateFreezes(s, owner, d, f, clan, id);
    case DeleteInClan(x) => DropsFreeze(s, owner, x, clan, id);
    case _ =>
  }

  lemma {:induction false} RunFreezes<R>(w: World<R>, owner: Owner, steps: seq<Step<R>>, clan: int, id: int)
    requires Inv(w, owner) && Legal(w, owner, steps) && Foreign(w.tiers, owner, clan, id)
    ensures Frozen(w.tiers, Run(w, owner, steps).tiers, owner, clan, id)
    decreases |steps|
  {
    hide L.Get, Do, Enabled;
    if steps == [] {
      ClanCacheIsValid(w.tiers, owner, clan);
    } else {
      StepKeepsInv(w, owner, steps[0]);
      StepFreezes(w, owner, steps[0], clan, id);
      RunFreezes(Do(w, owner, steps[0]), owner, steps[1..], clan, id);
    }
  }

  /** Once a clan's cache holds an orphan, that clan serves this object, with these fields, for good:
      no later event, listing, fetch, create or delete reaches it. */
  lemma OrphanIsServedForGood<R>(w: World<R>, owner: Owner, steps: seq<Step<R>>, clan: int, id: int, f: R)
    requires Inv(w, owner) && Legal(w, owner, steps) && Orphan(w.tiers, owner, clan, id)
    ensures var e, c := Run(w, owner, steps).tiers, L.Get(ClanCache(w.tiers, clan), id);
            && FetchedInClan(e, Run(w, owner, steps).server, clan, id, f) == c
            && c.value in w.tiers.objs && c.value in e.objs && e.objs[c.value] == w.tiers.objs[c.value]
  {
    hide L.Get, Run;
    RunFreezes(w, owner, steps, clan, id);
  }

  /** Handling a change event, deleting or creating the channel makes an orphan of every object of
      the channel that other clans hold; no other step makes one. */
  lemma OrphansAreMadeByGivingUp<R>(w: World<R>, owner: Owner, step: Step<R>, clan: int, id: int)
    requires Inv(w, owner) && Enabled(w, owner, step)
    requires clan != owner(id) && L.Get(ClanCache(w.tiers, clan), id).Some? && !Orphan(w.tiers, owner, clan, id)
    ensures Orphan(Do(w, owner, step).tiers, owner, clan, id) <==> GivesUp(w, step, id)
  {
    hide L.Get, L.Put, L.Drop, L.Has, L.Distinct, Upsert, Fetch, FetchInClan, Reload;
    StepFreezes(w, owner, step, clan, id);
    if GivesUp(w, step, id) {
      match step
      case HandleEvent => ForgetEffect(w.tiers, owner, id);
      case CreateInClan(d, f) => CreateEffect(w.tiers, owner, d, f);
      case DeleteInClan(_) => RemoveEffect(w.tiers, owner, id);
    } else {
      StepKeepsObject(w, owner, step, id);
    }
  }

  /** Handling a change event clears a channel from a clan's cache exactly when that clan owns it. */
  lemma HandlerClearsExactlyOwner<R>(s: Tiers<R>, owner: Owner, clan: int, id: int)
    requires Valid(s, owner)
    ensures L.Get(ClanCache(Forget(s, owner(id), id), clan), id).None?
            <==> clan == owner(id) || L.Get(ClanCache(s, clan), id).None?
  {
    hide L.Get, L.Put, L.Drop, L.Has, L.Distinct;
    ForgetEffect(s, owner, id);
  }

  /**
   The promise is about owning clans only.  A channel fetched through another clan's cache stays
   there: the handlers clear the owning clan, so after an update event that cache still serves the
   object with the old fields although no event is pending.
   */
  lemma ForeignClanGoesStale<R>(w: World<R>, owner: Owner, clan: int, d: Desc, d': Desc, f: R)
    requires Inv(w, owner) && w.pending == [] && Current(w.server, d)
    requires clan in w.tiers.clans && clan != owner(d.channelId)
    requires L.Get(w.tiers.clans[clan], d.channelId).None? && Usable(w.tiers, owner(d.channelId), d.channelId, f)
    requires d'.channelId == d.channelId && d'.clanId == d.clanId && View(d') != View(d)
    ensures var id := d.channelId;
            var w1 := Do(w, owner, FetchFromClan(clan, id, f));
            && Enabled(w1, owner, ServerUpdate(d'))
            && var w2 := Do(w1, owner, ServerUpdate(d'));
            && Enabled(w2, owner, HandleEvent)
            && var e := Do(w2, owner, HandleEvent);
            && e.pending == [] && e.server[id] == d'
            && var r := L.Get(ClanCache(e.tiers, clan), id);
            && r.Some? && r.value in e.tiers.objs && e.tiers.objs[r.value].fields == View(d) != View(e.server[id])
  {
    hide L.Get, L.Put, L.Drop, L.Has, L.Distinct;
    var id, s := d.channelId, w.tiers;
    var t := Fetch(s, w.server, id, f);
    FetchEffect(s, owner, w.server, id, f);
    FetchKeepsClans(s, w.server, id, f);
    assert Agrees(s, owner, w.server, id);
    var r := Fetched(s, w.server, id, f).value;
    assert ValidCache(t, t.clans[clan]);
    L.PutGet(t.clans[clan], 0, id, r, id);
  }
}
