/** The mutable services table and the registry that caches it, method by method. */
module RegistryState {
  import opened Prelude
  import opened ServiceRegistry

  class MetadataStore {
    var services: map<nat, Service>
    var nextSid: nat

    ghost function Dict(): Dictionary reads this { Dictionary(services, nextSid) }

    ghost predicate Valid() reads this { ValidDictionary(Dict()) }

    constructor ()
      ensures Valid() && services == map[]
    {
      services, nextSid := map[], 1;
    }

    /** The id of a name, by a scan of the unique column. */
    method Lookup(name: string) returns (r: Option<nat>)
      requires Valid()
      ensures r == if HasName(Dict(), name) then Some(SidOf(Dict(), name)) else None
    {
      var pending := services.Keys;
      while pending != {}
        invariant pending <= services.Keys
        invariant forall sid :: sid in services && sid !in pending ==> services[sid].name != name
      {
        var sid := Pick(pending);
        if services[sid].name == name {
          return Some(sid);
        }
        pending := pending - {sid};
      }
      r := None;
    }

    method ResolveService(name: string, now: int) returns (sid: nat)
      requires Valid()
      modifies this
      ensures Dict() == Resolved(old(Dict()), name, now) && sid == ResolvedSid(old(Dict()), name)
    {
      var found := Lookup(name);
      if found.Some? {
        sid := found.value;
        services := services[sid := Service(name, Max(services[sid].lastSeenMs, now))];
      } else {
        sid := nextSid;
        services, nextSid := services[sid := Service(name, now)], nextSid + 1;
      }
    }

    method TouchService(sid: nat, now: int)
      modifies this
      ensures Dict() == Touched(old(Dict()), sid, now)
    {
      if sid in services && services[sid].lastSeenMs < now {
        services := services[sid := services[sid].(lastSeenMs := now)];
      }
    }

    method DeleteServicesBefore(cutoff: int) returns (removed: set<nat>)
      modifies this
      ensures Dict() == WithoutStale(old(Dict()), cutoff)
      ensures removed == Stale(old(Dict()), cutoff)
      ensures removed == set sid | sid in old(services) && old(services)[sid].lastSeenMs < cutoff
    {
      removed := set sid | sid in services && services[sid].lastSeenMs < cutoff;
      services := services - removed;
    }
  }

  /** Both directions of the cache from the rows of the table. */
  method Preload(d: Dictionary) returns (byName: map<string, nat>, byId: map<nat, string>)
    requires ValidDictionary(d)
    ensures byId == NamesOf(d) && byName == SidsOf(d)
  {
    var services := d.services;
    byName, byId := map[], map[];
    var pending := services.Keys;
    while pending != {}
      invariant pending <= services.Keys && byId.Keys == services.Keys - pending
      invariant forall sid :: sid in byId ==> byId[sid] == services[sid].name
      invariant forall sid :: sid in byId ==> byId[sid] in byName && byName[byId[sid]] == sid
      invariant forall name :: name in byName ==> byName[name] in byId && services[byName[name]].name == name
    {
      var sid := Pick(pending);
      byName, byId := byName[services[sid].name := sid], byId[sid := services[sid].name];
      pending := pending - {sid};
    }
  }

  predicate OneNameEach(byId: map<nat, string>) {
    forall a, b :: a in byId && b in byId && byId[a] == byId[b] ==> a == b
  }

  /** The cache without one more id. */
  function ForgottenOne(r: Registry, sid: nat): Registry {
    r.(byName := if sid in r.byId then r.byName - {r.byId[sid]} else r.byName,
       byId := r.byId - {sid}, touchedMs := r.touchedMs - {sid})
  }

  lemma ForgetOneMore(r: Registry, gone: set<nat>, sid: nat)
    requires OneNameEach(r.byId) && sid !in gone
    ensures Forgotten(r, gone + {sid}) == ForgottenOne(Forgotten(r, gone), sid)
  {
    assert NamesIn(r.byId, gone + {sid}) == NamesIn(r.byId, gone) + NamesIn(r.byId, {sid});
    if sid in r.byId { assert NamesIn(r.byId, {sid}) == {r.byId[sid]}; }
  }

  class CachedRegistry {
    const store: MetadataStore
    var byName: map<string, nat>
    var byId: map<nat, string>
    var touchedMs: map<nat, int>

    ghost function State(): Registry reads this, store { Registry(store.Dict(), byName, byId, touchedMs) }

    ghost predicate Valid() reads this, store { Coherent(State()) }

    /** Preloads the whole dictionary, row by row. */
    constructor Load(store: MetadataStore)
      requires store.Valid()
      ensures this.store == store && Valid() && State() == Loaded(store.Dict())
    {
      this.store := store;
      byName, byId, touchedMs := map[], map[], map[];
      new;
      byName, byId := Preload(Dictionary(store.services, store.nextSid));
      LoadedIsCoherent(store.Dict());
    }

    method FreshCachedId(name: string, now: int) returns (r: Option<nat>)
      ensures r == if FreshlyCached(State(), name, now) then Some(byName[name]) else None
    {
      if name !in byName {
        return None;
      }
      var sid := byName[name];
      r := if sid in touchedMs && now - touchedMs[sid] < TOUCH_INTERVAL_MS then Some(sid) else None;
    }

    /** Marks the id before its watermark is written, at most once in each interval. */
    method Touch(sid: nat, now: int, storeOk: bool) returns (ok: bool)
      modifies `touchedMs, store
      ensures var recent := sid in old(touchedMs) && now - old(touchedMs)[sid] < TOUCH_INTERVAL_MS;
        && ok == (recent || storeOk)
        && touchedMs == (if recent then old(touchedMs) else old(touchedMs)[sid := now])
        && store.Dict() == if recent || !storeOk then old(store.Dict()) else Touched(old(store.Dict()), sid, now)
    {
      if sid in touchedMs && now - touchedMs[sid] < TOUCH_INTERVAL_MS {
        return true;
      }
      touchedMs := touchedMs[sid := now];
      if storeOk {
        store.TouchService(sid, now);
      }
      ok := storeOk;
    }

    /** `storeOk` is the outcome of the store call, should one be needed. */
    method IdOf(name: string, now: int, storeOk: bool) returns (r: Option<nat>)
      requires Valid()
      modifies this, store
      ensures Valid() && (State(), r) == Interned(old(State()), name, now, storeOk)
    {
      InternKeepsCoherence(State(), name, now, storeOk);
      r := FreshCachedId(name, now);
      if r.Some? {
        return;
      }
      if name in byName {
        var sid := byName[name];
        var touched := Touch(sid, now, storeOk);
        return if touched then Some(sid) else None;
      }
      if !storeOk {
        return None;
      }
      var sid := store.ResolveService(name, now);
      byName, byId, touchedMs := byName[name := sid], byId[sid := name], touchedMs[sid := now];
      r := Some(sid);
    }

    method Forget(sids: set<nat>)
      requires OneNameEach(byId)
      modifies this
      ensures State() == Forgotten(old(State()), sids)
    {
      ghost var was := State();
      var pending := sids;
      while pending != {}
        invariant pending <= sids
        invariant State() == Forgotten(was, sids - pending)
      {
        var sid := Pick(pending);
        ForgetOneMore(was, sids - pending, sid);
        if sid in byId {
          byName := byName - {byId[sid]};
          byId := byId - {sid};
        }
        touchedMs := touchedMs - {sid};
        assert sids - (pending - {sid}) == (sids - pending) + {sid};
        pending := pending - {sid};
      }
      assert sids - {} == sids;
    }

    method ReclaimBefore(cutoff: int) returns (removed: set<nat>)
      requires Valid()
      modifies this, store
      ensures Valid() && State() == Reclaimed(old(State()), cutoff)
      ensures removed == Stale(old(State()).dict, cutoff) && ReclaimTold(old(State()), State(), removed, cutoff)
    {
      ReclaimKeepsCoherence(State(), cutoff);
      ReclaimTells(State(), cutoff);
      removed := store.DeleteServicesBefore(cutoff);
      Forget(removed);
    }
  }
}
