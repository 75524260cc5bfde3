/** The service-id dictionary and the write-through cache in front of it. */
module ServiceRegistry {
  import opened Prelude

  const TOUCH_INTERVAL_MS: int := 60 * 60 * 1000

  /** How far the watermark can trail a service's real activity. */
  const MAX_WATERMARK_LAG_MS: int := TOUCH_INTERVAL_MS

  datatype Service = Service(name: string, lastSeenMs: int)

  /** The `services` table; ids are handed out once and never again. */
  datatype Dictionary = Dictionary(services: map<nat, Service>, nextSid: nat)

  predicate ValidDictionary(d: Dictionary) {
    && (forall sid :: sid in d.services ==> sid < d.nextSid)
    && (forall a, b :: a in d.services && b in d.services && d.services[a].name == d.services[b].name ==> a == b)
  }

  ghost predicate HasName(d: Dictionary, name: string) {
    exists sid :: sid in d.services && d.services[sid].name == name
  }

  ghost function SidOf(d: Dictionary, name: string): (sid: nat)
    requires HasName(d, name)
    ensures sid in d.services && d.services[sid].name == name
  {
    var sid :| sid in d.services && d.services[sid].name == name; sid
  }

  /** The row of `name`, inserted if it is new; its watermark only ever rises. */
  ghost function ResolvedSid(d: Dictionary, name: string): nat {
    if HasName(d, name) then SidOf(d, name) else d.nextSid
  }

  ghost function Resolved(d: Dictionary, name: string, now: int): Dictionary {
    var sid := ResolvedSid(d, name);
    var seen := if HasName(d, name) then Max(d.services[sid].lastSeenMs, now) else now;
    Dictionary(d.services[sid := Service(name, seen)], if HasName(d, name) then d.nextSid else d.nextSid + 1)
  }

  function Touched(d: Dictionary, sid: nat, now: int): Dictionary {
    if sid in d.services && d.services[sid].lastSeenMs < now
    then d.(services := d.services[sid := d.services[sid].(lastSeenMs := now)]) else d
  }

  function Stale(d: Dictionary, cutoff: int): set<nat> {
    set sid | sid in d.services && d.services[sid].lastSeenMs < cutoff
  }

  function WithoutStale(d: Dictionary, cutoff: int): Dictionary { d.(services := d.services - Stale(d, cutoff)) }

  // ---------------------------------------------------------------- the cache

  datatype Registry = Registry(
    dict: Dictionary, byName: map<string, nat>, byId: map<nat, string>, touchedMs: map<nat, int>)

  function NamesOf(d: Dictionary): map<nat, string> { map sid | sid in d.services :: d.services[sid].name }

  /** Both directions mirror the table, and only cached ids carry a debounce mark. */
  ghost predicate Coherent(r: Registry) {
    && ValidDictionary(r.dict)
    && r.byId == NamesOf(r.dict)
    && (forall sid :: sid in r.byId ==> r.byId[sid] in r.byName && r.byName[r.byId[sid]] == sid)
    && (forall name :: name in r.byName ==> r.byName[name] in r.byId && r.byId[r.byName[name]] == name)
    && r.touchedMs.Keys <= r.byId.Keys
  }

  predicate FreshlyCached(r: Registry, name: string, now: int) {
    name in r.byName && r.byName[name] in r.touchedMs && now - r.touchedMs[r.byName[name]] < TOUCH_INTERVAL_MS
  }

  /** Interning with the outcome of the store call: the debounce mark is set before the write is attempted. */
  ghost function Interned(r: Registry, name: string, now: int, storeOk: bool): (Registry, Option<nat>) {
    if FreshlyCached(r, name, now) then (r, Some(r.byName[name]))
    else if name in r.byName then
      var sid := r.byName[name];
      var marked := r.(touchedMs := r.touchedMs[sid := now]);
      if storeOk then (marked.(dict := Touched(r.dict, sid, now)), Some(sid)) else (marked, None)
    else if !storeOk then (r, None)
    else
      var sid := ResolvedSid(r.dict, name);
      var dict := Resolved(r.dict, name, now);
      (Registry(dict, r.byName[name := sid], r.byId[sid := name], r.touchedMs[sid := now]), Some(sid))
  }

  function NamesIn(byId: map<nat, string>, sids: set<nat>): set<string> {
    set sid | sid in sids && sid in byId :: byId[sid]
  }

  function Forgotten(r: Registry, sids: set<nat>): Registry {
    r.(byName := r.byName - NamesIn(r.byId, sids), byId := r.byId - sids, touchedMs := r.touchedMs - sids)
  }

  function Reclaimed(r: Registry, cutoff: int): Registry {
    Forgotten(r.(dict := WithoutStale(r.dict, cutoff)), Stale(r.dict, cutoff))
  }

  function SidsOf(d: Dictionary): map<string, nat>
    requires ValidDictionary(d)
  {
    map sid | sid in d.services :: d.services[sid].name := sid
  }

  /** A registry preloaded from the table: nothing has been touched yet. */
  function Loaded(d: Dictionary): Registry
    requires ValidDictionary(d)
  {
    Registry(d, SidsOf(d), NamesOf(d), map[])
  }

  lemma LoadedIsCoherent(d: Dictionary)
    requires ValidDictionary(d)
    ensures Coherent(Loaded(d))
  {
  }

  /** In a coherent registry the cache knows a name exactly when the table does. */
  lemma CacheKnowsTheTable(r: Registry, name: string)
    requires Coherent(r)
    ensures name in r.byName <==> HasName(r.dict, name)
    ensures name in r.byName ==> r.byName[name] in r.dict.services && r.dict.services[r.byName[name]].name == name
  {
    if HasName(r.dict, name) {
      assert SidOf(r.dict, name) in r.byId;
    }
  }

  lemma NewNameInTable(d: Dictionary, name: string, now: int)
    requires ValidDictionary(d) && !HasName(d, name)
    ensures d.nextSid !in d.services
    ensures var added := Dictionary(d.services[d.nextSid := Service(name, now)], d.nextSid + 1);
      ValidDictionary(added) && NamesOf(added) == NamesOf(d)[d.nextSid := name]
  {
  }

  lemma NewNameKeepsCoherence(r: Registry, name: string, now: int)
    requires Coherent(r) && !HasName(r.dict, name) && name !in r.byName
    ensures var sid := r.dict.nextSid;
      Coherent(Registry(Dictionary(r.dict.services[sid := Service(name, now)], sid + 1),
                        r.byName[name := sid], r.byId[sid := name], r.touchedMs[sid := now]))
  {
    NewNameInTable(r.dict, name, now);
  }

  lemma TouchKeepsNames(d: Dictionary, sid: nat, now: int)
    ensures NamesOf(Touched(d, sid, now)) == NamesOf(d)
    ensures ValidDictionary(d) ==> ValidDictionary(Touched(d, sid, now))
  {
  }

  lemma TouchKeepsCoherence(r: Registry, sid: nat, now: int, dict: Dictionary)
    requires Coherent(r) && sid in r.byId && (dict == r.dict || dict == Touched(r.dict, sid, now))
    ensures Coherent(r.(touchedMs := r.touchedMs[sid := now], dict := dict))
  {
    TouchKeepsNames(r.dict, sid, now);
  }

  /** Interning keeps both directions mutual inverses of each other and equal to the table,
      even when the store fails. */
  lemma InternKeepsCoherence(r: Registry, name: string, now: int, storeOk: bool)
    requires Coherent(r)
    ensures Coherent(Interned(r, name, now, storeOk).0)
    ensures var (next, sid) := Interned(r, name, now, storeOk);
      sid.Some? ==> sid.value in next.byId && next.byId[sid.value] == name
  {
    CacheKnowsTheTable(r, name);
    if FreshlyCached(r, name, now) {
    } else if name in r.byName {
      var sid := r.byName[name];
      TouchKeepsCoherence(r, sid, now, if storeOk then Touched(r.dict, sid, now) else r.dict);
    } else if storeOk {
      NewNameKeepsCoherence(r, name, now);
    }
  }

  /** Served from the cache: the name's mark is younger than the touch interval, an hour. */
  predicate IsServed(r: Registry, name: string, now: int) {
    name in r.byName && r.byName[name] in r.touchedMs && now < r.touchedMs[r.byName[name]] + 60 * 60 * 1000
  }

  /** Which id a name gets: its own if it has one, and otherwise one never handed out. */
  ghost predicate IdTold(was: Dictionary, now: Dictionary, name: string, sid: nat) {
    && sid in now.services && now.services[sid].name == name
    && (sid in was.services ==> was.services[sid].name == name)
    && (sid !in was.services ==>
          was.nextSid <= sid < now.nextSid && forall s :: s in was.services ==> was.services[s].name != name)
  }

  /** The other rows stay, and the row of the id is seen at `seen` or later. */
  ghost predicate TableTold(was: Dictionary, now: Dictionary, sid: nat, seen: int) {
    && now.services.Keys == was.services.Keys + {sid} && was.nextSid <= now.nextSid
    && (forall s :: s in was.services && s != sid ==> now.services[s] == was.services[s])
    && sid in now.services && now.services[sid].lastSeenMs ==
         if sid in was.services && was.services[sid].lastSeenMs > seen then was.services[sid].lastSeenMs else seen
  }

  /** What interning does: nothing but answer while the name is served; otherwise the store decides. */
  ghost predicate InternTold(was: Registry, next: Registry, sid: Option<nat>, name: string, now: int, storeOk: bool) {
    if IsServed(was, name, now) then sid == Some(was.byName[name]) && next == was
    else if !storeOk then sid == None && next.dict == was.dict && next.byName == was.byName && next.byId == was.byId
    else
      && sid.Some? && IdTold(was.dict, next.dict, name, sid.value) && TableTold(was.dict, next.dict, sid.value, now)
      && next.touchedMs == was.touchedMs[sid.value := now]
  }

  lemma InternTells(r: Registry, name: string, now: int, storeOk: bool)
    requires Coherent(r)
    ensures InternTold(r, Interned(r, name, now, storeOk).0, Interned(r, name, now, storeOk).1, name, now, storeOk)
  {
    CacheKnowsTheTable(r, name);
    if !IsServed(r, name, now) && storeOk {
      if name in r.byName { TouchTells(r.dict, r.byName[name], name, now); } else { ResolveTells(r.dict, name, now); }
    }
  }

  lemma TouchTells(d: Dictionary, sid: nat, name: string, now: int)
    requires sid in d.services && d.services[sid].name == name
    ensures IdTold(d, Touched(d, sid, now), name, sid) && TableTold(d, Touched(d, sid, now), sid, now)
  {
  }

  lemma ResolveTells(d: Dictionary, name: string, now: int)
    requires ValidDictionary(d)
    ensures var sid := ResolvedSid(d, name);
      IdTold(d, Resolved(d, name, now), name, sid) && TableTold(d, Resolved(d, name, now), sid, now)
  {
  }

  /** Reclaiming drops both directions of exactly the ids the table dropped. */
  lemma ReclaimKeepsCoherence(r: Registry, cutoff: int)
    requires Coherent(r)
    ensures Coherent(Reclaimed(r, cutoff))
    ensures Reclaimed(r, cutoff).byId.Keys == r.byId.Keys - Stale(r.dict, cutoff)
  {
    var gone := Stale(r.dict, cutoff);
    forall sid | sid in r.byId && sid !in gone ensures r.byId[sid] !in NamesIn(r.byId, gone) {}
  }

  /** Exactly the services last seen before the cutoff are gone, from the table and from the cache. */
  ghost predicate ReclaimTold(was: Registry, next: Registry, removed: set<nat>, cutoff: int) {
    && (forall sid :: sid in removed <==> sid in was.dict.services && was.dict.services[sid].lastSeenMs < cutoff)
    && next.dict.services == was.dict.services - removed && next.dict.nextSid == was.dict.nextSid
    && next.byId == was.byId - removed && next.touchedMs == was.touchedMs - removed
  }

  lemma ReclaimTells(r: Registry, cutoff: int)
    ensures ReclaimTold(r, Reclaimed(r, cutoff), Stale(r.dict, cutoff), cutoff)
  {
  }

  // ---------------------------------------------------------------- no id ever changes its name

  datatype Event = Intern(name: string, now: int, storeOk: bool) | Reclaim(cutoff: int) | Restart

  ghost function After(r: Registry, e: Event): Registry
    requires Coherent(r)
  {
    match e
    case Intern(name, now, ok) => Interned(r, name, now, ok).0
    case Reclaim(cutoff) => Reclaimed(r, cutoff)
    case Restart => Loaded(r.dict)
  }

  lemma StepKeepsCoherence(r: Registry, e: Event)
    requires Coherent(r)
    ensures Coherent(After(r, e)) && r.dict.nextSid <= After(r, e).dict.nextSid
  {
    match e
    case Intern(name, now, ok) => InternKeepsCoherence(r, name, now, ok);
    case Reclaim(cutoff) => ReclaimKeepsCoherence(r, cutoff);
    case Restart => LoadedIsCoherent(r.dict);
  }

  ghost function Run(r: Registry, events: seq<Event>): (after: Registry)
    requires Coherent(r)
    ensures Coherent(after) && r.dict.nextSid <= after.dict.nextSid
    decreases |events|
  {
    if events == [] then r
    else
      StepKeepsCoherence(r, events[0]);
      Run(After(r, events[0]), events[1..])
  }

  /** An id bound in a later table has the name it had, or was not handed out yet. */
  ghost predicate NameKept(was: Dictionary, now: Dictionary, sid: nat) {
    sid in now.services ==>
      if sid in was.services then now.services[sid].name == was.services[sid].name else was.nextSid <= sid
  }

  lemma TouchKeepsName(d: Dictionary, touched: nat, now: int, sid: nat)
    ensures NameKept(d, Touched(d, touched, now), sid)
  {
  }

  lemma ResolveKeepsName(d: Dictionary, name: string, now: int, sid: nat)
    requires ValidDictionary(d)
    ensures NameKept(d, Resolved(d, name, now), sid)
  {
  }

  lemma InternKeepsName(r: Registry, name: string, now: int, storeOk: bool, sid: nat)
    requires ValidDictionary(r.dict)
    ensures NameKept(r.dict, Interned(r, name, now, storeOk).0.dict, sid)
  {
    if name in r.byName {
      TouchKeepsName(r.dict, r.byName[name], now, sid);
    } else {
      ResolveKeepsName(r.dict, name, now, sid);
    }
  }

  /** One step never renames a bound id, and binds only ids never handed out before. */
  lemma StepNeverRebinds(r: Registry, e: Event, sid: nat)
    requires Coherent(r) && sid in After(r, e).dict.services
    ensures sid in r.dict.services ==> After(r, e).dict.services[sid].name == r.dict.services[sid].name
    ensures sid !in r.dict.services ==> r.dict.nextSid <= sid
  {
    if e.Intern? { InternKeepsName(r, e.name, e.now, e.storeOk, sid); }
  }

  /** Over a whole run, across reclaim, restart and re-interning, an id bound at two moments has one name. */
  lemma {:induction false} NeverRebound(r: Registry, events: seq<Event>, sid: nat)
    requires Coherent(r) && sid < r.dict.nextSid && sid in Run(r, events).dict.services
    ensures sid in r.dict.services && Run(r, events).dict.services[sid].name == r.dict.services[sid].name
    decreases |events|
  {
    if events != [] {
      var next := After(r, events[0]);
      StepKeepsCoherence(r, events[0]);
      NeverRebound(next, events[1..], sid);
      StepNeverRebinds(r, events[0], sid);
    }
  }
}
