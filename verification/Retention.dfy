/** Retention: where the cut falls, and why it never leaves a row without its service. */
module Retention {
  import opened Prelude
  import opened Weeks
  import opened Buckets
  import opened HostMetrics
  import opened Rollup
  import opened LogStore
  import opened ServiceRegistry

  /** Monday midnight of the current week, less the weeks to keep. */
  function RetentionCutoffMs(now: int, weeks: nat): int { MondayFloor(now) - weeks * WEEK_MS }

  /** `MetricsResolution::max_bucket_ms`: a fold over the coarse resolutions. */
  function WidestOf(rs: seq<Resolution>): nat { if rs == [] then 0 else Max(BucketMs(rs[0]), WidestOf(rs[1..])) }

  function MaxBucketMs(): nat { WidestOf(COARSE) }

  function ReclaimCutoffMs(cutoff: int): int { cutoff - MaxBucketMs() - MAX_WATERMARK_LAG_MS }

  lemma MaxBucketIsAnHour()
    ensures MaxBucketMs() == 3_600_000
    ensures forall r: Resolution :: BucketMs(r) <= MaxBucketMs()
  {
    assert COARSE[1..] == [FiveMinutes, OneHour] && COARSE[1..][1..] == [OneHour] && COARSE[1..][1..][1..] == [];
  }

  // ---------------------------------------------------------------- the cut falls on shard boundaries

  /** The weeks to keep are whole weeks, and the current one comes on top of them. */
  lemma CutoffKeepsWeeks(now: int, weeks: nat)
    ensures var cutoff := RetentionCutoffMs(now, weeks);
      cutoff + weeks * WEEK_MS <= now < cutoff + (weeks + 1) * WEEK_MS
  {
    assert (weeks + 1) * WEEK_MS == weeks * WEEK_MS + WEEK_MS;
  }

  lemma CutoffIsMonday(now: int, weeks: nat)
    ensures IsMonday(RetentionCutoffMs(now, weeks))
  {
    MondayFloorIsOnlyMonday(now, now);
    var q := (MondayFloor(now) + 3 * DAY_MS) / WEEK_MS;
    assert MondayFloor(now) + 3 * DAY_MS == q * WEEK_MS;
    assert RetentionCutoffMs(now, weeks) + 3 * DAY_MS == (q - weeks) * WEEK_MS;
  }

  lemma CutoffRises(now: int, later: int, weeks: nat)
    requires now <= later
    ensures RetentionCutoffMs(now, weeks) <= RetentionCutoffMs(later, weeks)
  {
    MondayFloorIsOnlyMonday(now, now);
    MondayFloorIsOnlyMonday(later, later);
    if MondayFloor(later) < MondayFloor(now) { MondaysAWeekApart(MondayFloor(later), MondayFloor(now)); }
  }

  function Expired(weeks: map<int, seq<Row>>, cutoff: int): set<int> { set w | w in weeks && w < cutoff }

  /** Deleting the shards that start before the cutoff removes exactly the rows before it. */
  lemma ShardCutIsExact(weeks: map<int, seq<Row>>, cutoff: int, e: Entry)
    requires ValidShards(weeks) && IsMonday(cutoff)
    ensures ValidShards(weeks - Expired(weeks, cutoff))
    ensures e in FlatTimeline(weeks - Expired(weeks, cutoff)) <==> e in FlatTimeline(weeks) && cutoff <= e.ts
    ensures forall w :: w in Expired(weeks, cutoff) ==> w + WEEK_MS <= cutoff
  {
    var kept := weeks - Expired(weeks, cutoff);
    FlatTimelineIsTheTimeline(weeks);
    FlatTimelineIsTheTimeline(kept);
    forall w | w in weeks && w < cutoff ensures w + WEEK_MS <= cutoff {
      MondaysAWeekApart(w, cutoff);
    }
    if e in FlatTimeline(weeks) {
      var w, r :| w in weeks && r in weeks[w] && e == Decode(w, r);
      assert 0 <= r.tsRel < WEEK_MS;
      if cutoff <= e.ts { assert w in kept && r in kept[w]; }
    }
    if e in FlatTimeline(kept) {
      var w, r :| w in kept && r in kept[w] && e == Decode(w, r);
      assert 0 <= r.tsRel < WEEK_MS && w in weeks && r in weeks[w];
    }
  }

  // ---------------------------------------------------------------- resuming a log stream

  const I32_MIN: int := -0x8000_0000
  const I32_MAX: int := 0x7fff_ffff

  function ClampToI32(v: int): int { if v < I32_MIN then I32_MIN else if v > I32_MAX then I32_MAX else v }

  /** The second a container's log is read from: its checkpoint, but never before the retention cutoff. */
  function LogSinceSecs(checkpointTs: Option<int>, now: int, weeks: nat): int {
    var cutoffSecs := RetentionCutoffMs(now, weeks) / 1000;
    ClampToI32(match checkpointTs case None => cutoffSecs case Some(ts) => Max(ts / 1000, cutoffSecs))
  }

  /** The second that holds the later of checkpoint and cutoff, or the nearest one 32 bits can name. */
  lemma ResumesInItsSecond(checkpointTs: Option<int>, now: int, weeks: nat)
    ensures var cutoff, s := RetentionCutoffMs(now, weeks), LogSinceSecs(checkpointTs, now, weeks);
      var wanted := if checkpointTs.Some? && checkpointTs.value > cutoff then checkpointTs.value else cutoff;
      && -0x8000_0000 <= s <= 0x7fff_ffff
      && (s * 1000 <= wanted || s == -0x8000_0000) && (wanted < s * 1000 + 1000 || s == 0x7fff_ffff)
  {
  }

  function Pruned(checkpointTs: Option<int>, cutoff: int): Option<int> {
    if checkpointTs.Some? && checkpointTs.value < cutoff then None else checkpointTs
  }

  /** Pruning checkpoints older than a cutoff changes no later resume point. */
  lemma PruningKeepsResumePoints(checkpointTs: Option<int>, now: int, later: int, weeks: nat)
    requires now <= later
    ensures var kept := Pruned(checkpointTs, RetentionCutoffMs(now, weeks));
      LogSinceSecs(kept, later, weeks) == LogSinceSecs(checkpointTs, later, weeks)
  {
    CutoffRises(now, later, weeks);
  }

  // ---------------------------------------------------------------- the world retention acts on

  /** A raw sample or flushed line tagged with the id its name was interned to. */
  datatype Activity = Activity(sid: nat, ts: int)
  datatype MetricRow = MetricRow(ts: int, sid: nat, cid: int, resolution: Resolution)
  datatype CheckpointKey = CheckpointKey(sid: nat, cid: int)

  /** `cutoff` is the latest cutoff whose reclamation has run. */
  datatype World = World(
    registry: Registry, activity: set<Activity>, rows: set<MetricRow>, checkpoints: map<CheckpointKey, int>,
    cutoff: int)

  datatype Cleanup = Cleanup(cutoff: int, metricsOk: bool, logsOk: bool, metadataOk: bool, reclaimOk: bool)

  /** `cleanup_once`: rows and logs first, checkpoints only once the logs are gone,
      ids last and only if both went well. */
  function Cleaned(w: World, c: Cleanup): World {
    var reclaims := c.metricsOk && c.logsOk && c.reclaimOk;
    World(
      if reclaims then Reclaimed(w.registry, ReclaimCutoffMs(c.cutoff)) else w.registry,
      w.activity,
      if c.metricsOk then set row | row in w.rows && c.cutoff <= row.ts else w.rows,
      if !(c.logsOk && c.metadataOk) then w.checkpoints
      else map k | k in w.checkpoints && c.cutoff <= w.checkpoints[k] :: w.checkpoints[k],
      if reclaims then Max(w.cutoff, c.cutoff) else w.cutoff)
  }

  datatype Step =
    | InternFor(name: string, now: int, ts: int, storeOk: bool)
    | StoreTenSeconds(row: MetricRow)
    | RollUp(row: MetricRow)
    | SaveCheckpoint(key: CheckpointKey, ts: int)
    | Reopen
    | Clean(cleanup: Cleanup)

  /** A 10s row is stamped with the id of a sample in its bucket or after it. */
  ghost predicate Sampled(w: World, row: MetricRow) {
    && IsEnd(row.ts, BucketMs(row.resolution))
    && exists a :: a in w.activity && a.sid == row.sid && row.ts - BucketMs(row.resolution) < a.ts
  }

  predicate RollsInto(source: MetricRow, row: MetricRow) {
    source.resolution == TenSeconds && source.sid == row.sid && row.ts == BucketEnd(source.ts, BucketMs(row.resolution))
  }

  ghost predicate CanStep(w: World, s: Step) {
    match s
    case InternFor(name, now, ts, _) => ts <= now
    case StoreTenSeconds(row) => row.resolution == TenSeconds && Sampled(w, row)
    case RollUp(row) =>
      row.resolution in COARSE && exists source :: source in w.rows && RollsInto(source, row)
    case SaveCheckpoint(key, ts) => exists a :: a in w.activity && a.sid == key.sid && ts <= a.ts
    case Reopen => true
    case Clean(c) => true
  }

  ghost function Stepped(w: World, s: Step): World
    requires Coherent(w.registry)
  {
    match s
    case InternFor(name, now, ts, ok) =>
      // Without an id the sample or line is not recorded.
      var (registry, sid) := Interned(w.registry, name, now, ok);
      var seen := if sid.None? then {} else {Activity(sid.value, ts)};
      w.(registry := registry, activity := w.activity + seen)
    case StoreTenSeconds(row) => w.(rows := w.rows + {row})
    case RollUp(row) => w.(rows := w.rows + {row})
    case SaveCheckpoint(key, ts) =>
      if key in w.checkpoints && ts < w.checkpoints[key] then w else w.(checkpoints := w.checkpoints[key := ts])
    case Reopen => w.(registry := Loaded(w.registry.dict))
    case Clean(c) => Cleaned(w, c)
  }

  // ---------------------------------------------------------------- what every step keeps

  /** An id's watermark trails its recent activity by less than the touch interval. */
  ghost predicate Watermarked(w: World) {
    forall a :: a in w.activity && w.cutoff - MaxBucketMs() <= a.ts ==>
      a.sid in w.registry.dict.services && a.ts - MAX_WATERMARK_LAG_MS < w.registry.dict.services[a.sid].lastSeenMs
  }

  ghost predicate MarksBelowWatermarks(r: Registry) {
    forall sid :: sid in r.touchedMs ==> sid in r.dict.services && r.touchedMs[sid] <= r.dict.services[sid].lastSeenMs
  }

  ghost predicate Sourced(w: World) {
    && (forall row :: row in w.rows ==> Sampled(w, row))
    && (forall k :: k in w.checkpoints ==> exists a :: a in w.activity && a.sid == k.sid && w.checkpoints[k] <= a.ts)
  }

  ghost predicate Inv(w: World) {
    Coherent(w.registry) && MarksBelowWatermarks(w.registry) && Watermarked(w) && Sourced(w)
  }

  /** No surviving row or checkpoint at or after the cutoff refers to a dropped id. */
  ghost predicate NoOrphans(w: World) {
    && (forall row :: row in w.rows && w.cutoff <= row.ts ==> row.sid in w.registry.dict.services)
    && (forall k :: k in w.checkpoints && w.cutoff <= w.checkpoints[k] ==> k.sid in w.registry.dict.services)
  }

  lemma InvMeansNoOrphans(w: World)
    requires Inv(w)
    ensures NoOrphans(w)
  {
    MaxBucketIsAnHour();
  }

  /** Right after interning, the watermark is less than the touch interval behind the clock. */
  lemma InternBoundsTheLag(r: Registry, name: string, now: int)
    requires Coherent(r) && MarksBelowWatermarks(r)
    ensures var (next, sid) := Interned(r, name, now, true);
      && sid.Some? && LagsLess(next, sid.value, now)
      && MarksBelowWatermarks(next)
      && forall s :: s in r.dict.services ==>
           s in next.dict.services && r.dict.services[s].lastSeenMs <= next.dict.services[s].lastSeenMs
  {
    CacheKnowsTheTable(r, name);
  }

  /** The touch of a known service is due and fails: its debounce mark is set all the same. */
  ghost predicate MasksATouch(r: Registry, name: string, now: int, storeOk: bool) {
    && !storeOk && name in r.byName && !FreshlyCached(r, name, now)
    && r.byName[name] in r.dict.services && r.dict.services[r.byName[name]].lastSeenMs < now
  }

  ghost predicate LagsLess(r: Registry, sid: nat, now: int) {
    sid in r.dict.services && now - MAX_WATERMARK_LAG_MS < r.dict.services[sid].lastSeenMs
  }

  /** After a due touch the service is served from the cache for a whole interval; throughout it the watermark
      trails by less than the interval exactly when the write succeeded or had nothing to raise. */
  lemma LagBoundNeedsTheWrite(r: Registry, name: string, now: int, storeOk: bool)
    requires Coherent(r) && name in r.byName && !FreshlyCached(r, name, now)
    ensures var next, sid := Interned(r, name, now, storeOk).0, r.byName[name];
      && (forall later :: later < now + TOUCH_INTERVAL_MS ==> Interned(next, name, later, true) == (next, Some(sid)))
      && ((forall later :: now <= later < now + TOUCH_INTERVAL_MS ==> LagsLess(next, sid, later))
          <==> !MasksATouch(r, name, now, storeOk))
  {
    CacheKnowsTheTable(r, name);
    var next, sid := Interned(r, name, now, storeOk).0, r.byName[name];
    var last := now + TOUCH_INTERVAL_MS - 1;
    if MasksATouch(r, name, now, storeOk) {
      assert !LagsLess(next, sid, last);
    } else {
      assert LagsLess(next, sid, last);
    }
  }

  lemma ReclaimSparesTheRecent(w: World, c: Cleanup)
    requires Inv(w) && c.metricsOk && c.logsOk && c.reclaimOk
    ensures Coherent(Cleaned(w, c).registry)
    ensures MarksBelowWatermarks(Cleaned(w, c).registry) && Watermarked(Cleaned(w, c))
  {
    ReclaimKeepsCoherence(w.registry, ReclaimCutoffMs(c.cutoff));
  }

  lemma SourcedByMore(w: World, v: World)
    requires Sourced(w) && w.activity <= v.activity && v.rows == w.rows && v.checkpoints == w.checkpoints
    ensures Sourced(v)
  {
    forall row | row in v.rows ensures Sampled(v, row) {
      assert Sampled(w, row);
      var a :| a in w.activity && a.sid == row.sid && row.ts - BucketMs(row.resolution) < a.ts;
      assert a in v.activity;
    }
    forall k | k in v.checkpoints ensures exists a :: a in v.activity && a.sid == k.sid && v.checkpoints[k] <= a.ts {
      var a :| a in w.activity && a.sid == k.sid && w.checkpoints[k] <= a.ts;
      assert a in v.activity;
    }
  }

  /** Ids stay, watermarks only rise, and the newest activity's id is known with a recent watermark. */
  lemma WatermarksStay(w: World, registry: Registry, sid: nat, now: int, ts: int)
    requires Watermarked(w) && ts <= now && LagsLess(registry, sid, now)
    requires forall s :: s in w.registry.dict.services ==>
      s in registry.dict.services && w.registry.dict.services[s].lastSeenMs <= registry.dict.services[s].lastSeenMs
    ensures Watermarked(w.(registry := registry, activity := w.activity + {Activity(sid, ts)}))
  {
  }

  lemma InternKeepsInv(w: World, name: string, now: int, ts: int)
    requires Inv(w) && ts <= now
    ensures Inv(Stepped(w, InternFor(name, now, ts, true)))
  {
    InternKeepsCoherence(w.registry, name, now, true);
    InternBoundsTheLag(w.registry, name, now);
    var (registry, sid) := Interned(w.registry, name, now, true);
    WatermarksStay(w, registry, sid.value, now, ts);
    SourcedByMore(w, Stepped(w, InternFor(name, now, ts, true)));
  }

  /** A served name needs no store call. */
  lemma FreshIgnoresTheStore(w: World, name: string, now: int, ts: int)
    requires Coherent(w.registry) && FreshlyCached(w.registry, name, now)
    ensures Stepped(w, InternFor(name, now, ts, false)) == Stepped(w, InternFor(name, now, ts, true))
  {
  }

  /** A failed store call keeps everything, except that a masked touch leaves a mark ahead of its watermark. */
  lemma FailedStoreKeepsInvIff(w: World, name: string, now: int, ts: int)
    requires Inv(w) && ts <= now && !FreshlyCached(w.registry, name, now)
    ensures Inv(Stepped(w, InternFor(name, now, ts, false))) <==> !MasksATouch(w.registry, name, now, false)
  {
    var next := Stepped(w, InternFor(name, now, ts, false));
    InternKeepsCoherence(w.registry, name, now, false);
    CacheKnowsTheTable(w.registry, name);
    assert next.activity == w.activity;
    SourcedBySame(w, next);
    if MasksATouch(w.registry, name, now, false) {
      assert next.registry.touchedMs[w.registry.byName[name]] == now;
    }
  }

  /** A coarse row leads the samples of its 10s rows by less than its own bucket: both grids share their ends. */
  lemma CoarseRowIsSampled(w: World, source: MetricRow, row: MetricRow)
    requires Sampled(w, source) && row.resolution in COARSE && RollsInto(source, row)
    ensures Sampled(w, row)
  {
    var a :| a in w.activity && a.sid == source.sid && source.ts - BucketMs(source.resolution) < a.ts;
    BucketEndIsEnd(source.ts, BucketMs(row.resolution));
    match row.resolution {
      case OneMinute => FineInsideCoarse(source.ts, 10_000, 6);
      case FiveMinutes => FineInsideCoarse(source.ts, 10_000, 30);
      case OneHour => FineInsideCoarse(source.ts, 10_000, 360);
    }
    assert row.ts - BucketMs(row.resolution) < a.ts;
  }

  ghost predicate Masks(w: World, s: Step) {
    s.InternFor? && MasksATouch(w.registry, s.name, s.now, s.storeOk)
  }

  /** A step keeps the watermarks ahead of what survives exactly when it is not a failed touch that had a
      watermark to raise. */
  lemma StepKeepsInvIff(w: World, s: Step)
    requires Inv(w) && CanStep(w, s)
    ensures Inv(Stepped(w, s)) <==> !Masks(w, s)
  {
    match s
    case InternFor(name, now, ts, ok) =>
      if ok {
        InternKeepsInv(w, name, now, ts);
      } else if FreshlyCached(w.registry, name, now) {
        FreshIgnoresTheStore(w, name, now, ts);
        InternKeepsInv(w, name, now, ts);
      } else {
        FailedStoreKeepsInvIff(w, name, now, ts);
      }
    case StoreTenSeconds(row) => RowsKeepInv(w, row);
    case RollUp(row) =>
      var source :| source in w.rows && RollsInto(source, row);
      CoarseRowIsSampled(w, source, row);
      RowsKeepInv(w, row);
    case SaveCheckpoint(key, ts) => CheckpointKeepsInv(w, key, ts);
    case Reopen => LoadedIsCoherent(w.registry.dict); ReopenKeepsInv(w);
    case Clean(c) => CleanKeepsInv(w, c);
  }

  lemma SourcedBySame(w: World, v: World)
    requires Sourced(w) && v.activity == w.activity && v.rows <= w.rows
    requires forall k :: k in v.checkpoints ==> k in w.checkpoints && v.checkpoints[k] == w.checkpoints[k]
    ensures Sourced(v)
  {
    forall row | row in v.rows ensures Sampled(v, row) { assert Sampled(w, row); }
  }

  lemma RowsKeepInv(w: World, row: MetricRow)
    requires Inv(w) && Sampled(w, row)
    ensures Inv(w.(rows := w.rows + {row}))
  {
    var v := w.(rows := w.rows + {row});
    forall r | r in v.rows ensures Sampled(v, r) { assert Sampled(w, r); }
  }

  lemma CheckpointKeepsInv(w: World, key: CheckpointKey, ts: int)
    requires Inv(w) && exists a :: a in w.activity && a.sid == key.sid && ts <= a.ts
    ensures Inv(w.(checkpoints := w.checkpoints[key := ts]))
  {
    var v := w.(checkpoints := w.checkpoints[key := ts]);
    forall r | r in v.rows ensures Sampled(v, r) { assert Sampled(w, r); }
  }

  lemma ReopenKeepsInv(w: World)
    requires Inv(w)
    ensures Inv(w.(registry := Loaded(w.registry.dict)))
  {
    LoadedIsCoherent(w.registry.dict);
    SourcedBySame(w, w.(registry := Loaded(w.registry.dict)));
  }

  lemma CleanKeepsInv(w: World, c: Cleanup)
    requires Inv(w)
    ensures Inv(Cleaned(w, c))
  {
    SourcedBySame(w, Cleaned(w, c));
    if c.metricsOk && c.logsOk && c.reclaimOk {
      ReclaimSparesTheRecent(w, c);
    }
  }

  // ---------------------------------------------------------------- whole runs

  const EMPTY_WORLD: World := World(Registry(Dictionary(map[], 1), map[], map[], map[]), {}, {}, map[], 0)

  /** A step that cannot be taken changes nothing. */
  ghost function Acted(w: World, s: Step): World {
    if Coherent(w.registry) && CanStep(w, s) then Stepped(w, s) else w
  }

  ghost function WorldAfter(steps: seq<Step>): World {
    if steps == [] then EMPTY_WORLD else Acted(WorldAfter(steps[..|steps| - 1]), steps[|steps| - 1])
  }

  /** No touch that had a watermark to raise fails during the run. */
  ghost predicate NeverMasked(steps: seq<Step>) {
    steps == [] ||
    (var earlier := steps[..|steps| - 1];
     NeverMasked(earlier) && !Masks(WorldAfter(earlier), steps[|steps| - 1]))
  }

  /** At every point of such a run, nothing at or after the last cutoff is orphaned. */
  lemma {:induction false} RetentionNeverOrphans(steps: seq<Step>)
    requires NeverMasked(steps)
    ensures Inv(WorldAfter(steps)) && NoOrphans(WorldAfter(steps))
  {
    if steps != [] {
      var earlier, s := steps[..|steps| - 1], steps[|steps| - 1];
      RetentionNeverOrphans(earlier);
      if CanStep(WorldAfter(earlier), s) { StepKeepsInvIff(WorldAfter(earlier), s); }
    }
    InvMeansNoOrphans(WorldAfter(steps));
  }

  /** After a successful cleanup, with a clock that has not gone back, every surviving row and checkpoint has its id. */
  lemma CleanupLeavesNoOrphan(steps: seq<Step>, c: Cleanup)
    requires NeverMasked(steps) && WorldAfter(steps).cutoff <= c.cutoff
    requires c.metricsOk && c.logsOk && c.metadataOk
    ensures var after := Cleaned(WorldAfter(steps), c);
      && (forall row :: row in after.rows ==> row.sid in after.registry.dict.services)
      && (forall k :: k in after.checkpoints ==> k.sid in after.registry.dict.services)
  {
    RetentionNeverOrphans(steps);
    CleanKeepsInv(WorldAfter(steps), c);
    InvMeansNoOrphans(Cleaned(WorldAfter(steps), c));
  }

  // ---------------------------------------------------------------- both margins and the write are needed

  lemma Then(steps: seq<Step>, s: Step)
    ensures WorldAfter(steps + [s]) == Acted(WorldAfter(steps), s)
    ensures NeverMasked(steps + [s]) <==> NeverMasked(steps) && !Masks(WorldAfter(steps), s)
  {
    assert (steps + [s])[..|steps|] == steps;
  }

  function OneService(seen: int, touched: int): Registry {
    Registry(Dictionary(map[1 := Service("svc", seen)], 2), map["svc" := 1], map[1 := "svc"], map[1 := touched])
  }

  lemma OneServiceIsCoherent(seen: int, touched: int)
    ensures Coherent(OneService(seen, touched))
  {
  }

  lemma FirstIntern(seen: int)
    ensures Stepped(EMPTY_WORLD, InternFor("svc", seen, seen, true)) ==
            World(OneService(seen, seen), {Activity(1, seen)}, {}, map[], 0)
  {
    assert !HasName(EMPTY_WORLD.registry.dict, "svc");
  }

  lemma StartsWithOneService(seen: int)
    ensures var steps := [InternFor("svc", seen, seen, true)];
      NeverMasked(steps) && WorldAfter(steps) == World(OneService(seen, seen), {Activity(1, seen)}, {}, map[], 0)
  {
    var none: seq<Step> := [];
    Then(none, InternFor("svc", seen, seen, true));
    assert none + [InternFor("svc", seen, seen, true)] == [InternFor("svc", seen, seen, true)];
    FirstIntern(seen);
  }

  /** A name served from the cache adds its activity and moves no watermark. */
  lemma ServedFromCache(steps: seq<Step>, seen: int, touched: int, acts: set<Activity>, now: int)
    requires WorldAfter(steps) == World(OneService(seen, touched), acts, {}, map[], 0)
    requires touched <= now < touched + TOUCH_INTERVAL_MS
    ensures WorldAfter(steps + [InternFor("svc", now, now, true)]) ==
            World(OneService(seen, touched), acts + {Activity(1, now)}, {}, map[], 0)
    ensures NeverMasked(steps + [InternFor("svc", now, now, true)]) <==> NeverMasked(steps)
  {
    OneServiceIsCoherent(seen, touched);
    Then(steps, InternFor("svc", now, now, true));
  }

  /** Two calls just under a touch interval apart: the second is served from the cache and moves no watermark. */
  lemma LaggingRun(seen: int) returns (steps: seq<Step>)
    ensures NeverMasked(steps)
    ensures WorldAfter(steps) ==
      World(OneService(seen, seen), {Activity(1, seen)} + {Activity(1, seen + TOUCH_INTERVAL_MS - 1)}, {}, map[], 0)
  {
    StartsWithOneService(seen);
    steps := [InternFor("svc", seen, seen, true)];
    ServedFromCache(steps, seen, seen, {Activity(1, seen)}, seen + TOUCH_INTERVAL_MS - 1);
    steps := steps + [InternFor("svc", seen + TOUCH_INTERVAL_MS - 1, seen + TOUCH_INTERVAL_MS - 1, true)];
  }

  lemma HourOfLateActivity(at: int, cutoff: int)
    requires IsEnd(cutoff, BucketMs(OneHour)) && at == cutoff - BucketMs(OneHour) + 1
    ensures var fine := MetricRow(BucketEnd(at, 10_000), 1, 0, TenSeconds);
      IsEnd(fine.ts, 10_000) && fine.ts - 10_000 < at && RollsInto(fine, MetricRow(cutoff, 1, 0, OneHour))
  {
    var hour := BucketMs(OneHour);
    BucketEndIsEnd(at, 10_000);
    EndCovers(at, hour, cutoff);
    FineInsideCoarse(at, 10_000, 360);
    EndCovers(BucketEnd(at, 10_000), hour, cutoff);
  }

  /** The last activity of an hour becomes its 10s row and then its hourly row, stamped at the end of the hour. */
  lemma RollsUpToTheHour(steps: seq<Step>, w: World, at: int, cutoff: int) returns (longer: seq<Step>, row: MetricRow)
    requires WorldAfter(steps) == w && Coherent(w.registry) && Activity(1, at) in w.activity
    requires IsEnd(cutoff, BucketMs(OneHour)) && at == cutoff - BucketMs(OneHour) + 1
    ensures row == MetricRow(cutoff, 1, 0, OneHour) && row in WorldAfter(longer).rows
    ensures WorldAfter(longer).registry == w.registry && (NeverMasked(longer) <==> NeverMasked(steps))
    ensures WorldAfter(longer).cutoff == w.cutoff
  {
    var fine := MetricRow(BucketEnd(at, 10_000), 1, 0, TenSeconds);
    row := MetricRow(cutoff, 1, 0, OneHour);
    HourOfLateActivity(at, cutoff);
    assert Sampled(w, fine);
    Then(steps, StoreTenSeconds(fine));
    longer := steps + [StoreTenSeconds(fine)];
    assert fine in WorldAfter(longer).rows && row.resolution in COARSE;
    Then(longer, RollUp(row));
    longer := longer + [RollUp(row)];
  }

  /** With any smaller margin below the cutoff, reclamation would drop the id of an hourly row the same pass spares. */
  lemma MarginIsTight(cutoff: int, margin: int) returns (steps: seq<Step>, row: MetricRow)
    requires IsEnd(cutoff, BucketMs(OneHour)) && margin < MaxBucketMs() + MAX_WATERMARK_LAG_MS - 2
    ensures NeverMasked(steps) && row in WorldAfter(steps).rows && cutoff <= row.ts
    ensures row.sid in Stale(WorldAfter(steps).registry.dict, cutoff - margin)
  {
    MaxBucketIsAnHour();
    var seen := cutoff - BucketMs(OneHour) - TOUCH_INTERVAL_MS + 2;
    steps := LaggingRun(seen);
    OneServiceIsCoherent(seen, seen);
    steps, row := RollsUpToTheHour(steps, WorldAfter(steps), cutoff - BucketMs(OneHour) + 1, cutoff);
  }

  /** A touch fails once; for the rest of its interval the cache hides that the watermark stands still. */
  lemma MaskedRun(seen: int) returns (steps: seq<Step>)
    ensures var late := seen + 2 * TOUCH_INTERVAL_MS - 1;
      var acts := {Activity(1, seen)} + {Activity(1, late)};
      WorldAfter(steps) == World(OneService(seen, seen + TOUCH_INTERVAL_MS), acts, {}, map[], 0)
    ensures !NeverMasked(steps)
  {
    StartsWithOneService(seen);
    steps := [InternFor("svc", seen, seen, true)];
    var due := seen + TOUCH_INTERVAL_MS;
    OneServiceIsCoherent(seen, seen);
    Then(steps, InternFor("svc", due, due, false));
    steps := steps + [InternFor("svc", due, due, false)];
    assert OneService(seen, seen).touchedMs[1 := due] == map[1 := due];
    ServedFromCache(steps, seen, due, {Activity(1, seen)}, due + TOUCH_INTERVAL_MS - 1);
    steps := steps + [InternFor("svc", due + TOUCH_INTERVAL_MS - 1, due + TOUCH_INTERVAL_MS - 1, true)];
  }

  /** For every cutoff on an hour: one failed touch, and the cleanup spares an hourly row while dropping its id. */
  lemma FailedTouchOrphans(cutoff: int) returns (steps: seq<Step>, row: MetricRow)
    requires IsEnd(cutoff, BucketMs(OneHour))
    ensures 0 <= cutoff ==> WorldAfter(steps).cutoff <= cutoff
    ensures var after := Cleaned(WorldAfter(steps), Cleanup(cutoff, true, true, true, true));
      row in after.rows && cutoff <= row.ts && row.sid !in after.registry.dict.services
  {
    MaxBucketIsAnHour();
    var seen := cutoff - 3 * BucketMs(OneHour) + 2;
    steps := MaskedRun(seen);
    OneServiceIsCoherent(seen, seen + TOUCH_INTERVAL_MS);
    steps, row := RollsUpToTheHour(steps, WorldAfter(steps), cutoff - BucketMs(OneHour) + 1, cutoff);
  }
}
