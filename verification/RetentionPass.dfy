/** One retention pass over the mutable stores, in the order that keeps every reference alive. */
module RetentionPass {
  import opened Weeks
  import opened LogStore
  import opened ShardedStore
  import opened ServiceRegistry
  import opened RegistryState
  import opened Retention

  class Stores {
    const registry: CachedRegistry
    const logs: ServiceShards
    var rows: set<MetricRow>
    var checkpoints: map<CheckpointKey, int>

    constructor (registry: CachedRegistry, logs: ServiceShards)
      ensures this.registry == registry && this.logs == logs && rows == {} && checkpoints == map[]
    {
      this.registry, this.logs, rows, checkpoints := registry, logs, {}, map[];
    }

    ghost predicate Shows(w: World) reads this, registry, registry.store {
      registry.Valid() && registry.State() == w.registry && rows == w.rows && checkpoints == w.checkpoints
    }

    /** Each flag is the outcome of one store call. The cutoff is the Monday midnight that many whole weeks back. */
    method CleanupOnce(now: int, weeks: nat, metricsOk: bool, logsOk: bool, metadataOk: bool, reclaimOk: bool,
                       ghost w: World)
      returns (cutoff: int)
      requires Shows(w) && logs.Valid()
      modifies this, registry, registry.store, logs
      ensures IsMonday(cutoff) && cutoff + weeks * WEEK_MS <= now < cutoff + (weeks + 1) * WEEK_MS
      ensures cutoff == RetentionCutoffMs(now, weeks)
      ensures Shows(Cleaned(w, Cleanup(cutoff, metricsOk, logsOk, metadataOk, reclaimOk)))
      ensures forall row :: row in rows <==> row in old(rows) && (metricsOk ==> cutoff <= row.ts)
      ensures logs.Valid()
      ensures logs.weeks == if logsOk then old(logs.weeks) - Expired(old(logs.weeks), cutoff) else old(logs.weeks)
      ensures LinesKept(old(logs.weeks), logs.weeks, cutoff, logsOk)
      ensures MarksKept(old(checkpoints), checkpoints, cutoff, logsOk && metadataOk)
      ensures ServicesKept(old(registry.store.services), registry.store.services, cutoff - 2 * 60 * 60 * 1000,
                           metricsOk && logsOk && reclaimOk)
      ensures KeepsSince(now - weeks * WEEK_MS, old(rows), rows, old(checkpoints), checkpoints)
      ensures LinesKeptSince(now - weeks * WEEK_MS, old(logs.weeks), logs.weeks)
    {
      cutoff := RetentionCutoffMs(now, weeks);
      CutoffIsMonday(now, weeks);
      CutoffKeepsWeeks(now, weeks);
      ReclaimMarginIsTwoHours(cutoff);
      CutKeepsLines(logs.weeks, cutoff, now - weeks * WEEK_MS);
      if metricsOk {
        rows := set row | row in rows && cutoff <= row.ts;
      }
      if logsOk {
        var removed := logs.DeleteBefore(cutoff);
        // Only once the log tables they dedup against are gone.
        if metadataOk {
          checkpoints := map k | k in checkpoints && cutoff <= checkpoints[k] :: checkpoints[k];
        }
      }
      // Last, so that nothing spared above refers to a dropped id.
      if metricsOk && logsOk && reclaimOk {
        var reclaimed := registry.ReclaimBefore(ReclaimCutoffMs(cutoff));
      }
    }
  }

  /** A line goes exactly when the cleanup reaches it and it is older than the cutoff. */
  ghost predicate LinesKept(was: map<int, seq<Row>>, now: map<int, seq<Row>>, cutoff: int, reached: bool) {
    && ValidShards(was) && ValidShards(now)
    && forall e :: e in FlatTimeline(now) <==> e in FlatTimeline(was) && (reached ==> cutoff <= e.ts)
  }

  ghost predicate LinesKeptSince(ts: int, was: map<int, seq<Row>>, now: map<int, seq<Row>>) {
    && ValidShards(was) && ValidShards(now)
    && forall e :: e in FlatTimeline(was) && ts <= e.ts ==> e in FlatTimeline(now)
  }

  lemma CutKeepsLines(weeks: map<int, seq<Row>>, cutoff: int, since: int)
    requires ValidShards(weeks) && IsMonday(cutoff) && cutoff <= since
    ensures LinesKept(weeks, weeks, cutoff, false) && LinesKeptSince(since, weeks, weeks)
    ensures LinesKept(weeks, weeks - Expired(weeks, cutoff), cutoff, true)
    ensures LinesKeptSince(since, weeks, weeks - Expired(weeks, cutoff))
  {
    var kept := weeks - Expired(weeks, cutoff);
    forall e
      ensures ValidShards(kept) && (e in FlatTimeline(kept) <==> e in FlatTimeline(weeks) && cutoff <= e.ts)
    {
      ShardCutIsExact(weeks, cutoff, e);
    }
  }

  /** A checkpoint goes exactly when the cleanup reaches it and it is older than the cutoff. */
  ghost predicate MarksKept(was: map<CheckpointKey, int>, now: map<CheckpointKey, int>, cutoff: int, reached: bool) {
    && (forall k :: k in now <==> k in was && (reached ==> cutoff <= was[k]))
    && forall k :: k in now ==> now[k] == was[k]
  }

  /** A service goes exactly when the cleanup reaches it and it was last seen before the limit. */
  ghost predicate ServicesKept(was: map<nat, Service>, now: map<nat, Service>, limit: int, reached: bool) {
    && (forall sid :: sid in now <==> sid in was && (reached ==> limit <= was[sid].lastSeenMs))
    && forall sid :: sid in now ==> now[sid] == was[sid]
  }

  /** Nothing stamped at or after an instant was removed. */
  ghost predicate KeepsSince(ts: int, wasRows: set<MetricRow>, rows: set<MetricRow>,
                             wasCheckpoints: map<CheckpointKey, int>, checkpoints: map<CheckpointKey, int>) {
    && (forall row :: row in wasRows && ts <= row.ts ==> row in rows)
    && (forall k :: k in wasCheckpoints && ts <= wasCheckpoints[k] ==>
          k in checkpoints && checkpoints[k] == wasCheckpoints[k])
  }

  lemma ReclaimMarginIsTwoHours(cutoff: int)
    ensures ReclaimCutoffMs(cutoff) == cutoff - 2 * 60 * 60 * 1000
  {
    MaxBucketIsAnHour();
  }
}
