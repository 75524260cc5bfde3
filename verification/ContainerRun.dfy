/** Whole runs of the container collector, and a container's own samples in them. */
module ContainerRun {
  import opened Prelude
  import opened Buckets
  import opened ContainerBuckets
  import opened ContainerLife
  import opened SlowestCollection
  import opened ContainerCollector

  type Batches = seq<seq<Reading>>

  /** End of the bucket the newest batch fell into. */
  function LastRawEnd(batches: Batches): Option<int> {
    if batches == [] then None
    else
      var earlier, batch := batches[..|batches| - 1], batches[|batches| - 1];
      if batch == [] then LastRawEnd(earlier) else Some(BucketEnd(MaxTs(batch), LEN))
  }

  /** What the newest batch of a run completes. */
  function CompletedBy(batches: Batches): Option<int>
    requires batches != [] && batches[|batches| - 1] != []
  {
    Completed(LastRawEnd(batches[..|batches| - 1]), batches[|batches| - 1])
  }

  /** One container after a run. */
  function TrackedIn(batches: Batches, cid: int, cap: nat): (t: Option<Entry>)
    ensures Sound(t)
  {
    if batches == [] then None
    else
      var before, batch := TrackedIn(batches[..|batches| - 1], cid, cap), batches[|batches| - 1];
      if batch == [] then before else After(before, batch, cid, cap, CompletedBy(batches))
  }

  /** Its row from the newest batch of a run. */
  function ReportIn(batches: Batches, cid: int, cap: nat): Option<ContainerRow> {
    if batches == [] || batches[|batches| - 1] == [] then None
    else Reported(TrackedIn(batches[..|batches| - 1], cid, cap), batches[|batches| - 1], cid, cap, CompletedBy(batches))
  }

  // ---------------------------------------------------------------- the collector realises the run

  ghost predicate AllTracked(entries: map<int, Entry>, batches: Batches, cap: nat) {
    forall c :: Find(entries, c) == TrackedIn(batches, c, cap)
  }

  ghost predicate RowsOfRun(rows: set<ContainerRow>, batches: Batches, cap: nat) {
    forall row :: row in rows <==> ReportIn(batches, row.cid, cap) == Some(row)
  }

  lemma TrackedNext(
    batches: Batches, batch: seq<Reading>, was: map<int, Entry>, entries: map<int, Entry>,
    rows: set<ContainerRow>, cap: nat)
    requires AllSound(was) && AllTracked(was, batches, cap) && batch != []
    requires var completed := Completed(LastRawEnd(batches), batch);
      AllAfter(was, entries, batch, cap, completed) && AllReported(was, rows, batch, cap, completed)
    ensures AllTracked(entries, batches + [batch], cap) && RowsOfRun(rows, batches + [batch], cap)
  {
    assert (batches + [batch])[..|batches|] == batches;
    forall c ensures Find(entries, c) == TrackedIn(batches + [batch], c, cap) {
      assert Find(was, c) == TrackedIn(batches, c, cap);
    }
    forall row: ContainerRow ensures row in rows <==> ReportIn(batches + [batch], row.cid, cap) == Some(row) {
      assert Find(was, row.cid) == TrackedIn(batches, row.cid, cap);
    }
  }

  lemma EmptyBatch(batches: Batches, entries: map<int, Entry>, cap: nat)
    requires AllTracked(entries, batches, cap)
    ensures AllTracked(entries, batches + [[]], cap) && RowsOfRun({}, batches + [[]], cap)
    ensures LastRawEnd(batches + [[]]) == LastRawEnd(batches)
  {
    assert (batches + [[]])[..|batches|] == batches;
    forall c ensures Find(entries, c) == TrackedIn(batches + [[]], c, cap) {
      assert Find(entries, c) == TrackedIn(batches, c, cap);
    }
  }

  /** One more batch of a run. */
  method ObserveNext(state: ContainerCollectorState, batch: seq<Reading>, ghost batches: Batches)
    returns (rows: set<ContainerRow>)
    requires state.Valid() && state.lastRawBucketEnd == LastRawEnd(batches)
    requires AllTracked(state.containers, batches, state.capacity)
    modifies state
    ensures state.Valid() && state.lastRawBucketEnd == LastRawEnd(batches + [batch])
    ensures AllTracked(state.containers, batches + [batch], state.capacity)
    ensures RowsOfRun(rows, batches + [batch], state.capacity)
  {
    ghost var was := state.containers;
    rows := state.Observe(batch);
    if batch == [] {
      EmptyBatch(batches, was, state.capacity);
    } else {
      TrackedNext(batches, batch, was, state.containers, rows, state.capacity);
    }
  }

  /** Each batch returned exactly the rows of the containers' runs. */
  ghost predicate RowsOfRuns(rows: seq<set<ContainerRow>>, batches: Batches, cap: nat) {
    |rows| == |batches| && forall k :: 0 <= k < |rows| ==> RowsOfRun(rows[k], batches[..k + 1], cap)
  }

  lemma RowsOneMore(rows: seq<set<ContainerRow>>, batches: Batches, found: set<ContainerRow>, batch: seq<Reading>,
                    cap: nat)
    requires RowsOfRuns(rows, batches, cap) && RowsOfRun(found, batches + [batch], cap)
    ensures RowsOfRuns(rows + [found], batches + [batch], cap)
  {
    forall k | 0 <= k < |rows| + 1 ensures RowsOfRun((rows + [found])[k], (batches + [batch])[..k + 1], cap) {
      if k < |rows| {
        assert (batches + [batch])[..k + 1] == batches[..k + 1];
      } else {
        assert (batches + [batch])[..k + 1] == batches + [batch];
      }
    }
  }

  /** `run_containers` over a new collector: after every batch each container stands where its own run takes it. */
  method RunContainers(state: ContainerCollectorState, batches: Batches) returns (rows: seq<set<ContainerRow>>)
    requires state.Valid() && state.containers == map[] && state.lastRawBucketEnd == None
    modifies state
    ensures state.Valid() && AllTracked(state.containers, batches, state.capacity)
    ensures RowsOfRuns(rows, batches, state.capacity)
  {
    rows := [];
    for i := 0 to |batches|
      invariant state.Valid() && state.lastRawBucketEnd == LastRawEnd(batches[..i])
      invariant AllTracked(state.containers, batches[..i], state.capacity)
      invariant RowsOfRuns(rows, batches[..i], state.capacity)
    {
      var found := ObserveNext(state, batches[i], batches[..i]);
      assert batches[..i + 1] == batches[..i] + [batches[i]];
      RowsOneMore(rows, batches[..i], found, batches[i], state.capacity);
      rows := rows + [found];
    }
    assert batches[..|batches|] == batches;
  }

  // ---------------------------------------------------------------- one container in the run

  /** A container's own samples in a batch. */
  function Only(batch: seq<Reading>, cid: int): seq<Reading> {
    if batch == [] then []
    else
      var r := batch[|batch| - 1];
      Only(batch[..|batch| - 1], cid) + if r.cid == cid then [r] else []
  }

  /** Other containers' samples make no difference. */
  lemma {:induction false} FedByItsOwn(t: Option<Entry>, batch: seq<Reading>, cid: int, cap: nat)
    ensures Fed(t, batch, cid, cap) == Fed(t, Only(batch, cid), cid, cap)
  {
    if batch != [] {
      var init, r := batch[..|batch| - 1], batch[|batch| - 1];
      FedByItsOwn(t, init, cid, cap);
      var own := Only(init, cid);
      if r.cid == cid {
        assert (own + [r])[..|own|] == own;
      } else {
        assert Only(batch, cid) == own;
      }
    }
  }

  ghost predicate NotIn(batches: Batches, cid: int) { forall i :: 0 <= i < |batches| ==> Only(batches[i], cid) == [] }

  lemma {:induction false} NotSeenYet(batches: Batches, cid: int, cap: nat)
    requires NotIn(batches, cid)
    ensures TrackedIn(batches, cid, cap) == None && ReportIn(batches, cid, cap) == None
  {
    if batches != [] {
      NotSeenYet(batches[..|batches| - 1], cid, cap);
      FedByItsOwn(None, batches[|batches| - 1], cid, cap);
    }
  }

  /** The samples of a collection cycle share its instant, and `x` is the container's. */
  predicate CycleOf(batch: seq<Reading>, x: Reading, cid: int) {
    batch != [] && Only(batch, cid) == [x] && x.cid == cid && MaxTs(batch) == x.ts
  }

  /** The container has one sample in every batch. */
  ghost predicate Cycles(batches: Batches, xs: seq<Reading>, cid: int) {
    |batches| == |xs| && forall i :: 0 <= i < |xs| ==> CycleOf(batches[i], xs[i], cid)
  }

  /** It is first seen after the batches `before`, and from there on in every batch. */
  ghost predicate Joins(before: Batches, batches: Batches, xs: seq<Reading>, cid: int) {
    NotIn(before, cid) && Cycles(batches, xs, cid)
  }

  /** What the batch the container joins in completes. */
  function FirstCompleted(before: Batches, batch: seq<Reading>): Option<int>
    requires batch != []
  {
    Completed(LastRawEnd(before), batch)
  }

  lemma {:induction false} LastRawEndIsABucketEnd(batches: Batches)
    requires LastRawEnd(batches).Some?
    ensures exists m :: LastRawEnd(batches).value == BucketEnd(m, LEN)
  {
    if batches[|batches| - 1] == [] { LastRawEndIsABucketEnd(batches[..|batches| - 1]); }
  }

  /** That bucket ended before the container's first sample. */
  lemma FirstCompletedIsEarlier(before: Batches, batch: seq<Reading>, x: Reading, cid: int)
    requires CycleOf(batch, x, cid)
    ensures var first := FirstCompleted(before, batch); first.Some? ==> first.value < x.ts
  {
    if FirstCompleted(before, batch).Some? {
      LastRawEndIsABucketEnd(before);
      var m :| LastRawEnd(before).value == BucketEnd(m, LEN);
      if x.ts < m { BucketEndRises(x.ts, m, LEN); } else { BucketEndRises(m, x.ts, LEN); }
    }
  }

  lemma FedInItsCycle(t: Option<Entry>, batch: seq<Reading>, x: Reading, cid: int, cap: nat)
    requires CycleOf(batch, x, cid)
    ensures Fed(t, batch, cid, cap) == Some(Pushed(t, cap, x))
  {
    FedByItsOwn(t, batch, cid, cap);
    assert [x][..0] == [];
  }

  lemma NextBatch(
    batches: Batches, batch: seq<Reading>, ys: seq<Reading>, x: Reading, cid: int, first: Option<int>, cap: nat)
    requires CycleOf(batch, x, cid) && TrackedIn(batches, cid, cap) == Tracked(ys, cid, first, cap)
    requires Completed(LastRawEnd(batches), batch) == ClosedBy(ys + [x], first)
    ensures TrackedIn(batches + [batch], cid, cap) == Tracked(ys + [x], cid, first, cap)
    ensures ReportIn(batches + [batch], cid, cap) == Report(ys + [x], cid, first, cap)
  {
    assert (batches + [batch])[..|batches|] == batches;
    FedInItsCycle(Tracked(ys, cid, first, cap), batch, x, cid, cap);
    OneMoreSample(ys, x, cid, first, cap);
  }

  lemma LastCycleEnd(batches: Batches, batch: seq<Reading>, y: Reading, cid: int)
    requires CycleOf(batch, y, cid)
    ensures LastRawEnd(batches + [batch]) == Some(End(y))
  {
  }

  lemma CycleCompletes(ys: seq<Reading>, x: Reading, batch: seq<Reading>, cid: int, first: Option<int>)
    requires CycleOf(batch, x, cid) && ys != []
    ensures Completed(Some(End(ys[|ys| - 1])), batch) == ClosedBy(ys + [x], first)
  {
  }

  /** The second and every later batch of the container completes the bucket of its previous sample, if any. */
  lemma EndOfCycles(before: Batches, batches: Batches, ys: seq<Reading>, cid: int)
    requires Cycles(batches, ys, cid) && ys != []
    ensures LastRawEnd(before + batches) == Some(End(ys[|ys| - 1]))
  {
    var n := |ys| - 1;
    assert CycleOf(batches[n], ys[n], cid);
    assert before + batches == before + batches[..n] + [batches[n]];
    LastCycleEnd(before + batches[..n], batches[n], ys[n], cid);
  }

  lemma LaterBatch(
    before: Batches, batches: Batches, batch: seq<Reading>, ys: seq<Reading>, x: Reading, cid: int,
    first: Option<int>, cap: nat)
    requires Cycles(batches, ys, cid) && CycleOf(batch, x, cid) && ys != []
    requires TrackedIn(before + batches, cid, cap) == Tracked(ys, cid, first, cap)
    ensures TrackedIn(before + batches + [batch], cid, cap) == Tracked(ys + [x], cid, first, cap)
    ensures ReportIn(before + batches + [batch], cid, cap) == Report(ys + [x], cid, first, cap)
  {
    EndOfCycles(before, batches, ys, cid);
    CycleCompletes(ys, x, batch, cid, first);
    NextBatch(before + batches, batch, ys, x, cid, first, cap);
  }

  lemma JoiningBatch(before: Batches, batch: seq<Reading>, x: Reading, cid: int, cap: nat)
    requires NotIn(before, cid) && CycleOf(batch, x, cid)
    ensures TrackedIn(before + [batch], cid, cap) == Tracked([x], cid, FirstCompleted(before, batch), cap)
    ensures ReportIn(before + [batch], cid, cap) == Report([x], cid, FirstCompleted(before, batch), cap)
  {
    NotSeenYet(before, cid, cap);
    assert [] + [x] == [x];
    NextBatch(before, batch, [], x, cid, FirstCompleted(before, batch), cap);
  }

  lemma CyclesBefore(batches: Batches, xs: seq<Reading>, cid: int)
    requires Cycles(batches, xs, cid) && xs != []
    ensures var n := |xs| - 1; Cycles(batches[..n], xs[..n], cid) && CycleOf(batches[n], xs[n], cid)
  {
  }

  lemma LastApart<T>(before: seq<T>, s: seq<T>)
    requires s != []
    ensures before + s == before + s[..|s| - 1] + [s[|s| - 1]] && s == s[..|s| - 1] + [s[|s| - 1]]
  {
  }

  /** In a run of the whole collector the container fares exactly as its own samples would alone. */
  lemma {:induction false} RunIsItsOwn(before: Batches, batches: Batches, xs: seq<Reading>, cid: int, cap: nat)
    requires Joins(before, batches, xs, cid) && xs != []
    ensures batches[0] != []
    ensures TrackedIn(before + batches, cid, cap) == Tracked(xs, cid, FirstCompleted(before, batches[0]), cap)
    ensures ReportIn(before + batches, cid, cap) == Report(xs, cid, FirstCompleted(before, batches[0]), cap)
  {
    var n := |xs| - 1;
    CyclesBefore(batches, xs, cid);
    LastApart(before, batches);
    LastApart([], xs);
    if n == 0 {
      assert batches == [batches[0]] && xs == [xs[0]];
      JoiningBatch(before, batches[0], xs[0], cid, cap);
    } else {
      RunIsItsOwn(before, batches[..n], xs[..n], cid, cap);
      LaterBatch(before, batches[..n], batches[n], xs[..n], xs[n], cid, FirstCompleted(before, batches[0]), cap);
    }
  }

  /** At any rate of collection: the newest batch of the whole collector reports the container exactly when its own
      samples have a row due. */
  lemma CollectorReportsExactly(before: Batches, batches: Batches, xs: seq<Reading>, cid: int, cap: nat)
    requires Joins(before, batches, xs, cid) && xs != [] && Own(xs, cid) && Roomy(xs, cap)
    ensures batches[0] != []
    ensures ReportIn(before + batches, cid, cap).Some? <==>
            Emits(xs, FirstCompleted(before, batches[0]), HasShare)
  {
    FirstCompletedIsEarlier(before, batches[0], xs[0], cid);
    RunIsItsOwn(before, batches, xs, cid, cap);
    ReportedExactly(xs, cid, FirstCompleted(before, batches[0]), cap);
  }

  // ---------------------------------------------------------------- one sample per bucket

  ghost predicate EverReportedIn(batches: Batches, cid: int, cap: nat) {
    exists k :: 0 <= k <= |batches| && ReportIn(batches[..k], cid, cap).Some?
  }

  lemma ReportedOnlyAfterJoining(before: Batches, batches: Batches, cid: int, cap: nat, k: nat)
    requires NotIn(before, cid) && k <= |before + batches| && ReportIn((before + batches)[..k], cid, cap).Some?
    ensures |before| < k
  {
    if k <= |before| {
      assert (before + batches)[..k] == before[..k];
      NotSeenYet(before[..k], cid, cap);
    }
  }

  lemma JoinsPrefix(before: Batches, batches: Batches, xs: seq<Reading>, cid: int, n: nat)
    requires Joins(before, batches, xs, cid) && n <= |xs|
    ensures Joins(before, batches[..n], xs[..n], cid)
    ensures (before + batches)[..|before| + n] == before + batches[..n]
  {
  }

  lemma ReportedAfterJoining(
    before: Batches, batches: Batches, xs: seq<Reading>, cid: int, cap: nat, n: nat, first: Option<int>)
    requires Joins(before, batches, xs, cid) && 1 <= n <= |xs|
    requires batches[0] != [] && FirstCompleted(before, batches[0]) == first
    ensures ReportIn((before + batches)[..|before| + n], cid, cap) == Report(xs[..n], cid, first, cap)
  {
    JoinsPrefix(before, batches, xs, cid, n);
    RunIsItsOwn(before, batches[..n], xs[..n], cid, cap);
  }

  lemma EverReportedAlike(
    before: Batches, batches: Batches, xs: seq<Reading>, cid: int, cap: nat, first: Option<int>)
    requires Joins(before, batches, xs, cid) && xs != []
    requires batches[0] != [] && FirstCompleted(before, batches[0]) == first
    ensures EverReportedIn(before + batches, cid, cap) <==> EverReported(xs, cid, first, cap)
  {
    var all := before + batches;
    if EverReportedIn(all, cid, cap) {
      var k :| 0 <= k <= |all| && ReportIn(all[..k], cid, cap).Some?;
      ReportedOnlyAfterJoining(before, batches, cid, cap, k);
      ReportedAfterJoining(before, batches, xs, cid, cap, k - |before|, first);
    }
    if EverReported(xs, cid, first, cap) {
      var n :| 1 <= n <= |xs| && Report(xs[..n], cid, first, cap).Some?;
      ReportedAfterJoining(before, batches, xs, cid, cap, n, first);
    }
  }

  /** The collector ever reports a container sampled once per bucket exactly when the batch it joined in completed
      no bucket and the share of its second sample's bucket is computable. */
  lemma CollectorReportsIffJoinedQuietly(before: Batches, batches: Batches, xs: seq<Reading>, cid: int, cap: nat)
    requires Joins(before, batches, xs, cid) && xs != [] && OnePerBucket(xs, cid) && 4 <= cap
    ensures batches[0] != []
    ensures EverReportedIn(before + batches, cid, cap) <==>
      FirstCompleted(before, batches[0]).None? && 3 <= |xs| && Computable(xs[0], xs[1], xs[2])
  {
    FirstCompletedIsEarlier(before, batches[0], xs[0], cid);
    var first := FirstCompleted(before, batches[0]);
    ReportedIffJoinedQuietly(xs, cid, first, cap);
    EverReportedAlike(before, batches, xs, cid, cap, first);
  }
}
