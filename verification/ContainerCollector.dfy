/** The mutable container collector: every container flushed at the same bucket end. */
module ContainerCollector {
  import opened Prelude
  import opened Buckets
  import opened ContainerBuckets
  import opened ContainerRows

  function Find(entries: map<int, Entry>, cid: int): Option<Entry> {
    if cid in entries then Some(entries[cid]) else None
  }

  ghost predicate AllSound(entries: map<int, Entry>) { forall c :: c in entries ==> RisingReadings(entries[c].kept) }

  /** Every container has taken its own part of the batch. */
  ghost predicate AllFed(was: map<int, Entry>, entries: map<int, Entry>, batch: seq<Reading>, cap: nat) {
    forall c :: Find(entries, c) == Fed(Find(was, c), batch, c, cap)
  }

  lemma FedOneMore(was: map<int, Entry>, entries: map<int, Entry>, batch: seq<Reading>, cap: nat, r: Reading)
    requires AllFed(was, entries, batch, cap)
    ensures AllFed(was, entries[r.cid := Pushed(Find(entries, r.cid), cap, r)], batch + [r], cap)
  {
    var now := entries[r.cid := Pushed(Find(entries, r.cid), cap, r)];
    assert (batch + [r])[..|batch|] == batch;
    forall c ensures Find(now, c) == Fed(Find(was, c), batch + [r], c, cap) {
      assert Find(entries, c) == Fed(Find(was, c), batch, c, cap);
    }
  }

  lemma FedStaysSound(was: map<int, Entry>, entries: map<int, Entry>, batch: seq<Reading>, cap: nat)
    requires AllSound(was) && AllFed(was, entries, batch, cap)
    ensures AllSound(entries)
  {
    forall c | c in entries ensures RisingReadings(entries[c].kept) {
      assert Sound(Find(was, c)) && Find(entries, c) == Fed(Find(was, c), batch, c, cap);
    }
  }

  method NewestTs(batch: seq<Reading>) returns (m: int)
    requires batch != []
    ensures m == MaxTs(batch)
  {
    m := batch[0].ts;
    for i := 1 to |batch|
      invariant m == MaxTs(batch[..i])
    {
      assert batch[..i + 1][..i] == batch[..i];
      m := Max(m, batch[i].ts);
    }
    assert batch[..|batch|] == batch;
  }

  method FeedAll(was: map<int, Entry>, batch: seq<Reading>, cap: nat) returns (entries: map<int, Entry>)
    ensures AllFed(was, entries, batch, cap)
  {
    entries := was;
    for i := 0 to |batch|
      invariant AllFed(was, entries, batch[..i], cap)
    {
      assert batch[..i + 1] == batch[..i] + [batch[i]];
      FedOneMore(was, entries, batch[..i], cap, batch[i]);
      entries := entries[batch[i].cid := Pushed(Find(entries, batch[i].cid), cap, batch[i])];
    }
    assert batch[..|batch|] == batch;
  }

  /** Every visited container has settled the bucket. */
  ghost predicate EntriesSettled(was: map<int, Entry>, entries: map<int, Entry>, pending: set<int>, end: int)
    requires AllSound(was)
  {
    forall c :: Find(entries, c) == if c in was && c !in pending then Settled(was[c], c, end) else Find(was, c)
  }

  /** Exactly the visited containers have contributed their rows. */
  ghost predicate RowsCollected(was: map<int, Entry>, rows: set<ContainerRow>, pending: set<int>, end: int)
    requires AllSound(was)
  {
    forall row :: row in rows <==>
      row.cid in was && row.cid !in pending && RowAt(was[row.cid], row.cid, end) == Some(row)
  }

  method SettleOne(e: Entry, cid: int, end: int) returns (next: Option<Entry>, row: Option<ContainerRow>)
    requires RisingReadings(e.kept)
    ensures next == Settled(e, cid, end) && row == RowAt(e, cid, end)
  {
    row := RowAt(e, cid, end);
    if row.Some? {
      next := Some(e.(idle := 0));
    } else {
      next := if e.idle + 1 < MAX_IDLE_FLUSHES then Some(e.(idle := e.idle + 1)) else None;
    }
  }

  function Updated(entries: map<int, Entry>, cid: int, next: Option<Entry>): map<int, Entry> {
    if next.Some? then entries[cid := next.value] else entries - {cid}
  }

  lemma SettleOneMore(was: map<int, Entry>, entries: map<int, Entry>, pending: set<int>, end: int, c: int)
    requires AllSound(was) && c in was && c in pending && EntriesSettled(was, entries, pending, end)
    ensures EntriesSettled(was, Updated(entries, c, Settled(was[c], c, end)), pending - {c}, end)
  {
    var next := Updated(entries, c, Settled(was[c], c, end));
    forall k
      ensures Find(next, k) == if k in was && k !in pending - {c} then Settled(was[k], k, end) else Find(was, k)
    {
      assert k != c ==> Find(next, k) == Find(entries, k);
    }
  }

  lemma CollectOneMore(was: map<int, Entry>, rows: set<ContainerRow>, pending: set<int>, end: int, c: int)
    requires AllSound(was) && c in was && c in pending && RowsCollected(was, rows, pending, end)
    ensures var row := RowAt(was[c], c, end);
      RowsCollected(was, if row.Some? then rows + {row.value} else rows, pending - {c}, end)
  {
  }

  /** `containers.retain(..)`, in whatever order the table yields its entries. */
  method Flush(was: map<int, Entry>, end: int) returns (entries: map<int, Entry>, rows: set<ContainerRow>)
    requires AllSound(was)
    ensures EntriesSettled(was, entries, {}, end) && RowsCollected(was, rows, {}, end)
  {
    entries, rows := was, {};
    var pending := was.Keys;
    while pending != {}
      invariant pending <= was.Keys
      invariant EntriesSettled(was, entries, pending, end) && RowsCollected(was, rows, pending, end)
    {
      var c := Pick(pending);
      var next, row := SettleOne(was[c], c, end);
      SettleOneMore(was, entries, pending, end, c);
      CollectOneMore(was, rows, pending, end, c);
      entries := Updated(entries, c, next);
      rows := if row.Some? then rows + {row.value} else rows;
      pending := pending - {c};
    }
  }

  ghost predicate AllAfter(was: map<int, Entry>, entries: map<int, Entry>, batch: seq<Reading>, cap: nat,
                           completed: Option<int>)
    requires AllSound(was)
  {
    forall c :: Find(entries, c) == After(Find(was, c), batch, c, cap, completed)
  }

  ghost predicate AllReported(was: map<int, Entry>, rows: set<ContainerRow>, batch: seq<Reading>, cap: nat,
                              completed: Option<int>)
    requires AllSound(was)
  {
    forall row :: row in rows <==> Reported(Find(was, row.cid), batch, row.cid, cap, completed) == Some(row)
  }

  /** Every row is stamped with the bucket seen last and says what its container's readings say. */
  ghost predicate AllTold(rows: set<ContainerRow>, entries: map<int, Entry>, last: Option<int>) {
    forall row :: row in rows ==> last == Some(row.ts) && row.cid in entries && RowTold(row, entries[row.cid])
  }

  ghost predicate AllFollow(was: map<int, Entry>, entries: map<int, Entry>, batch: seq<Reading>) {
    forall c :: c in entries ==> FollowsBatch(Find(was, c), batch, c, entries[c])
  }

  lemma AllRowsTold(was: map<int, Entry>, entries: map<int, Entry>, rows: set<ContainerRow>, batch: seq<Reading>,
                    cap: nat, completed: Option<int>)
    requires AllSound(was) && AllAfter(was, entries, batch, cap, completed)
    requires AllReported(was, rows, batch, cap, completed)
    ensures AllTold(rows, entries, completed)
  {
    forall row | row in rows
      ensures completed == Some(row.ts) && row.cid in entries && RowTold(row, entries[row.cid])
    {
      ReportedTells(Find(was, row.cid), batch, row.cid, cap, completed, row);
      assert Find(entries, row.cid) == After(Find(was, row.cid), batch, row.cid, cap, completed);
    }
  }

  lemma AllEntriesFollow(was: map<int, Entry>, entries: map<int, Entry>, batch: seq<Reading>, cap: nat,
                         completed: Option<int>)
    requires AllSound(was) && AllAfter(was, entries, batch, cap, completed)
    ensures AllFollow(was, entries, batch)
  {
    forall c | c in entries ensures FollowsBatch(Find(was, c), batch, c, entries[c]) {
      AfterFollows(Find(was, c), batch, c, cap, completed);
      assert Find(entries, c) == After(Find(was, c), batch, c, cap, completed);
    }
  }

  class ContainerCollectorState {
    const capacity: nat
    var containers: map<int, Entry>
    var lastRawBucketEnd: Option<int>

    ghost predicate Valid() reads this { AllSound(containers) }

    constructor (capacity: nat)
      ensures Valid() && this.capacity == capacity && containers == map[] && lastRawBucketEnd == None
    {
      this.capacity, containers, lastRawBucketEnd := capacity, map[], None;
    }

    /** Each container moves on by its own samples and the completed bucket alone;
        the rows of one flush share its end. */
    method Observe(batch: seq<Reading>) returns (rows: set<ContainerRow>)
      requires Valid()
      modifies this
      ensures Valid()
      ensures batch == [] ==> rows == {} && containers == old(containers) && lastRawBucketEnd == old(lastRawBucketEnd)
      ensures batch != [] ==> lastRawBucketEnd == Some(BucketEnd(MaxTs(batch), LEN))
      ensures batch != [] ==>
        AllAfter(old(containers), containers, batch, capacity, Completed(old(lastRawBucketEnd), batch))
      ensures batch != [] ==>
        AllReported(old(containers), rows, batch, capacity, Completed(old(lastRawBucketEnd), batch))
      ensures AllTold(rows, containers, old(lastRawBucketEnd))
      ensures batch != [] ==> AllFollow(old(containers), containers, batch)
    {
      rows := {};
      if batch == [] {
        return;
      }
      var newest := NewestTs(batch);
      var current := BucketEnd(newest, LEN);
      var completed := if lastRawBucketEnd.Some? && current > lastRawBucketEnd.value then lastRawBucketEnd else None;
      ghost var was := containers;
      var fed := FeedAll(containers, batch, capacity);
      FedStaysSound(was, fed, batch, capacity);
      lastRawBucketEnd := Some(current);
      containers := fed;
      if completed.Some? {
        containers, rows := Flush(fed, completed.value);
        SettledIsAfter(was, fed, containers, rows, batch, capacity, completed.value);
      }
      AllRowsTold(was, containers, rows, batch, capacity, completed);
      AllEntriesFollow(was, containers, batch, capacity, completed);
    }
  }

  lemma SettledIsAfter(
    was: map<int, Entry>, fed: map<int, Entry>, entries: map<int, Entry>, rows: set<ContainerRow>,
    batch: seq<Reading>, cap: nat, end: int)
    requires AllSound(was) && AllSound(fed) && AllFed(was, fed, batch, cap) && EntriesSettled(fed, entries, {}, end)
    requires RowsCollected(fed, rows, {}, end)
    ensures AllSound(entries)
    ensures AllAfter(was, entries, batch, cap, Some(end)) && AllReported(was, rows, batch, cap, Some(end))
  {
    forall c ensures Find(entries, c) == After(Find(was, c), batch, c, cap, Some(end)) {
      assert Find(fed, c) == Fed(Find(was, c), batch, c, cap);
    }
    forall c | c in entries ensures RisingReadings(entries[c].kept) {
      assert Find(entries, c) == After(Find(was, c), batch, c, cap, Some(end));
    }
    forall row: ContainerRow
      ensures row in rows <==> Reported(Find(was, row.cid), batch, row.cid, cap, Some(end)) == Some(row)
    {
      assert Find(fed, row.cid) == Fed(Find(was, row.cid), batch, row.cid, cap);
    }
  }
}
