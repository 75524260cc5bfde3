/** What becomes of one container, sample by sample, at any rate of collection. */
module ContainerLife {
  import opened Prelude
  import opened Buckets
  import opened Bucketizer
  import CounterRun
  import opened ContainerBuckets

  function End(x: Reading): int { BucketEnd(x.ts, LEN) }

  /** The samples of one container, in order. */
  ghost predicate Own(xs: seq<Reading>, cid: int) {
    RisingReadings(xs) && forall i :: 0 <= i < |xs| ==> xs[i].cid == cid
  }

  /** The newest sample is the first in its bucket, so its batch completes the bucket before. */
  predicate Closes(xs: seq<Reading>) { 2 <= |xs| && End(xs[|xs| - 2]) < End(xs[|xs| - 1]) }

  /** What the newest sample's batch completes; `first` is what the container's first batch completes. */
  function ClosedBy(xs: seq<Reading>, first: Option<int>): Option<int>
    requires xs != []
  {
    if |xs| == 1 then first else if Closes(xs) then Some(End(xs[|xs| - 2])) else None
  }

  function Tracked(xs: seq<Reading>, cid: int, first: Option<int>, cap: nat): (t: Option<Entry>)
    ensures Sound(t)
  {
    if xs == [] then None
    else Flushed(Some(Pushed(Tracked(xs[..|xs| - 1], cid, first, cap), cap, xs[|xs| - 1])), cid, ClosedBy(xs, first))
  }

  /** The row the newest sample's batch emits. */
  function Report(xs: seq<Reading>, cid: int, first: Option<int>, cap: nat): Option<ContainerRow>
    requires xs != []
  {
    RowOf(Some(Pushed(Tracked(xs[..|xs| - 1], cid, first, cap), cap, xs[|xs| - 1])), cid, ClosedBy(xs, first))
  }

  // ---------------------------------------------------------------- the life of a container

  /** Not tracked, or tracked with the samples from index `from` on. */
  datatype Life = Gone | Kept(from: nat, idle: nat)

  /** Whether the bucket the newest sample closes has its CPU share, with the whole history in hand. */
  type ShareTest = seq<Reading> -> bool

  /** A row needs a sample kept from before the closed bucket, to open it, and the share. */
  predicate RowDue(xs: seq<Reading>, life: Life, has: ShareTest) {
    Closes(xs) && life.Kept? && life.from < |xs| && End(xs[life.from]) < End(xs[|xs| - 2]) && has(xs)
  }

  function LifeAfter(xs: seq<Reading>, first: Option<int>, has: ShareTest): (life: Life)
    ensures life.Kept? ==> life.from < |xs| && life.idle < MAX_IDLE_FLUSHES
  {
    if xs == [] then Gone
    else if |xs| == 1 then Kept(0, if first.Some? then 1 else 0)
    else
      var before := LifeAfter(xs[..|xs| - 1], first, has);
      if Closes(xs) then Settling(before, |xs| - 1, RowDue(xs, before, has)) else Feeding(before, |xs| - 1)
  }

  /** The newest sample, at index `at`, is kept; a container not tracked starts over with it. */
  function Feeding(life: Life, at: nat): Life { if life.Gone? then Kept(at, 0) else life }

  /** A completed bucket with a row clears the idle count; the second in a row without one drops the container. */
  function Settling(life: Life, at: nat, due: bool): Life {
    var fed := Feeding(life, at);
    if due then Kept(fed.from, 0)
    else if fed.idle + 1 < MAX_IDLE_FLUSHES then Kept(fed.from, fed.idle + 1)
    else Gone
  }

  /** Whether the newest sample's batch emits a row. */
  predicate Emits(xs: seq<Reading>, first: Option<int>, has: ShareTest) {
    xs != [] && RowDue(xs, LifeAfter(xs[..|xs| - 1], first, has), has)
  }

  lemma LifeOneMore(ys: seq<Reading>, x: Reading, first: Option<int>, has: ShareTest)
    requires ys != []
    ensures var before, xs := LifeAfter(ys, first, has), ys + [x];
      && (Emits(xs, first, has) <==> RowDue(xs, before, has))
      && LifeAfter(xs, first, has) ==
         if Closes(xs) then Settling(before, |ys|, RowDue(xs, before, has)) else Feeding(before, |ys|)
  {
    assert (ys + [x])[..|ys|] == ys;
  }

  // ---------------------------------------------------------------- what is kept depends only on which rows there are

  /** Whether an entry shows a row for a bucket. */
  predicate Shown(e: Entry, cid: int, end: int) { RisingReadings(e.kept) && RowAt(e, cid, end).Some? }

  type Shows = (Entry, int, int) -> bool

  function FlushedBy(e: Entry, cid: int, completed: Option<int>, shows: Shows): Option<Entry> {
    if completed.None? then Some(e) else SettledBy(e, shows(e, cid, completed.value))
  }

  function TrackedBy(xs: seq<Reading>, cid: int, first: Option<int>, cap: nat, shows: Shows): Option<Entry> {
    if xs == [] then None
    else
      var fed := Pushed(TrackedBy(xs[..|xs| - 1], cid, first, cap, shows), cap, xs[|xs| - 1]);
      FlushedBy(fed, cid, ClosedBy(xs, first), shows)
  }

  predicate EmitsBy(xs: seq<Reading>, cid: int, first: Option<int>, cap: nat, shows: Shows)
    requires xs != []
  {
    ClosedBy(xs, first).Some? &&
    shows(Pushed(TrackedBy(xs[..|xs| - 1], cid, first, cap, shows), cap, xs[|xs| - 1]), cid, ClosedBy(xs, first).value)
  }

  lemma FlushedIsShown(e: Entry, cid: int, completed: Option<int>)
    requires RisingReadings(e.kept)
    ensures Flushed(Some(e), cid, completed) == FlushedBy(e, cid, completed, Shown)
    ensures RowOf(Some(e), cid, completed).Some? <==> completed.Some? && Shown(e, cid, completed.value)
  {
  }

  lemma {:induction false} TrackedIsShown(xs: seq<Reading>, cid: int, first: Option<int>, cap: nat)
    ensures Tracked(xs, cid, first, cap) == TrackedBy(xs, cid, first, cap, Shown)
    ensures xs != [] ==> (Report(xs, cid, first, cap).Some? <==> EmitsBy(xs, cid, first, cap, Shown))
  {
    if xs != [] {
      var ys, x := xs[..|xs| - 1], xs[|xs| - 1];
      TrackedIsShown(ys, cid, first, cap);
      FlushedIsShown(Pushed(Tracked(ys, cid, first, cap), cap, x), cid, ClosedBy(xs, first));
    }
  }

  lemma TrackedOneMore(ys: seq<Reading>, x: Reading, cid: int, first: Option<int>, cap: nat, shows: Shows, e: Entry)
    requires Pushed(TrackedBy(ys, cid, first, cap, shows), cap, x) == e
    ensures var completed := ClosedBy(ys + [x], first);
      && TrackedBy(ys + [x], cid, first, cap, shows) == FlushedBy(e, cid, completed, shows)
      && (EmitsBy(ys + [x], cid, first, cap, shows) <==> completed.Some? && shows(e, cid, completed.value))
  {
    assert (ys + [x])[..|ys|] == ys;
  }

  lemma OneMoreSample(ys: seq<Reading>, x: Reading, cid: int, first: Option<int>, cap: nat)
    ensures var fed, completed := Some(Pushed(Tracked(ys, cid, first, cap), cap, x)), ClosedBy(ys + [x], first);
      && Tracked(ys + [x], cid, first, cap) == Flushed(fed, cid, completed)
      && Report(ys + [x], cid, first, cap) == RowOf(fed, cid, completed)
  {
    assert (ys + [x])[..|ys|] == ys;
  }

  lemma OwnOneMore(ys: seq<Reading>, x: Reading, cid: int)
    requires Own(ys + [x], cid)
    ensures Own(ys, cid) && x.cid == cid && (ys != [] ==> ys[|ys| - 1].ts < x.ts)
  {
    var xs := ys + [x];
    assert forall i :: 0 <= i < |ys| ==> xs[i] == ys[i];
    assert xs[|ys|] == x;
  }

  // ---------------------------------------------------------------- what the capped buffer shows

  /** The entry that stands for a life, its samples capped. */
  function EntryOf(life: Life, xs: seq<Reading>, cap: nat): Option<Entry>
    requires life.Kept? ==> life.from < |xs|
  {
    if life.Gone? then None else Some(Held(xs, life.from, cap, life.idle))
  }

  function Held(xs: seq<Reading>, from: nat, cap: nat, idle: nat): Entry
    requires from < |xs|
  {
    Entry(xs[|xs| - 1].sid, Buffered(xs, from, cap), xs[|xs| - 1].cpuCount, idle)
  }

  /** The buffer after the samples from index `from` on. */
  function Buffered(xs: seq<Reading>, from: nat, cap: nat): seq<Reading>
    requires from < |xs|
  {
    var n := |xs| - 1;
    PushedTo(if from == n then [] else Buffered(xs[..n], from, cap), cap, xs[n])
  }

  /** Index of the oldest sample still in the buffer. */
  function Oldest(n: nat, from: nat, cap: nat): (d: nat)
    requires from < n && 0 < cap
    ensures from <= d < n
  {
    if n - from <= cap then from else n - cap
  }

  lemma LastOfTail(xs: seq<Reading>, from: nat, cap: nat)
    requires from < |xs| && 0 < cap
    ensures Last(xs[from..], cap) == xs[Oldest(|xs|, from, cap)..]
  {
  }

  lemma BufferedOneMore(ys: seq<Reading>, x: Reading, from: nat, cap: nat)
    requires from < |ys|
    ensures Buffered(ys + [x], from, cap) == PushedTo(Buffered(ys, from, cap), cap, x)
  {
    assert (ys + [x])[..|ys|] == ys;
  }

  lemma BufferedJoiner(ys: seq<Reading>, x: Reading, cap: nat)
    requires 0 < cap
    ensures Buffered(ys + [x], |ys|, cap) == [x]
  {
    assert [] + [x] == [x] && Last([x], cap) == [x];
  }

  lemma TailOneMore(ys: seq<Reading>, x: Reading, from: nat)
    requires from < |ys|
    ensures (ys + [x])[from..] == ys[from..] + [x]
  {
  }

  lemma {:induction false} BufferedIsLast(xs: seq<Reading>, from: nat, cap: nat)
    requires RisingReadings(xs) && from < |xs| && 0 < cap
    ensures Buffered(xs, from, cap) == Last(xs[from..], cap)
  {
    var ys, x := xs[..|xs| - 1], xs[|xs| - 1];
    assert xs == ys + [x];
    if from < |ys| {
      PrefixRises(ys, x);
      BufferedIsLast(ys, from, cap);
      BufferedOneMore(ys, x, from, cap);
      TailOneMore(ys, x, from);
      LastOneMore(ys[from..], x, cap);
    } else {
      BufferedJoiner(ys, x, cap);
      assert xs[from..] == [x] && Last([x], cap) == [x];
    }
  }

  lemma PrefixRises(ys: seq<Reading>, x: Reading)
    requires RisingReadings(ys + [x])
    ensures RisingReadings(ys) && (ys != [] ==> ys[|ys| - 1].ts < x.ts)
  {
    assert forall i :: 0 <= i < |ys| ==> (ys + [x])[i] == ys[i];
    assert (ys + [x])[|ys|] == x;
  }

  lemma TailRises(xs: seq<Reading>, d: nat)
    requires RisingReadings(xs) && d <= |xs|
    ensures RisingReadings(xs[d..])
  {
  }

  lemma BufferedIsTail(xs: seq<Reading>, from: nat, cap: nat)
    requires RisingReadings(xs) && from < |xs| && 0 < cap
    ensures Buffered(xs, from, cap) == xs[Oldest(|xs|, from, cap)..] && RisingReadings(Buffered(xs, from, cap))
  {
    BufferedIsLast(xs, from, cap);
    LastOfTail(xs, from, cap);
    TailRises(xs, Oldest(|xs|, from, cap));
  }

  /** When the newest sample closes a bucket, the oldest sample a full buffer holds can open it. */
  predicate Reaches(xs: seq<Reading>, cap: nat) {
    0 < cap && (Closes(xs) && cap < |xs| ==> xs[|xs| - cap].ts <= End(xs[|xs| - 2]) - LEN)
  }

  /** At every moment of the run. */
  ghost predicate Roomy(xs: seq<Reading>, cap: nat) { forall k :: 0 <= k <= |xs| ==> Reaches(xs[..k], cap) }

  lemma LastOneMore(h: seq<Reading>, x: Reading, cap: nat)
    requires 0 < cap && h != [] && h[|h| - 1].ts < x.ts
    ensures PushedTo(Last(h, cap), cap, x) == Last(h + [x], cap)
  {
    assert Last(h, cap)[|Last(h, cap)| - 1] == h[|h| - 1];
    assert Last(Last(h, cap) + [x], cap) == Last(h + [x], cap);
  }

  lemma HeldOneMore(ys: seq<Reading>, x: Reading, from: nat, cap: nat, idle: nat)
    requires from < |ys|
    ensures Pushed(Some(Held(ys, from, cap, idle)), cap, x) == Held(ys + [x], from, cap, idle)
  {
    assert (ys + [x])[..|ys|] == ys;
  }

  lemma HeldFirst(ys: seq<Reading>, x: Reading, cap: nat)
    ensures Pushed(None, cap, x) == Held(ys + [x], |ys|, cap, 0)
  {
  }

  /** At the capacity of the source's buffers there is always room: samples keep a collection interval apart. */
  lemma RoomyFromSpacing(xs: seq<Reading>, interval: nat)
    requires CounterRun.Spaced(Series(xs, Cpu), interval) && interval <= LEN
    ensures Roomy(xs, CounterRun.BufferCapacity(interval, LEN))
  {
    var cap := CounterRun.BufferCapacity(interval, LEN);
    forall k | 0 <= k <= |xs| ensures Reaches(xs[..k], cap) {
      if cap < k { SpacedReaches(xs, interval, k); }
    }
  }

  lemma SpacedReaches(xs: seq<Reading>, interval: nat, k: nat)
    requires CounterRun.Spaced(Series(xs, Cpu), interval) && interval <= LEN
    requires CounterRun.BufferCapacity(interval, LEN) < k <= |xs|
    ensures xs[k - CounterRun.BufferCapacity(interval, LEN)].ts <= End(xs[k - 2]) - LEN
  {
    var cap := CounterRun.BufferCapacity(interval, LEN);
    CounterRun.CapacityCoversTwoBuckets(interval, LEN);
    CounterRun.SpacedGap(Series(xs, Cpu), interval, k - cap, k - 2);
    assert (k - 2 - (k - cap)) * interval == (cap - 1) * interval - interval;
  }

  // ---------------------------------------------------------------- the row of a closed bucket

  lemma NoOpeningNoRow(e: Entry, cid: int, end: int)
    requires RisingReadings(e.kept)
    requires forall i :: 0 <= i < |e.kept| ==> end - LEN < e.kept[i].ts
    ensures RowAt(e, cid, end) == None
  {
    var s := Series(e.kept, Cpu);
    SeriesRises(e.kept, Cpu);
    assert Below(s, end - LEN + 1) == 0;
  }

  predicate HasShare(xs: seq<Reading>) {
    2 <= |xs| && RisingReadings(xs) && CpuPct(xs, xs[|xs| - 1].cpuCount, End(xs[|xs| - 2])).Some?
  }

  lemma SeriesDropped(h: seq<Reading>, f: Field, d: nat)
    requires d <= |h|
    ensures Series(h[d..], f) == Series(h, f)[d..]
  {
  }

  lemma RateFromOpening(h: seq<Reading>, f: Field, d: nat, end: int)
    requires RisingReadings(h) && d < |h| && h[d].ts <= end - LEN
    ensures RisingReadings(h[d..]) && RateOf(h[d..], f, end) == RateOf(h, f, end)
  {
    SeriesRises(h, f);
    SeriesDropped(h, f, d);
    CounterRun.CounterAfterDrop(Series(h, f), d, end, LEN);
  }

  /** Samples before one that can open the bucket make no difference to its share. */
  lemma ShareFromOpening(h: seq<Reading>, d: nat, cpuCount: nat, end: int)
    requires RisingReadings(h) && d < |h| && h[d].ts <= end - LEN
    ensures RisingReadings(h[d..]) && CpuPct(h[d..], cpuCount, end) == CpuPct(h, cpuCount, end)
  {
    RateFromOpening(h, Cpu, d, end);
    RateFromOpening(h, System, d, end);
  }

  /** The oldest sample in the buffer opens the closed bucket when the first one kept does. */
  lemma CapKeepsTheOpening(xs: seq<Reading>, from: nat, cap: nat)
    requires RisingReadings(xs) && Closes(xs) && Reaches(xs, cap) && from < |xs| - 1
    requires End(xs[from]) < End(xs[|xs| - 2])
    ensures xs[Oldest(|xs|, from, cap)].ts <= End(xs[|xs| - 2]) - LEN
  {
    if from < |xs| - 2 { BucketEndRises(xs[from].ts, xs[|xs| - 2].ts, LEN); }
  }

  lemma TailIsRecent(xs: seq<Reading>, from: nat, d: nat, b: int)
    requires RisingReadings(xs) && from <= d <= |xs| && from < |xs| && b < xs[from].ts
    ensures forall i :: 0 <= i < |xs[d..]| ==> b < xs[d..][i].ts
  {
  }

  lemma KeptIsRecent(xs: seq<Reading>, from: nat, cap: nat)
    requires RisingReadings(xs) && from < |xs| && 0 < cap
    ensures forall i :: 0 <= i < |Buffered(xs, from, cap)| ==> End(xs[from]) - LEN < Buffered(xs, from, cap)[i].ts
  {
    BufferedIsTail(xs, from, cap);
    TailIsRecent(xs, from, Oldest(|xs|, from, cap), End(xs[from]) - LEN);
  }

  lemma UnopenedHasNoRow(xs: seq<Reading>, from: nat, cap: nat, idle: nat, cid: int)
    requires RisingReadings(xs) && Closes(xs) && from < |xs| && 0 < cap && End(xs[|xs| - 2]) <= End(xs[from])
    ensures RisingReadings(Held(xs, from, cap, idle).kept)
    ensures RowAt(Held(xs, from, cap, idle), cid, End(xs[|xs| - 2])) == None
  {
    BufferedIsTail(xs, from, cap);
    KeptIsRecent(xs, from, cap);
    NoOpeningNoRow(Held(xs, from, cap, idle), cid, End(xs[|xs| - 2]));
  }

  /** What the capped buffer shows of the closed bucket. */
  lemma RowOfHeld(xs: seq<Reading>, from: nat, cap: nat, idle: nat, cid: int)
    requires RisingReadings(xs) && Closes(xs) && Reaches(xs, cap) && from < |xs|
    ensures RisingReadings(Held(xs, from, cap, idle).kept)
    ensures RowAt(Held(xs, from, cap, idle), cid, End(xs[|xs| - 2])).Some?
            <==> End(xs[from]) < End(xs[|xs| - 2]) && HasShare(xs)
  {
    BufferedIsTail(xs, from, cap);
    if from == |xs| - 1 || End(xs[|xs| - 2]) <= End(xs[from]) {
      UnopenedHasNoRow(xs, from, cap, idle, cid);
    } else {
      CapKeepsTheOpening(xs, from, cap);
      RowNeedsOnlyTheShare(Held(xs, from, cap, idle), cid, End(xs[|xs| - 2]));
      ShareFromOpening(xs, Oldest(|xs|, from, cap), xs[|xs| - 1].cpuCount, End(xs[|xs| - 2]));
    }
  }

  // ---------------------------------------------------------------- the life is what the collector keeps

  /** Whatever is kept, it shows a row of the closed bucket exactly when it opens the bucket and the share exists. */
  ghost predicate AgreesOn(xs: seq<Reading>, cid: int, cap: nat, shows: Shows, has: ShareTest)
    requires 2 <= |xs|
  {
    forall from, idle :: 0 <= from < |xs| && 0 <= idle ==>
      (shows(Held(xs, from, cap, idle), cid, End(xs[|xs| - 2])) <==> End(xs[from]) < End(xs[|xs| - 2]) && has(xs))
  }

  /** At every close of the run. */
  ghost predicate Agrees(xs: seq<Reading>, cid: int, cap: nat, shows: Shows, has: ShareTest) {
    forall k :: 0 <= k <= |xs| && Closes(xs[..k]) ==> AgreesOn(xs[..k], cid, cap, shows, has)
  }

  lemma AgreesBefore(ys: seq<Reading>, x: Reading, cid: int, cap: nat, shows: Shows, has: ShareTest)
    requires Agrees(ys + [x], cid, cap, shows, has)
    ensures Agrees(ys, cid, cap, shows, has)
    ensures Closes(ys + [x]) ==> AgreesOn(ys + [x], cid, cap, shows, has)
  {
    var xs := ys + [x];
    assert xs[..|xs|] == xs;
    forall k | 0 <= k <= |ys| && Closes(ys[..k]) ensures AgreesOn(ys[..k], cid, cap, shows, has) {
      assert xs[..k] == ys[..k];
    }
  }

  lemma HeldJoiner(x: Reading, cap: nat)
    requires 0 < cap
    ensures Buffered([x], 0, cap) == [x] && Pushed(None, cap, x) == Entry(x.sid, [x], x.cpuCount, 0)
  {
    assert [] + [x] == [x] && Last([x], cap) == [x];
  }

  lemma JoinStep(x: Reading, first: Option<int>, cap: nat, shows: Shows, has: ShareTest)
    requires 0 < cap && (first.Some? ==> !shows(Entry(x.sid, [x], x.cpuCount, 0), x.cid, first.value))
    ensures TrackedBy([x], x.cid, first, cap, shows) == EntryOf(LifeAfter([x], first, has), [x], cap)
    ensures !EmitsBy([x], x.cid, first, cap, shows)
  {
    assert [x] == [] + [x];
    HeldJoiner(x, cap);
    TrackedOneMore([], x, x.cid, first, cap, shows, Entry(x.sid, [x], x.cpuCount, 0));
  }

  /** The pushed entry stands for the fed life. */
  lemma FedEntry(life: Life, ys: seq<Reading>, x: Reading, cap: nat)
    requires ys != [] && (life.Kept? ==> life.from < |ys|)
    ensures var fed := Feeding(life, |ys|);
      Pushed(EntryOf(life, ys, cap), cap, x) == Held(ys + [x], fed.from, cap, fed.idle)
  {
    if life.Gone? {
      HeldFirst(ys, x, cap);
    } else {
      HeldOneMore(ys, x, life.from, cap, life.idle);
    }
  }

  /** A bucket without a row, or with one, does to the entry what it does to the life. */
  lemma SettledHeld(xs: seq<Reading>, life: Life, cap: nat, due: bool)
    requires xs != [] && (life.Kept? ==> life.from < |xs| - 1 && life.idle <= 1)
    ensures var fed := Feeding(life, |xs| - 1);
      SettledBy(Held(xs, fed.from, cap, fed.idle), due) == EntryOf(Settling(life, |xs| - 1, due), xs, cap)
  {
  }

  lemma ClosingEntry(ys: seq<Reading>, x: Reading, first: Option<int>, cap: nat, shows: Shows, e: Entry, due: bool)
    requires ys != [] && Closes(ys + [x]) && Pushed(TrackedBy(ys, x.cid, first, cap, shows), cap, x) == e
    requires shows(e, x.cid, End(ys[|ys| - 1])) <==> due
    ensures TrackedBy(ys + [x], x.cid, first, cap, shows) == SettledBy(e, due)
    ensures EmitsBy(ys + [x], x.cid, first, cap, shows) <==> due
  {
    TrackedOneMore(ys, x, x.cid, first, cap, shows, e);
  }

  lemma DueByOpening(ys: seq<Reading>, x: Reading, has: ShareTest, life: Life)
    requires ys != [] && Closes(ys + [x]) && (life.Kept? ==> life.from < |ys|)
    ensures var xs := ys + [x];
      RowDue(xs, life, has) <==> End(xs[Feeding(life, |ys|).from]) < End(xs[|xs| - 2]) && has(xs)
  {
  }

  lemma AgreesAt(xs: seq<Reading>, cid: int, cap: nat, shows: Shows, has: ShareTest, from: nat, idle: nat)
    requires 2 <= |xs| && from < |xs| && AgreesOn(xs, cid, cap, shows, has)
    ensures shows(Held(xs, from, cap, idle), cid, End(xs[|xs| - 2])) <==>
            End(xs[from]) < End(xs[|xs| - 2]) && has(xs)
  {
  }

  lemma ClosingStep(ys: seq<Reading>, x: Reading, first: Option<int>, cap: nat, shows: Shows, life: Life, due: bool)
    requires ys != [] && Closes(ys + [x]) && (life.Kept? ==> life.from < |ys| && life.idle <= 1)
    requires TrackedBy(ys, x.cid, first, cap, shows) == EntryOf(life, ys, cap)
    requires var fed := Feeding(life, |ys|);
      shows(Held(ys + [x], fed.from, cap, fed.idle), x.cid, End(ys[|ys| - 1])) <==> due
    ensures TrackedBy(ys + [x], x.cid, first, cap, shows) == EntryOf(Settling(life, |ys|, due), ys + [x], cap)
    ensures EmitsBy(ys + [x], x.cid, first, cap, shows) <==> due
  {
    var fed := Feeding(life, |ys|);
    FedEntry(life, ys, x, cap);
    ClosingEntry(ys, x, first, cap, shows, Held(ys + [x], fed.from, cap, fed.idle), due);
    SettledHeld(ys + [x], life, cap, due);
  }

  lemma QuietStep(ys: seq<Reading>, x: Reading, first: Option<int>, cap: nat, shows: Shows, life: Life)
    requires ys != [] && !Closes(ys + [x]) && (life.Kept? ==> life.from < |ys|)
    requires TrackedBy(ys, x.cid, first, cap, shows) == EntryOf(life, ys, cap)
    ensures TrackedBy(ys + [x], x.cid, first, cap, shows) == EntryOf(Feeding(life, |ys|), ys + [x], cap)
    ensures !EmitsBy(ys + [x], x.cid, first, cap, shows)
  {
    var fed := Feeding(life, |ys|);
    FedEntry(life, ys, x, cap);
    TrackedOneMore(ys, x, x.cid, first, cap, shows, Held(ys + [x], fed.from, cap, fed.idle));
  }

  lemma LaterStep(ys: seq<Reading>, x: Reading, first: Option<int>, cap: nat, shows: Shows, has: ShareTest)
    requires ys != []
    requires Closes(ys + [x]) ==> AgreesOn(ys + [x], x.cid, cap, shows, has)
    requires TrackedBy(ys, x.cid, first, cap, shows) == EntryOf(LifeAfter(ys, first, has), ys, cap)
    ensures TrackedBy(ys + [x], x.cid, first, cap, shows) == EntryOf(LifeAfter(ys + [x], first, has), ys + [x], cap)
    ensures EmitsBy(ys + [x], x.cid, first, cap, shows) <==> Emits(ys + [x], first, has)
  {
    LifeOneMore(ys, x, first, has);
    if Closes(ys + [x]) {
      var life := LifeAfter(ys, first, has);
      var fed := Feeding(life, |ys|);
      DueByOpening(ys, x, has, life);
      AgreesAt(ys + [x], x.cid, cap, shows, has, fed.from, fed.idle);
      ClosingStep(ys, x, first, cap, shows, life, RowDue(ys + [x], life, has));
    } else {
      QuietStep(ys, x, first, cap, shows, LifeAfter(ys, first, has));
    }
  }

  lemma {:induction false} LifeIsKept(
    xs: seq<Reading>, cid: int, first: Option<int>, cap: nat, shows: Shows, has: ShareTest)
    requires Own(xs, cid) && xs != [] && 0 < cap && Agrees(xs, cid, cap, shows, has)
    requires first.Some? ==> !shows(Entry(xs[0].sid, [xs[0]], xs[0].cpuCount, 0), cid, first.value)
    ensures TrackedBy(xs, cid, first, cap, shows) == EntryOf(LifeAfter(xs, first, has), xs, cap)
    ensures EmitsBy(xs, cid, first, cap, shows) <==> Emits(xs, first, has)
  {
    var ys, x := xs[..|xs| - 1], xs[|xs| - 1];
    assert xs == ys + [x];
    OwnOneMore(ys, x, cid);
    if ys == [] {
      assert xs == [x];
      JoinStep(x, first, cap, shows, has);
    } else {
      AgreesBefore(ys, x, cid, cap, shows, has);
      LifeIsKept(ys, cid, first, cap, shows, has);
      LaterStep(ys, x, first, cap, shows, has);
    }
  }

  lemma RowsAgreeOn(xs: seq<Reading>, cid: int, cap: nat)
    requires RisingReadings(xs) && Closes(xs) && Reaches(xs, cap)
    ensures AgreesOn(xs, cid, cap, Shown, HasShare)
  {
    forall from: nat, idle: nat | from < |xs|
      ensures Shown(Held(xs, from, cap, idle), cid, End(xs[|xs| - 2])) <==>
              End(xs[from]) < End(xs[|xs| - 2]) && HasShare(xs)
    {
      RowOfHeld(xs, from, cap, idle, cid);
    }
  }

  lemma RowsAgree(xs: seq<Reading>, cid: int, cap: nat)
    requires Own(xs, cid) && Roomy(xs, cap)
    ensures Agrees(xs, cid, cap, Shown, HasShare)
  {
    forall k | 0 <= k <= |xs| && Closes(xs[..k]) ensures AgreesOn(xs[..k], cid, cap, Shown, HasShare) {
      assert Reaches(xs[..k], cap);
      RowsAgreeOn(xs[..k], cid, cap);
    }
  }

  lemma JoinerShowsNothing(x: Reading, cid: int, first: int)
    requires first < x.ts
    ensures !Shown(Entry(x.sid, [x], x.cpuCount, 0), cid, first)
  {
    NoOpeningNoRow(Entry(x.sid, [x], x.cpuCount, 0), cid, first);
  }

  /** At any rate of collection: the collector keeps exactly the container's life, and the newest sample's batch
      emits a row exactly when one is due. */
  lemma ReportedExactly(xs: seq<Reading>, cid: int, first: Option<int>, cap: nat)
    requires Own(xs, cid) && xs != [] && Roomy(xs, cap)
    requires first.Some? ==> first.value < xs[0].ts
    ensures Tracked(xs, cid, first, cap) == EntryOf(LifeAfter(xs, first, HasShare), xs, cap)
    ensures Report(xs, cid, first, cap).Some? <==> Emits(xs, first, HasShare)
  {
    assert Reaches(xs[..0], cap);
    if first.Some? { JoinerShowsNothing(xs[0], cid, first.value); }
    RowsAgree(xs, cid, cap);
    LifeIsKept(xs, cid, first, cap, Shown, HasShare);
    TrackedIsShown(xs, cid, first, cap);
  }
}
