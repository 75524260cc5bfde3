/** Container collection: what one container's samples produce, and when it is forgotten. */
module ContainerBuckets {
  import opened Prelude
  import opened Buckets
  import opened Bucketizer
  import opened BucketMeans
  import Collectors

  const LEN: nat := 10_000

  /** Buckets without a row before a container's samples are dropped. */
  const MAX_IDLE_FLUSHES: nat := 2

  datatype Field = Cpu | System | Memory | NetRx | NetTx | BlkRead | BlkWrite

  datatype Reading = Reading(
    ts: int, sid: nat, cid: int, cpuCount: nat,
    cpu: u64, system: u64, memory: u64, netRx: u64, netTx: u64, blkRead: u64, blkWrite: u64)

  function Of(r: Reading, f: Field): u64 {
    match f
    case Cpu => r.cpu
    case System => r.system
    case Memory => r.memory
    case NetRx => r.netRx
    case NetTx => r.netTx
    case BlkRead => r.blkRead
    case BlkWrite => r.blkWrite
  }

  datatype ContainerRow = ContainerRow(
    ts: int, sid: nat, cid: int, cpuPctMill: u64, memUsed: u64,
    netRxRate: Option<u64>, netTxRate: Option<u64>, blkReadRate: Option<u64>, blkWriteRate: Option<u64>)

  /** A tracked container: the seven buffers always hold the same instants, so they are one list of readings. */
  datatype Entry = Entry(service: nat, kept: seq<Reading>, cpuCount: nat, idle: nat)

  predicate RisingReadings(h: seq<Reading>) { forall i, j :: 0 <= i < j < |h| ==> h[i].ts < h[j].ts }

  /** The buffer of one field. */
  function Series(h: seq<Reading>, f: Field): (s: seq<RawSample>)
    ensures |s| == |h| && forall i :: 0 <= i < |h| ==> s[i] == RawSample(h[i].ts, Of(h[i], f))
  {
    seq(|h|, i requires 0 <= i < |h| => RawSample(h[i].ts, Of(h[i], f)))
  }

  lemma SeriesRises(h: seq<Reading>, f: Field)
    requires RisingReadings(h)
    ensures Rising(Series(h, f))
  {
  }

  /** The rate of one counter field. */
  function RateOf(h: seq<Reading>, f: Field, end: int): Option<u64>
    requires RisingReadings(h)
  {
    SeriesRises(h, f);
    CounterOf(Series(h, f), end, LEN)
  }

  function MemoryOf(h: seq<Reading>, end: int): Option<u64>
    requires RisingReadings(h)
  {
    SeriesRises(h, Memory);
    GaugeOf(Series(h, Memory), end, LEN)
  }

  function Share(cpu: nat, cpuCount: nat, system: nat): (pct: nat)
    requires 0 < system
  {
    cpu * cpuCount * 100_000 / system
  }

  /** CPU share from the ratio of two counter rates over the whole bucket. */
  function CpuPct(h: seq<Reading>, cpuCount: nat, end: int): Option<u64>
    requires RisingReadings(h)
  {
    var cpu, system := RateOf(h, Cpu, end), RateOf(h, System, end);
    if cpu.None? || system.None? || system.value == 0 then None
    else
      var pct := Share(cpu.value as int, cpuCount, system.value as int);
      if pct > U64_MAX then None else Some(pct as u64)
  }

  /** The row of a bucket, which needs a CPU share and a memory mean; the other rates may be absent. */
  function RowAt(e: Entry, cid: int, end: int): (r: Option<ContainerRow>)
    requires RisingReadings(e.kept)
    ensures r.Some? ==> r.value.ts == end && r.value.cid == cid
  {
    var pct, memory := CpuPct(e.kept, e.cpuCount, end), MemoryOf(e.kept, end);
    if pct.None? || memory.None? then None
    else
      Some(ContainerRow(end, e.service, cid, pct.value, memory.value,
                        RateOf(e.kept, NetRx, end), RateOf(e.kept, NetTx, end),
                        RateOf(e.kept, BlkRead, end), RateOf(e.kept, BlkWrite, end)))
  }

  lemma BelowAnyField(h: seq<Reading>, f: Field, g: Field, b: int)
    requires RisingReadings(h)
    ensures Rising(Series(h, f)) && Rising(Series(h, g))
    ensures Below(Series(h, f), b) == Below(Series(h, g), b)
  {
    SeriesRises(h, f);
    SeriesRises(h, g);
    BelowIsUnique(Series(h, f), b, Below(Series(h, g), b));
  }

  /** All fields of a container are covered alike. */
  lemma CoveredAnyField(h: seq<Reading>, f: Field, g: Field, end: int)
    requires RisingReadings(h)
    ensures Rising(Series(h, f)) && Rising(Series(h, g))
    ensures Covered(Series(h, f), end, LEN) <==> Covered(Series(h, g), end, LEN)
  {
    BelowAnyField(h, f, g, end - LEN + 1);
    BelowAnyField(h, f, g, end);
    BelowAnyField(h, f, g, end + 1);
  }

  /** The bucket is covered, whichever field is asked. */
  ghost predicate IsCovered(h: seq<Reading>, end: int)
    requires RisingReadings(h)
  {
    SeriesRises(h, Cpu);
    Covered(Series(h, Cpu), end, LEN)
  }

  /** Only the CPU share can be missing: whenever it is there, the memory mean is. */
  lemma RowNeedsOnlyTheShare(e: Entry, cid: int, end: int)
    requires RisingReadings(e.kept)
    ensures RowAt(e, cid, end).Some? <==> CpuPct(e.kept, e.cpuCount, end).Some?
  {
    CoveredAnyField(e.kept, Cpu, Memory, end);
    CounterDefined(Series(e.kept, Cpu), end, LEN);
    GaugeDefined(Series(e.kept, Memory), end, LEN);
  }

  function Accepted(kept: seq<Reading>, r: Reading): seq<Reading> {
    if kept != [] && r.ts <= kept[|kept| - 1].ts then kept else kept + [r]
  }

  function PushedTo(kept: seq<Reading>, cap: nat, r: Reading): (h: seq<Reading>)
    ensures RisingReadings(kept) ==> RisingReadings(h)
  {
    if cap == 0 then kept else Last(Accepted(kept, r), cap)
  }

  /** Field by field this is the push into a capped buffer. */
  lemma SeriesPushed(kept: seq<Reading>, cap: nat, r: Reading, f: Field)
    ensures Series(PushedTo(kept, cap, r), f) == Collectors.Pushed(Series(kept, f), cap, RawSample(r.ts, Of(r, f)))
  {
    SeriesAccepted(kept, r, f);
    SeriesLast(Accepted(kept, r), cap, f);
  }

  lemma SeriesAccepted(kept: seq<Reading>, r: Reading, f: Field)
    ensures Series(Accepted(kept, r), f) == Collectors.Accepted(Series(kept, f), RawSample(r.ts, Of(r, f)))
  {
  }

  lemma SeriesLast(h: seq<Reading>, n: nat, f: Field)
    ensures Series(Last(h, n), f) == Last(Series(h, f), n)
  {
  }

  function Fresh(sid: nat): Entry { Entry(sid, [], 1, 0) }

  /** The service and the CPU count follow the newest push even when the buffers refuse the sample. */
  function Pushed(t: Option<Entry>, cap: nat, r: Reading): Entry {
    var e := if t.Some? then t.value else Fresh(r.sid);
    Entry(r.sid, PushedTo(e.kept, cap, r), r.cpuCount, e.idle)
  }

  predicate Sound(t: Option<Entry>) { t.Some? ==> RisingReadings(t.value.kept) }

  /** A container after its part of a batch; other containers' samples do not concern it. */
  function Fed(t: Option<Entry>, batch: seq<Reading>, cid: int, cap: nat): (r: Option<Entry>)
    ensures Sound(t) ==> Sound(r)
  {
    if batch == [] then t
    else
      var before, r := Fed(t, batch[..|batch| - 1], cid, cap), batch[|batch| - 1];
      if r.cid == cid then Some(Pushed(before, cap, r)) else before
  }

  /** A bucket without a row counts as idle, and the second in a row drops the container. */
  function SettledBy(e: Entry, found: bool): Option<Entry> {
    if found then Some(e.(idle := 0))
    else if e.idle + 1 < MAX_IDLE_FLUSHES then Some(e.(idle := e.idle + 1))
    else None
  }

  function Settled(e: Entry, cid: int, end: int): Option<Entry>
    requires RisingReadings(e.kept)
  {
    SettledBy(e, RowAt(e, cid, end).Some?)
  }

  /** A fed container once its batch has completed a bucket, or none. */
  function Flushed(fed: Option<Entry>, cid: int, completed: Option<int>): (r: Option<Entry>)
    requires Sound(fed)
    ensures Sound(r)
  {
    if fed.None? || completed.None? then fed else Settled(fed.value, cid, completed.value)
  }

  function RowOf(fed: Option<Entry>, cid: int, completed: Option<int>): Option<ContainerRow>
    requires Sound(fed)
  {
    if fed.None? || completed.None? then None else RowAt(fed.value, cid, completed.value)
  }

  function After(t: Option<Entry>, batch: seq<Reading>, cid: int, cap: nat, completed: Option<int>): (r: Option<Entry>)
    requires Sound(t)
    ensures Sound(r)
  {
    Flushed(Fed(t, batch, cid, cap), cid, completed)
  }

  function Reported(t: Option<Entry>, batch: seq<Reading>, cid: int, cap: nat,
                    completed: Option<int>): Option<ContainerRow>
    requires Sound(t)
  {
    RowOf(Fed(t, batch, cid, cap), cid, completed)
  }

  function MaxTs(batch: seq<Reading>): (m: int)
    requires batch != []
    ensures (exists r :: r in batch && r.ts == m) && forall r :: r in batch ==> r.ts <= m
  {
    if |batch| == 1 then batch[0].ts
    else
      assert batch == batch[..|batch| - 1] + [batch[|batch| - 1]];
      Max(MaxTs(batch[..|batch| - 1]), batch[|batch| - 1].ts)
  }

  /** The bucket a batch completes: the last one seen, once the newest sample is past it. */
  function Completed(last: Option<int>, batch: seq<Reading>): Option<int>
    requires batch != []
  {
    if last.Some? && BucketEnd(MaxTs(batch), LEN) > last.value then last else None
  }

  // ---------------------------------------------------------------- a container that stops

  lemma NoInsideNoRow(e: Entry, cid: int, end: int)
    requires RisingReadings(e.kept)
    requires forall i :: 0 <= i < |e.kept| ==> e.kept[i].ts <= end - LEN
    ensures RowAt(e, cid, end) == None
  {
    var s := Series(e.kept, Memory);
    SeriesRises(e.kept, Memory);
    BelowIsUnique(s, end - LEN + 1, |s|);
    BelowIsUnique(s, end + 1, |s|);
    GaugeDefined(s, end, LEN);
  }

  /** Two completed buckets after its last sample's bucket, a silent container is forgotten, with no row for either. */
  lemma SilentContainerIsDropped(e: Entry, cid: int, first: int, second: int, batch: seq<Reading>,
                                 later: seq<Reading>, cap: nat)
    requires RisingReadings(e.kept) && forall i :: 0 <= i < |e.kept| ==> e.kept[i].ts <= first - LEN
    requires first < second && (forall r :: r in batch + later ==> r.cid != cid)
    ensures Reported(Some(e), batch, cid, cap, Some(first)) == None
    ensures var t := After(Some(e), batch, cid, cap, Some(first));
      Reported(t, later, cid, cap, Some(second)) == None && After(t, later, cid, cap, Some(second)) == None
  {
    OthersDoNotDisturb(Some(e), batch, cid, cap);
    NoInsideNoRow(e, cid, first);
    var t := After(Some(e), batch, cid, cap, Some(first));
    OthersDoNotDisturb(t, later, cid, cap);
    if t.Some? { NoInsideNoRow(t.value, cid, second); }
  }

  /** A batch without a container's samples leaves it as it was. */
  lemma {:induction false} OthersDoNotDisturb(t: Option<Entry>, batch: seq<Reading>, cid: int, cap: nat)
    requires forall r :: r in batch ==> r.cid != cid
    ensures Fed(t, batch, cid, cap) == t
  {
    if batch != [] { OthersDoNotDisturb(t, batch[..|batch| - 1], cid, cap); }
  }
}
