/** What a reported container row says, told over the readings in the container's buffer. */
module ContainerRows {
  import opened Prelude
  import opened Bucketizer
  import opened BucketMeans
  import opened ContainerBuckets

  /** One field of a reading. */
  type Meter = Reading -> u64

  function CpuMeter(r: Reading): u64 { r.cpu }
  function SystemMeter(r: Reading): u64 { r.system }
  function MemoryMeter(r: Reading): u64 { r.memory }
  function NetRxMeter(r: Reading): u64 { r.netRx }
  function NetTxMeter(r: Reading): u64 { r.netTx }
  function BlkReadMeter(r: Reading): u64 { r.blkRead }
  function BlkWriteMeter(r: Reading): u64 { r.blkWrite }

  /** The readings from `lo` to `hi` are those the bucket uses: from the last one at or before its start
      to the first one at or after its end. */
  predicate Uses(h: seq<Reading>, end: int, lo: nat, hi: nat) {
    lo < hi < |h| && h[lo].ts <= end - LEN < h[lo + 1].ts && h[hi - 1].ts < end <= h[hi].ts
  }

  /** The meter moves along a line over them. */
  ghost predicate OnLineOf(h: seq<Reading>, meter: Meter, lo: nat, hi: nat, a: real, slope: real)
    requires hi < |h|
  {
    forall i :: lo <= i <= hi ==> (meter(h[i]) as int) as real == Line(a, slope, h[i].ts as real)
  }

  ghost predicate FallsBetween(h: seq<Reading>, meter: Meter, lo: nat, hi: nat)
    requires hi < |h|
  {
    exists i, j :: lo <= i < j <= hi && meter(h[i]) > meter(h[j])
  }

  ghost predicate WithinBetween(h: seq<Reading>, meter: Meter, lo: nat, hi: nat, least: nat, most: nat)
    requires hi < |h|
  {
    forall i :: lo <= i <= hi ==> least <= meter(h[i]) as int <= most
  }

  /** Thousandths per second, from a slope per millisecond. */
  function SlopeRate(slope: real): Option<u64> { RoundToU64(slope * 1000.0 * 1000.0) }

  /** Along a rising line the rate is the slope; a fall leaves none. */
  ghost predicate RateTold(h: seq<Reading>, end: int, meter: Meter, rate: Option<u64>) {
    && (forall lo: nat, hi: nat, a: real, slope: real ::
          Uses(h, end, lo, hi) && slope >= 0.0 && OnLineOf(h, meter, lo, hi, a, slope) ==> rate == SlopeRate(slope))
    && forall lo: nat, hi: nat :: Uses(h, end, lo, hi) && FallsBetween(h, meter, lo, hi) ==> rate == None
  }

  /** A gauge lies between the least and the greatest reading used. */
  ghost predicate MeanTold(h: seq<Reading>, end: int, meter: Meter, mean: u64) {
    forall lo: nat, hi: nat, least: nat, most: nat ::
      Uses(h, end, lo, hi) && WithinBetween(h, meter, lo, hi, least, most) ==> least <= mean as int <= most
  }

  predicate IsShareOf(pct: u64, cpu: Option<u64>, system: Option<u64>, cpuCount: nat) {
    && cpu.Some? && system.Some? && system.value > 0
    && pct as int == cpu.value as int * cpuCount * 100_000 / system.value as int
  }

  /** The CPU's slope over the system's, times the CPU count, in thousandths of a percent. */
  ghost predicate CpuTold(h: seq<Reading>, end: int, cpu: Meter, system: Meter, cpuCount: nat, pct: u64) {
    forall lo: nat, hi: nat, a: real, c: real, b: real, d: real ::
      Uses(h, end, lo, hi) && c >= 0.0 && d >= 0.0 ==>
        OnLineOf(h, cpu, lo, hi, a, c) && OnLineOf(h, system, lo, hi, b, d) ==>
          IsShareOf(pct, SlopeRate(c), SlopeRate(d), cpuCount)
  }

  ghost predicate RatesTold(row: ContainerRow, h: seq<Reading>) {
    && RateTold(h, row.ts, NetRxMeter, row.netRxRate) && RateTold(h, row.ts, NetTxMeter, row.netTxRate)
    && RateTold(h, row.ts, BlkReadMeter, row.blkReadRate) && RateTold(h, row.ts, BlkWriteMeter, row.blkWriteRate)
  }

  ghost predicate RowTold(row: ContainerRow, e: Entry) {
    && row.sid == e.service && CpuTold(e.kept, row.ts, CpuMeter, SystemMeter, e.cpuCount, row.cpuPctMill)
    && MeanTold(e.kept, row.ts, MemoryMeter, row.memUsed) && RatesTold(row, e.kept)
  }

  // ---------------------------------------------------------------- one field

  /** The meter reads this field. */
  ghost predicate Reads(h: seq<Reading>, meter: Meter, s: seq<RawSample>) {
    |s| == |h| && forall i :: 0 <= i < |h| ==> s[i] == RawSample(h[i].ts, meter(h[i]))
  }

  lemma UsedIndices(h: seq<Reading>, meter: Meter, s: seq<RawSample>, end: int, lo: nat, hi: nat)
    requires Reads(h, meter, s) && Rising(s) && Uses(h, end, lo, hi)
    ensures Below(s, end - LEN + 1) == lo + 1 && Below(s, end) == hi
  {
    BelowIsUnique(s, end - LEN + 1, lo + 1);
    BelowIsUnique(s, end, hi);
  }

  lemma UsedOnLineOf(h: seq<Reading>, meter: Meter, s: seq<RawSample>, end: int, lo: nat, hi: nat, a: real, slope: real)
    requires Reads(h, meter, s) && Rising(s) && Covered(s, end, LEN)
    requires Uses(h, end, lo, hi) && OnLineOf(h, meter, lo, hi, a, slope)
    ensures UsedOnLine(s, end, LEN, a, slope)
  {
    UsedIndices(h, meter, s, end, lo, hi);
  }

  lemma RateAlongLine(
    h: seq<Reading>, meter: Meter, s: seq<RawSample>, end: int, lo: nat, hi: nat, a: real, slope: real)
    requires Reads(h, meter, s) && Rising(s) && Covered(s, end, LEN)
    requires Uses(h, end, lo, hi) && slope >= 0.0 && OnLineOf(h, meter, lo, hi, a, slope)
    ensures CounterOf(s, end, LEN) == SlopeRate(slope)
  {
    UsedOnLineOf(h, meter, s, end, lo, hi, a, slope);
    CounterExactOnLines(s, end, LEN, a, slope);
  }

  lemma RateAfterFall(h: seq<Reading>, meter: Meter, s: seq<RawSample>, end: int, lo: nat, hi: nat)
    requires Reads(h, meter, s) && Rising(s) && Covered(s, end, LEN)
    requires Uses(h, end, lo, hi) && FallsBetween(h, meter, lo, hi)
    ensures CounterOf(s, end, LEN) == None
  {
    UsedIndices(h, meter, s, end, lo, hi);
    var i, j :| lo <= i < j <= hi && meter(h[i]) > meter(h[j]);
    ResetRejects(s, end, LEN, i, j);
  }

  lemma CounterTells(h: seq<Reading>, meter: Meter, s: seq<RawSample>, end: int)
    requires Reads(h, meter, s) && Rising(s) && Covered(s, end, LEN)
    ensures RateTold(h, end, meter, CounterOf(s, end, LEN))
  {
    forall lo: nat, hi: nat, a: real, slope: real |
      Uses(h, end, lo, hi) && slope >= 0.0 && OnLineOf(h, meter, lo, hi, a, slope)
      ensures CounterOf(s, end, LEN) == SlopeRate(slope)
    {
      RateAlongLine(h, meter, s, end, lo, hi, a, slope);
    }
    forall lo: nat, hi: nat | Uses(h, end, lo, hi) && FallsBetween(h, meter, lo, hi)
      ensures CounterOf(s, end, LEN) == None
    {
      RateAfterFall(h, meter, s, end, lo, hi);
    }
  }

  lemma MeanWithin(h: seq<Reading>, meter: Meter, s: seq<RawSample>, end: int, lo: nat, hi: nat, least: nat, most: nat)
    requires Reads(h, meter, s) && Rising(s) && Covered(s, end, LEN)
    requires Uses(h, end, lo, hi) && WithinBetween(h, meter, lo, hi, least, most)
    ensures GaugeOf(s, end, LEN).Some? && least <= GaugeOf(s, end, LEN).value as int <= most
  {
    UsedIndices(h, meter, s, end, lo, hi);
    GaugeBetweenSamples(s, end, LEN, least, Min(most, U64_MAX));
  }

  lemma GaugeTells(h: seq<Reading>, meter: Meter, s: seq<RawSample>, end: int, mean: u64)
    requires Reads(h, meter, s) && Rising(s) && Covered(s, end, LEN) && GaugeOf(s, end, LEN) == Some(mean)
    ensures MeanTold(h, end, meter, mean)
  {
    forall lo: nat, hi: nat, least: nat, most: nat |
      Uses(h, end, lo, hi) && WithinBetween(h, meter, lo, hi, least, most)
      ensures least <= mean as int <= most
    {
      MeanWithin(h, meter, s, end, lo, hi, least, most);
    }
  }

  // ---------------------------------------------------------------- the row

  lemma RateTells(h: seq<Reading>, f: Field, meter: Meter, end: int)
    requires RisingReadings(h) && Reads(h, meter, Series(h, f)) && IsCovered(h, end)
    ensures RateTold(h, end, meter, RateOf(h, f, end))
  {
    CoveredAnyField(h, Cpu, f, end);
    CounterTells(h, meter, Series(h, f), end);
  }

  lemma MemoryTells(h: seq<Reading>, end: int, mean: u64)
    requires RisingReadings(h) && IsCovered(h, end) && MemoryOf(h, end) == Some(mean)
    ensures MeanTold(h, end, MemoryMeter, mean)
  {
    CoveredAnyField(h, Cpu, Memory, end);
    GaugeTells(h, MemoryMeter, Series(h, Memory), end, mean);
  }

  lemma ShareIsCovered(h: seq<Reading>, cpuCount: nat, end: int)
    requires RisingReadings(h) && CpuPct(h, cpuCount, end).Some?
    ensures IsCovered(h, end)
    ensures IsShareOf(CpuPct(h, cpuCount, end).value, RateOf(h, Cpu, end), RateOf(h, System, end), cpuCount)
  {
    SeriesRises(h, Cpu);
    CounterDefined(Series(h, Cpu), end, LEN);
  }

  lemma ShareFollowsSlopes(h: seq<Reading>, end: int, cpu: Meter, system: Meter, cpuCount: nat,
                           cpuRate: Option<u64>, systemRate: Option<u64>, pct: u64)
    requires RateTold(h, end, cpu, cpuRate) && RateTold(h, end, system, systemRate)
    requires IsShareOf(pct, cpuRate, systemRate, cpuCount)
    ensures CpuTold(h, end, cpu, system, cpuCount, pct)
  {
  }

  lemma RowHas(e: Entry, cid: int, end: int, row: ContainerRow)
    requires RisingReadings(e.kept) && RowAt(e, cid, end) == Some(row)
    ensures row.ts == end && row.sid == e.service && CpuPct(e.kept, e.cpuCount, end) == Some(row.cpuPctMill)
    ensures MemoryOf(e.kept, end) == Some(row.memUsed)
  {
  }

  lemma NetRxTells(h: seq<Reading>, end: int)
    requires RisingReadings(h) && IsCovered(h, end)
    ensures RateTold(h, end, NetRxMeter, RateOf(h, NetRx, end))
  {
    assert Reads(h, NetRxMeter, Series(h, NetRx));
    RateTells(h, NetRx, NetRxMeter, end);
  }

  lemma NetRxOfRow(e: Entry, cid: int, end: int, row: ContainerRow)
    requires RisingReadings(e.kept) && RowAt(e, cid, end) == Some(row)
    ensures row.netRxRate == RateOf(e.kept, NetRx, end)
  {
  }

  lemma NetTxTells(h: seq<Reading>, end: int)
    requires RisingReadings(h) && IsCovered(h, end)
    ensures RateTold(h, end, NetTxMeter, RateOf(h, NetTx, end))
  {
    assert Reads(h, NetTxMeter, Series(h, NetTx));
    RateTells(h, NetTx, NetTxMeter, end);
  }

  lemma NetTxOfRow(e: Entry, cid: int, end: int, row: ContainerRow)
    requires RisingReadings(e.kept) && RowAt(e, cid, end) == Some(row)
    ensures row.netTxRate == RateOf(e.kept, NetTx, end)
  {
  }

  lemma BlkReadTells(h: seq<Reading>, end: int)
    requires RisingReadings(h) && IsCovered(h, end)
    ensures RateTold(h, end, BlkReadMeter, RateOf(h, BlkRead, end))
  {
    assert Reads(h, BlkReadMeter, Series(h, BlkRead));
    RateTells(h, BlkRead, BlkReadMeter, end);
  }

  lemma BlkReadOfRow(e: Entry, cid: int, end: int, row: ContainerRow)
    requires RisingReadings(e.kept) && RowAt(e, cid, end) == Some(row)
    ensures row.blkReadRate == RateOf(e.kept, BlkRead, end)
  {
  }

  lemma BlkWriteTells(h: seq<Reading>, end: int)
    requires RisingReadings(h) && IsCovered(h, end)
    ensures RateTold(h, end, BlkWriteMeter, RateOf(h, BlkWrite, end))
  {
    assert Reads(h, BlkWriteMeter, Series(h, BlkWrite));
    RateTells(h, BlkWrite, BlkWriteMeter, end);
  }

  lemma BlkWriteOfRow(e: Entry, cid: int, end: int, row: ContainerRow)
    requires RisingReadings(e.kept) && RowAt(e, cid, end) == Some(row)
    ensures row.blkWriteRate == RateOf(e.kept, BlkWrite, end)
  {
  }

  lemma CpuTellsOf(h: seq<Reading>, end: int, cpuCount: nat, pct: u64)
    requires RisingReadings(h) && CpuPct(h, cpuCount, end) == Some(pct)
    ensures IsCovered(h, end) && CpuTold(h, end, CpuMeter, SystemMeter, cpuCount, pct)
  {
    ShareIsCovered(h, cpuCount, end);
    RateTells(h, Cpu, CpuMeter, end);
    RateTells(h, System, SystemMeter, end);
    ShareFollowsSlopes(h, end, CpuMeter, SystemMeter, cpuCount, RateOf(h, Cpu, end), RateOf(h, System, end), pct);
  }

  /** The row of an entry says what the readings in its buffer say. */
  lemma RowTells(e: Entry, cid: int, end: int, row: ContainerRow)
    requires RisingReadings(e.kept) && RowAt(e, cid, end) == Some(row)
    ensures RowTold(row, e)
  {
    RowHas(e, cid, end, row);
    CpuTellsOf(e.kept, end, e.cpuCount, row.cpuPctMill);
    MemoryTells(e.kept, end, row.memUsed);
    NetRxTells(e.kept, end);
    NetRxOfRow(e, cid, end, row);
    NetTxTells(e.kept, end);
    NetTxOfRow(e, cid, end, row);
    BlkReadTells(e.kept, end);
    BlkReadOfRow(e, cid, end, row);
    BlkWriteTells(e.kept, end);
    BlkWriteOfRow(e, cid, end, row);
  }

  // ---------------------------------------------------------------- what a batch leaves behind

  /** Reading `i` is the container's newest in the batch. */
  predicate IsNewest(batch: seq<Reading>, i: int, cid: int) {
    0 <= i < |batch| && batch[i].cid == cid && forall j :: i < j < |batch| ==> batch[j].cid != cid
  }

  /** The service and the CPU count are those of the newest reading; without one nothing is taken over. */
  ghost predicate FollowsBatch(was: Option<Entry>, batch: seq<Reading>, cid: int, e: Entry) {
    && (forall i :: IsNewest(batch, i, cid) ==> e.service == batch[i].sid && e.cpuCount == batch[i].cpuCount)
    && ((forall r :: r in batch ==> r.cid != cid) ==>
          was.Some? && e.service == was.value.service && e.cpuCount == was.value.cpuCount && e.kept == was.value.kept)
  }

  lemma NewestOneMore(init: seq<Reading>, r: Reading, i: int, cid: int)
    ensures IsNewest(init + [r], i, cid) <==> if r.cid == cid then i == |init| else IsNewest(init, i, cid)
  {
    var batch := init + [r];
    assert forall j :: 0 <= j < |init| ==> batch[j] == init[j];
    assert batch[|init|] == r;
  }

  lemma {:induction false} FedFollows(t: Option<Entry>, batch: seq<Reading>, cid: int, cap: nat)
    ensures var fed := Fed(t, batch, cid, cap); fed.Some? ==> FollowsBatch(t, batch, cid, fed.value)
  {
    if batch != [] {
      var init, r := batch[..|batch| - 1], batch[|batch| - 1];
      assert batch == init + [r];
      FedFollows(t, init, cid, cap);
      forall i ensures IsNewest(batch, i, cid) <==> if r.cid == cid then i == |init| else IsNewest(init, i, cid) {
        NewestOneMore(init, r, i, cid);
      }
      assert r in batch && forall x :: x in init ==> x in batch;
      assert forall x :: x in batch ==> x in init || x == r;
    }
  }

  lemma AfterFollows(t: Option<Entry>, batch: seq<Reading>, cid: int, cap: nat, completed: Option<int>)
    requires Sound(t)
    ensures var after := After(t, batch, cid, cap, completed); after.Some? ==> FollowsBatch(t, batch, cid, after.value)
  {
    FedFollows(t, batch, cid, cap);
  }

  /** A reported container is still tracked, and its row says what the readings in its buffer say. */
  lemma ReportedTells(t: Option<Entry>, batch: seq<Reading>, cid: int, cap: nat, completed: Option<int>,
                      row: ContainerRow)
    requires Sound(t) && Reported(t, batch, cid, cap, completed) == Some(row)
    ensures completed == Some(row.ts) && row.cid == cid
    ensures After(t, batch, cid, cap, completed).Some? && RowTold(row, After(t, batch, cid, cap, completed).value)
  {
    var e := Fed(t, batch, cid, cap).value;
    RowTells(e, cid, completed.value, row);
    assert After(t, batch, cid, cap, completed) == Some(e.(idle := 0));
  }
}
