/** What a downsampled host row says, told over the samples and the bucket's own window. */
module HostAnswers {
  import opened Prelude
  import opened Buckets
  import opened HostMetrics

  /** Reading one field, and whether it is there. */
  type Meter = HostSample -> nat
  type Presence = HostSample -> bool

  predicate InWindow(x: HostSample, end: int, len: nat) { end - len < x.ts <= end }

  // ---------------------------------------------------------------- when there is a row

  ghost predicate HasSample(s: seq<HostSample>, end: int, len: nat) { exists x :: x in s && InWindow(x, end, len) }

  /** The start, the end or the instant of a sample in between. */
  ghost predicate IsInstant(s: seq<HostSample>, end: int, len: nat, t: int) {
    t == end - len || t == end || exists x :: x in s && InWindow(x, end, len) && x.ts == t
  }

  /** Neighbouring instants: no sample lies between them. */
  ghost predicate Neighbours(s: seq<HostSample>, end: int, len: nat, a: int, b: int) {
    a < b && IsInstant(s, end, len, a) && IsInstant(s, end, len, b) && forall x :: x in s ==> !(a < x.ts < b)
  }

  /** Some neighbouring instants are further apart than the percentage of the bucket allows. */
  ghost predicate TooSilent(s: seq<HostSample>, end: int, len: nat, pct: nat) {
    exists a, b :: Neighbours(s, end, len, a, b) && 100 * (b - a) > len * pct
  }

  ghost predicate RowDue(s: seq<HostSample>, end: int, len: nat, pct: nat) {
    IsEnd(end, len) && HasSample(s, end, len) && !TooSilent(s, end, len, pct)
  }

  // ---------------------------------------------------------------- what the row says

  ghost function CountIn(s: seq<HostSample>, end: int, len: nat, has: Presence): nat {
    if s == [] then 0
    else
      var last := s[|s| - 1];
      CountIn(s[..|s| - 1], end, len, has) + if InWindow(last, end, len) && has(last) then 1 else 0
  }

  ghost function TotalIn(s: seq<HostSample>, end: int, len: nat, has: Presence, meter: Meter): nat {
    if s == [] then 0
    else
      var last := s[|s| - 1];
      TotalIn(s[..|s| - 1], end, len, has, meter) + if InWindow(last, end, len) && has(last) then meter(last) else 0
  }

  /** The mean, rounded down. */
  predicate IsMean(v: nat, total: nat, n: nat) { n * v <= total < n * v + n }

  function Always(x: HostSample): bool { true }

  ghost predicate MeanTold(s: seq<HostSample>, end: int, len: nat, meter: Meter, v: nat) {
    IsMean(v, TotalIn(s, end, len, Always, meter), CountIn(s, end, len, Always))
  }

  /** The mean of the samples that have the field, or nothing if none has. */
  ghost predicate PresentTold(s: seq<HostSample>, end: int, len: nat, has: Presence, meter: Meter, v: Option<nat>) {
    var n := CountIn(s, end, len, has);
    if n == 0 then v == None else v.Some? && IsMean(v.value, TotalIn(s, end, len, has, meter), n)
  }

  function CpuMeter(x: HostSample): nat { x.cpuPctMill }
  function MemMeter(x: HostSample): nat { x.memUsed }
  function StorageMeter(x: HostSample): nat { x.storageUsed }
  function MetricsMeter(x: HostSample): nat { x.metricsSize }
  function LogsMeter(x: HostSample): nat { x.logsSize }

  function OrZero(v: Option<nat>): nat { if v.Some? then v.value else 0 }

  function HasNetRx(x: HostSample): bool { x.netRxRateMill.Some? }
  function NetRxMeter(x: HostSample): nat { OrZero(x.netRxRateMill) }
  function HasNetTx(x: HostSample): bool { x.netTxRateMill.Some? }
  function NetTxMeter(x: HostSample): nat { OrZero(x.netTxRateMill) }
  function HasDiskRead(x: HostSample): bool { x.diskReadRateMill.Some? }
  function DiskReadMeter(x: HostSample): nat { OrZero(x.diskReadRateMill) }
  function HasDiskWrite(x: HostSample): bool { x.diskWriteRateMill.Some? }
  function DiskWriteMeter(x: HostSample): nat { OrZero(x.diskWriteRateMill) }
  function HasPressure(x: HostSample): bool { x.logPressurePctMill.Some? }
  function PressureMeter(x: HostSample): nat { OrZero(x.logPressurePctMill) }
  function HasRss(x: HostSample): bool { x.appRssBytes.Some? }
  function RssMeter(x: HostSample): nat { OrZero(x.appRssBytes) }

  ghost predicate GaugesTold(s: seq<HostSample>, len: nat, p: HostSample) {
    && MeanTold(s, p.ts, len, CpuMeter, p.cpuPctMill) && MeanTold(s, p.ts, len, MemMeter, p.memUsed)
    && MeanTold(s, p.ts, len, StorageMeter, p.storageUsed) && MeanTold(s, p.ts, len, MetricsMeter, p.metricsSize)
    && MeanTold(s, p.ts, len, LogsMeter, p.logsSize)
  }

  ghost predicate OptionalTold(s: seq<HostSample>, len: nat, p: HostSample) {
    && PresentTold(s, p.ts, len, HasNetRx, NetRxMeter, p.netRxRateMill)
    && PresentTold(s, p.ts, len, HasNetTx, NetTxMeter, p.netTxRateMill)
    && PresentTold(s, p.ts, len, HasDiskRead, DiskReadMeter, p.diskReadRateMill)
    && PresentTold(s, p.ts, len, HasDiskWrite, DiskWriteMeter, p.diskWriteRateMill)
    && PresentTold(s, p.ts, len, HasPressure, PressureMeter, p.logPressurePctMill)
    && PresentTold(s, p.ts, len, HasRss, RssMeter, p.appRssBytes)
  }

  /** Every field is the floor mean of the window's samples that have it. */
  ghost predicate RowTold(s: seq<HostSample>, len: nat, p: HostSample) {
    GaugesTold(s, len, p) && OptionalTold(s, len, p)
  }

  // ---------------------------------------------------------------- the group of a window

  lemma InWindowIsInBucket(x: HostSample, end: int, len: nat)
    requires IsEnd(end, len)
    ensures InWindow(x, end, len) <==> BucketEnd(x.ts, len) == end
  {
    if InWindow(x, end, len) { EndCovers(x.ts, len, end); }
  }

  lemma {:induction false} GroupMembers(s: seq<HostSample>, end: int, len: nat)
    requires IsEnd(end, len)
    ensures forall x :: x in InBucket(s, end, len) <==> x in s && InWindow(x, end, len)
  {
    if s != [] {
      var init, last := s[..|s| - 1], s[|s| - 1];
      assert s == init + [last];
      GroupMembers(init, end, len);
      InWindowIsInBucket(last, end, len);
    }
  }

  lemma {:induction false} GroupOrdered(s: seq<HostSample>, end: int, len: nat)
    requires IsEnd(end, len) && Ordered(s)
    ensures Ordered(InBucket(s, end, len))
  {
    if s != [] {
      var init, last := s[..|s| - 1], s[|s| - 1];
      GroupOrdered(init, end, len);
      GroupMembers(init, end, len);
      assert forall x :: x in init ==> x.ts < last.ts;
    }
  }

  lemma GroupOneMore(init: seq<HostSample>, x: HostSample, end: int, len: nat)
    requires IsEnd(end, len)
    ensures InBucket(init + [x], end, len) ==
            if InWindow(x, end, len) then InBucket(init, end, len) + [x] else InBucket(init, end, len)
  {
    assert (init + [x])[..|init|] == init;
    InWindowIsInBucket(x, end, len);
  }

  lemma InOneMore(init: seq<HostSample>, x: HostSample, end: int, len: nat, has: Presence, meter: Meter)
    ensures CountIn(init + [x], end, len, has) ==
            CountIn(init, end, len, has) + if InWindow(x, end, len) && has(x) then 1 else 0
    ensures TotalIn(init + [x], end, len, has, meter) ==
            TotalIn(init, end, len, has, meter) + if InWindow(x, end, len) && has(x) then meter(x) else 0
  {
    assert (init + [x])[..|init|] == init;
  }

  lemma {:induction false} GroupTotals(s: seq<HostSample>, end: int, len: nat, g: Gauge, meter: Meter)
    requires IsEnd(end, len) && forall x :: meter(x) == Get(x, g)
    ensures Sum(InBucket(s, end, len), g) == TotalIn(s, end, len, Always, meter)
    ensures |InBucket(s, end, len)| == CountIn(s, end, len, Always)
  {
    if s != [] {
      var init, last := s[..|s| - 1], s[|s| - 1];
      assert s == init + [last];
      GroupTotals(init, end, len, g, meter);
      GroupOneMore(init, last, end, len);
      InOneMore(init, last, end, len, Always, meter);
      SumOneMore(InBucket(init, end, len), last, g);
    }
  }

  lemma SumOneMore(group: seq<HostSample>, x: HostSample, g: Gauge)
    ensures Sum(group + [x], g) == Sum(group, g) + Get(x, g)
  {
    assert (group + [x])[..|group|] == group;
  }

  lemma PresentOneMore(group: seq<HostSample>, x: HostSample, f: OptionalField)
    ensures PresentSum(group + [x], f) == PresentSum(group, f) + OrZero(GetOptional(x, f))
    ensures PresentCount(group + [x], f) == PresentCount(group, f) + if GetOptional(x, f).Some? then 1 else 0
  {
    assert (group + [x])[..|group|] == group;
  }

  lemma {:induction false} GroupPresent(s: seq<HostSample>, end: int, len: nat, f: OptionalField, has: Presence,
                                        meter: Meter)
    requires IsEnd(end, len) && forall x :: has(x) == GetOptional(x, f).Some? && meter(x) == OrZero(GetOptional(x, f))
    ensures PresentSum(InBucket(s, end, len), f) == TotalIn(s, end, len, has, meter)
    ensures PresentCount(InBucket(s, end, len), f) == CountIn(s, end, len, has)
  {
    if s != [] {
      var init, last := s[..|s| - 1], s[|s| - 1];
      assert s == init + [last];
      GroupPresent(init, end, len, f, has, meter);
      GroupOneMore(init, last, end, len);
      InOneMore(init, last, end, len, has, meter);
      PresentOneMore(InBucket(init, end, len), last, f);
    }
  }

  lemma FloorIsMean(total: nat, n: nat)
    requires 0 < n
    ensures IsMean(total / n, total, n)
  {
  }

  lemma GaugeTells(s: seq<HostSample>, end: int, len: nat, g: Gauge, meter: Meter)
    requires IsEnd(end, len) && (forall x :: meter(x) == Get(x, g)) && InBucket(s, end, len) != []
    ensures MeanTold(s, end, len, meter, Mean(InBucket(s, end, len), g))
  {
    GroupTotals(s, end, len, g, meter);
    FloorIsMean(Sum(InBucket(s, end, len), g), |InBucket(s, end, len)|);
  }

  lemma PresentTells(s: seq<HostSample>, end: int, len: nat, f: OptionalField, has: Presence, meter: Meter)
    requires IsEnd(end, len) && forall x :: has(x) == GetOptional(x, f).Some? && meter(x) == OrZero(GetOptional(x, f))
    ensures PresentTold(s, end, len, has, meter, OptionalMean(InBucket(s, end, len), f))
  {
    var group := InBucket(s, end, len);
    GroupPresent(s, end, len, f, has, meter);
    if PresentCount(group, f) > 0 { FloorIsMean(PresentSum(group, f), PresentCount(group, f)); }
  }

  lemma SummaryTells(s: seq<HostSample>, end: int, len: nat)
    requires IsEnd(end, len) && InBucket(s, end, len) != []
    ensures RowTold(s, len, Summary(end, InBucket(s, end, len)))
  {
    GaugeTells(s, end, len, Cpu, CpuMeter);
    GaugeTells(s, end, len, Mem, MemMeter);
    GaugeTells(s, end, len, Storage, StorageMeter);
    GaugeTells(s, end, len, MetricsBytes, MetricsMeter);
    GaugeTells(s, end, len, LogsBytes, LogsMeter);
    PresentTells(s, end, len, NetRx, HasNetRx, NetRxMeter);
    PresentTells(s, end, len, NetTx, HasNetTx, NetTxMeter);
    PresentTells(s, end, len, DiskRead, HasDiskRead, DiskReadMeter);
    PresentTells(s, end, len, DiskWrite, HasDiskWrite, DiskWriteMeter);
    PresentTells(s, end, len, LogPressure, HasPressure, PressureMeter);
    PresentTells(s, end, len, AppRss, HasRss, RssMeter);
  }

  // ---------------------------------------------------------------- the silence of a window

  /** The instants of a group, none before the other. */
  lemma InstantsRise(start: int, group: seq<HostSample>, end: int, i: nat, j: nat)
    requires Ordered(group) && (forall x :: x in group ==> start < x.ts <= end) && start < end
    requires i < j < |group| + 2
    ensures var t := Instants(start, group, end); t[i] <= t[j] && (j <= |group| ==> t[i] < t[j])
  {
    assert 0 < i <= |group| ==> group[i - 1] in group;
    assert 0 < j <= |group| ==> group[j - 1] in group;
  }

  lemma InstantAt(s: seq<HostSample>, group: seq<HostSample>, end: int, len: nat, i: nat)
    requires (forall x :: x in group <==> x in s && InWindow(x, end, len)) && i < |group| + 2
    ensures IsInstant(s, end, len, Instants(end - len, group, end)[i])
  {
    if 0 < i <= |group| { assert group[i - 1] in group; }
  }

  lemma NeighboursAt(s: seq<HostSample>, group: seq<HostSample>, end: int, len: nat, i: nat)
    requires (forall x :: x in group <==> x in s && InWindow(x, end, len)) && Ordered(group) && 0 < len
    requires i < |group| + 1
    ensures var t := Instants(end - len, group, end); t[i] < t[i + 1] ==> Neighbours(s, end, len, t[i], t[i + 1])
  {
    var t := Instants(end - len, group, end);
    InstantAt(s, group, end, len, i);
    InstantAt(s, group, end, len, i + 1);
    forall x | x in s ensures !(t[i] < x.ts < t[i + 1]) {
      if t[i] < x.ts < t[i + 1] {
        InWindowBetween(s, group, end, len, i, x);
      }
    }
  }

  lemma InWindowBetween(s: seq<HostSample>, group: seq<HostSample>, end: int, len: nat, i: nat, x: HostSample)
    requires (forall y :: y in group <==> y in s && InWindow(y, end, len)) && Ordered(group) && 0 < len
    requires i < |group| + 1 && x in s
    requires var t := Instants(end - len, group, end); t[i] < x.ts < t[i + 1]
    ensures x in group
  {
    if 0 < i { InstantsRise(end - len, group, end, 0, i); }
    if i < |group| { InstantsRise(end - len, group, end, i + 1, |group| + 1); }
  }

  /** The place of an instant among the instants of the group. */
  lemma PlaceOf(s: seq<HostSample>, group: seq<HostSample>, end: int, len: nat, a: int) returns (i: nat)
    requires (forall x :: x in group <==> x in s && InWindow(x, end, len)) && IsInstant(s, end, len, a) && a < end
    ensures i < |group| + 1 && Instants(end - len, group, end)[i] == a
  {
    if a == end - len {
      i := 0;
    } else {
      var x :| x in s && InWindow(x, end, len) && x.ts == a;
      assert x in group;
      var k :| 0 <= k < |group| && group[k] == x;
      i := k + 1;
    }
  }

  lemma NextIsNeighbour(s: seq<HostSample>, group: seq<HostSample>, end: int, len: nat, i: nat, a: int, b: int)
    requires (forall x :: x in group <==> x in s && InWindow(x, end, len)) && Ordered(group) && 0 < len
    requires i < |group| + 1 && Instants(end - len, group, end)[i] == a && Neighbours(s, end, len, a, b) && b <= end
    ensures Instants(end - len, group, end)[i + 1] >= b
  {
    var t := Instants(end - len, group, end);
    if i < |group| {
      assert group[i] in group && t[i + 1] == group[i].ts;
      InstantsRise(end - len, group, end, i, i + 1);
    }
  }

  lemma InstantInWindow(s: seq<HostSample>, end: int, len: nat, t: int)
    requires IsInstant(s, end, len, t)
    ensures end - len <= t <= end
  {
  }

  lemma SilenceTold(s: seq<HostSample>, group: seq<HostSample>, end: int, len: nat, t: nat)
    requires (forall x :: x in group <==> x in s && InWindow(x, end, len)) && Ordered(group) && 0 < len
    ensures Silence(end - len, group, end) > t <==> exists a, b :: Neighbours(s, end, len, a, b) && b - a > t
  {
    var all := Instants(end - len, group, end);
    SilenceIsAGap(end - len, group, end, t);
    if Silence(end - len, group, end) > t {
      var i :| 0 <= i < |group| + 1 && all[i + 1] - all[i] > t;
      NeighboursAt(s, group, end, len, i);
    }
    if a, b :| Neighbours(s, end, len, a, b) && b - a > t {
      InstantInWindow(s, end, len, b);
      var i := PlaceOf(s, group, end, len, a);
      NextIsNeighbour(s, group, end, len, i, a, b);
      assert all[i + 1] - all[i] > t;
    }
  }

  lemma ThresholdTold(gap: int, len: nat, pct: nat)
    ensures gap > Threshold(len, pct) <==> 100 * gap > len * pct
  {
  }

  lemma TooSilentTold(s: seq<HostSample>, group: seq<HostSample>, end: int, len: nat, pct: nat)
    requires (forall x :: x in group <==> x in s && InWindow(x, end, len)) && Ordered(group) && 0 < len
    ensures Silence(end - len, group, end) > Threshold(len, pct) <==> TooSilent(s, end, len, pct)
  {
    SilenceTold(s, group, end, len, Threshold(len, pct));
    if a, b :| Neighbours(s, end, len, a, b) && b - a > Threshold(len, pct) { ThresholdTold(b - a, len, pct); }
    if a, b :| Neighbours(s, end, len, a, b) && 100 * (b - a) > len * pct { ThresholdTold(b - a, len, pct); }
  }

  /** A bucket has its row exactly when it has a sample and is nowhere silent for too long. */
  lemma RowDueTold(s: seq<HostSample>, end: int, len: nat, pct: nat)
    requires Ordered(s) && IsEnd(end, len)
    ensures RowOf(InBucket(s, end, len), end, len, pct).Some? <==> RowDue(s, end, len, pct)
    ensures RowDue(s, end, len, pct) ==> RowTold(s, len, RowOf(InBucket(s, end, len), end, len, pct).value)
  {
    var group := InBucket(s, end, len);
    GroupMembers(s, end, len);
    GroupOrdered(s, end, len);
    TooSilentTold(s, group, end, len, pct);
    HasSampleTold(s, group, end, len);
    if group != [] { SummaryTells(s, end, len); }
  }

  lemma HasSampleTold(s: seq<HostSample>, group: seq<HostSample>, end: int, len: nat)
    requires forall x :: x in group <==> x in s && InWindow(x, end, len)
    ensures HasSample(s, end, len) <==> group != []
  {
    if group != [] { assert group[0] in group; }
  }

  lemma {:induction false} EndsAreEnds(s: seq<HostSample>, len: nat)
    requires 0 < len
    ensures forall end :: end in Ends(s, len) ==> IsEnd(end, len)
  {
    if s != [] {
      EndsAreEnds(s[..|s| - 1], len);
      BucketEndIsEnd(s[|s| - 1].ts, len);
    }
  }

  lemma {:induction false} EndsAreSampled(s: seq<HostSample>, end: int, len: nat)
    requires IsEnd(end, len)
    ensures end in Ends(s, len) <==> InBucket(s, end, len) != []
  {
    if s != [] { EndsAreSampled(s[..|s| - 1], end, len); }
  }

  /** The table of all buckets, told bucket by bucket. */
  ghost predicate TableTold(t: map<int, HostSample>, s: seq<HostSample>, len: nat, pct: nat) {
    && (forall end :: end in t <==> RowDue(s, end, len, pct))
    && forall end :: end in t ==> t[end].ts == end && RowTold(s, len, t[end])
  }

  lemma GroupByTold(s: seq<HostSample>, len: nat, pct: nat)
    requires Ordered(s) && 0 < len
    ensures TableTold(GroupBy(s, len, pct), s, len, pct)
  {
    EndsAreEnds(s, len);
    forall end
      ensures end in GroupBy(s, len, pct) <==> RowDue(s, end, len, pct)
      ensures end in GroupBy(s, len, pct) ==>
        GroupBy(s, len, pct)[end].ts == end && RowTold(s, len, GroupBy(s, len, pct)[end])
    {
      if IsEnd(end, len) {
        EndsAreSampled(s, end, len);
        RowDueTold(s, end, len, pct);
      }
    }
  }
}
