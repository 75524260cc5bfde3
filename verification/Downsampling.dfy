/** One pass over ordered 10s rows, and why it is the same as grouping them by bucket. */
module Downsampling {
  import opened Prelude
  import opened Buckets
  import opened HostMetrics
  import opened HostAnswers

  /** The largest silence seen so far, and the first and last instant. */
  datatype GapTracker = GapTracker(firstTs: Option<int>, lastTs: Option<int>, maxInteriorGap: int) {
    function Observe(ts: int): GapTracker {
      GapTracker(if firstTs.Some? then firstTs else Some(ts), Some(ts),
                 if lastTs.Some? then Max(maxInteriorGap, ts - lastTs.value) else maxInteriorGap)
    }

    predicate ExceedsMaxGap(end: int, len: nat, pct: nat)
      requires firstTs.Some? && lastTs.Some?
    {
      var edges := Max(firstTs.value - (end - len), end - lastTs.value);
      Max(maxInteriorGap, edges) > Threshold(len, pct)
    }
  }

  datatype OptionalGauge = OptionalGauge(count: nat, total: nat) {
    function Add(v: Option<nat>): OptionalGauge {
      match v case None => this case Some(x) => OptionalGauge(count + 1, total + x)
    }

    function MeanRate(): Option<nat> { if count > 0 then Some(total / count) else None }
  }

  function GapOf(group: seq<HostSample>): GapTracker {
    if group == [] then GapTracker(None, None, 0) else GapOf(group[..|group| - 1]).Observe(group[|group| - 1].ts)
  }

  /** The tracked edges and interior gap are the longest silence of the bucket. */
  lemma {:induction false} GapIsSilence(group: seq<HostSample>, start: int, end: int)
    requires group != [] && Ordered(group) && start < group[0].ts
    ensures var gap := GapOf(group);
      && gap.firstTs == Some(group[0].ts) && gap.lastTs == Some(group[|group| - 1].ts)
      && Silence(start, group, end) == Max(gap.maxInteriorGap, Max(group[0].ts - start, end - group[|group| - 1].ts))
  {
    var init, last := group[..|group| - 1], group[|group| - 1];
    if init == [] {
      assert Silence(start, init, last.ts) == last.ts - start;
      assert GapOf(init) == GapTracker(None, None, 0);
    } else {
      GapIsSilence(init, start, last.ts);
    }
  }

  /** So the tracker drops a bucket exactly when it is not kept. */
  lemma GapDecides(group: seq<HostSample>, end: int, len: nat, pct: nat)
    requires group != [] && Ordered(group) && end - len < group[0].ts
    ensures GapOf(group).firstTs.Some? && GapOf(group).lastTs.Some?
    ensures GapOf(group).ExceedsMaxGap(end, len, pct) <==> !Kept(group, end, len, pct)
  {
    GapIsSilence(group, end - len, end);
  }

  function PresentOf(group: seq<HostSample>, f: OptionalField): OptionalGauge {
    OptionalGauge(PresentCount(group, f), PresentSum(group, f))
  }

  lemma TotalsExtended(group: seq<HostSample>, s: HostSample)
    ensures forall g: Gauge :: Sum(group + [s], g) == Sum(group, g) + Get(s, g)
    ensures GapOf(group + [s]) == GapOf(group).Observe(s.ts)
  {
    assert (group + [s])[..|group|] == group;
  }

  lemma OptionalExtended(group: seq<HostSample>, s: HostSample)
    ensures forall f: OptionalField :: PresentOf(group + [s], f) == PresentOf(group, f).Add(GetOptional(s, f))
  {
    assert (group + [s])[..|group|] == group;
  }

  /** Running totals of the bucket being filled. */
  class HostGauges {
    var count: nat
    var gap: GapTracker
    var cpuPctMill: nat
    var memUsed: nat
    var storageUsed: nat
    var metricsSize: nat
    var logsSize: nat
    var netRxRateMill: OptionalGauge
    var netTxRateMill: OptionalGauge
    var diskReadRateMill: OptionalGauge
    var diskWriteRateMill: OptionalGauge
    var logPressurePctMill: OptionalGauge
    var appRssBytes: OptionalGauge

    ghost predicate Totals(group: seq<HostSample>) reads this {
      && count == |group| && gap == GapOf(group)
      && cpuPctMill == Sum(group, Cpu) && memUsed == Sum(group, Mem) && storageUsed == Sum(group, Storage)
      && metricsSize == Sum(group, MetricsBytes) && logsSize == Sum(group, LogsBytes)
    }

    ghost predicate OptionalTotals(group: seq<HostSample>) reads this {
      && netRxRateMill == PresentOf(group, NetRx) && netTxRateMill == PresentOf(group, NetTx)
      && diskReadRateMill == PresentOf(group, DiskRead) && diskWriteRateMill == PresentOf(group, DiskWrite)
      && logPressurePctMill == PresentOf(group, LogPressure) && appRssBytes == PresentOf(group, AppRss)
    }

    ghost predicate Holds(group: seq<HostSample>) reads this { Totals(group) && OptionalTotals(group) }

    constructor ()
      ensures Holds([])
    {
      count, gap := 0, GapTracker(None, None, 0);
      cpuPctMill, memUsed, storageUsed, metricsSize, logsSize := 0, 0, 0, 0, 0;
      netRxRateMill, netTxRateMill := OptionalGauge(0, 0), OptionalGauge(0, 0);
      diskReadRateMill, diskWriteRateMill := OptionalGauge(0, 0), OptionalGauge(0, 0);
      logPressurePctMill, appRssBytes := OptionalGauge(0, 0), OptionalGauge(0, 0);
    }

    method Add(s: HostSample, ghost group: seq<HostSample>)
      requires Holds(group)
      modifies this
      ensures Holds(group + [s])
    {
      AddGauges(s, group);
      AddOptional(s, group);
    }

    method AddGauges(s: HostSample, ghost group: seq<HostSample>)
      requires Totals(group)
      modifies `count, `gap, `cpuPctMill, `memUsed, `storageUsed, `metricsSize, `logsSize
      ensures Totals(group + [s])
    {
      TotalsExtended(group, s);
      count, gap := count + 1, gap.Observe(s.ts);
      cpuPctMill, memUsed, storageUsed := cpuPctMill + s.cpuPctMill, memUsed + s.memUsed, storageUsed + s.storageUsed;
      metricsSize, logsSize := metricsSize + s.metricsSize, logsSize + s.logsSize;
    }

    method AddOptional(s: HostSample, ghost group: seq<HostSample>)
      requires OptionalTotals(group)
      modifies `netRxRateMill, `netTxRateMill, `diskReadRateMill, `diskWriteRateMill, `logPressurePctMill, `appRssBytes
      ensures OptionalTotals(group + [s])
    {
      OptionalExtended(group, s);
      netRxRateMill, netTxRateMill := netRxRateMill.Add(s.netRxRateMill), netTxRateMill.Add(s.netTxRateMill);
      diskReadRateMill := diskReadRateMill.Add(s.diskReadRateMill);
      diskWriteRateMill := diskWriteRateMill.Add(s.diskWriteRateMill);
      logPressurePctMill, appRssBytes := logPressurePctMill.Add(s.logPressurePctMill), appRssBytes.Add(s.appRssBytes);
    }

    /** The row of the bucket, or nothing when it is empty or silent for too long. */
    method Finish(end: int, len: nat, pct: nat, ghost group: seq<HostSample>) returns (r: Option<HostSample>)
      requires Holds(group) && 0 < len
      requires Ordered(group) && (group != [] ==> end - len < group[0].ts)
      ensures r == RowOf(group, end, len, pct)
    {
      if count == 0 {
        return None;
      }
      GapDecides(group, end, len, pct);
      if gap.ExceedsMaxGap(end, len, pct) {
        return None;
      }
      r := Some(HostSample(end,
        cpuPctMill / count, memUsed / count, storageUsed / count, metricsSize / count, logsSize / count,
        netRxRateMill.MeanRate(), netTxRateMill.MeanRate(), diskReadRateMill.MeanRate(), diskWriteRateMill.MeanRate(),
        logPressurePctMill.MeanRate(), appRssBytes.MeanRate()));
    }
  }

  /** Rows keyed by their instant, later rows replacing earlier ones. */
  function AsTable(rows: seq<HostSample>): map<int, HostSample> {
    if rows == [] then map[] else AsTable(rows[..|rows| - 1])[rows[|rows| - 1].ts := rows[|rows| - 1]]
  }

  /** The row of one bucket as a table. */
  function BucketRow(s: seq<HostSample>, end: int, len: nat, pct: nat): map<int, HostSample>
    requires 0 < len
  {
    match RowOf(InBucket(s, end, len), end, len, pct) case Some(row) => map[end := row] case None => map[]
  }

  lemma {:induction false} InBucketMembers(s: seq<HostSample>, end: int, len: nat)
    requires 0 < len
    ensures forall x :: x in InBucket(s, end, len) <==> x in s && BucketEnd(x.ts, len) == end
  {
    if s != [] {
      var init, last := s[..|s| - 1], s[|s| - 1];
      assert s == init + [last];
      InBucketMembers(init, end, len);
      InBucketExtended(init, last, end, len);
    }
  }

  lemma OrderedOneMore(s: seq<HostSample>, x: HostSample)
    ensures Ordered(s + [x]) ==> Ordered(s) && forall y :: y in s ==> y.ts < x.ts
    ensures Ordered(s) && (forall y :: y in s ==> y.ts < x.ts) ==> Ordered(s + [x])
  {
    var t := s + [x];
    assert forall i :: 0 <= i < |s| ==> t[i] == s[i] && s[i] in s;
    assert t[|s|] == x;
  }

  lemma {:induction false} InBucketOrdered(s: seq<HostSample>, end: int, len: nat)
    requires 0 < len && Ordered(s)
    ensures Ordered(InBucket(s, end, len))
  {
    if s != [] {
      var init, last := s[..|s| - 1], s[|s| - 1];
      assert s == init + [last];
      OrderedOneMore(init, last);
      InBucketOrdered(init, end, len);
      InBucketMembers(init, end, len);
      InBucketExtended(init, last, end, len);
      OrderedOneMore(InBucket(init, end, len), last);
    }
  }

  lemma {:induction false} EndsOfBuckets(s: seq<HostSample>, end: int, len: nat)
    requires 0 < len
    ensures InBucket(s, end, len) != [] <==> end in Ends(s, len)
  {
    if s != [] {
      var init, last := s[..|s| - 1], s[|s| - 1];
      assert s == init + [last];
      EndsOfBuckets(init, end, len);
      InBucketExtended(init, last, end, len);
    }
  }

  lemma InBucketFacts(s: seq<HostSample>, end: int, len: nat)
    requires 0 < len && Ordered(s)
    ensures Ordered(InBucket(s, end, len))
    ensures forall x :: x in InBucket(s, end, len) ==> x in s && BucketEnd(x.ts, len) == end
    ensures InBucket(s, end, len) != [] <==> end in Ends(s, len)
  {
    InBucketMembers(s, end, len);
    InBucketOrdered(s, end, len);
    EndsOfBuckets(s, end, len);
  }

  lemma {:induction false} EndsAreNotPast(s: seq<HostSample>, len: nat, x: int)
    requires 0 < len && forall r :: r in s ==> r.ts <= x
    ensures forall end :: end in Ends(s, len) ==> end <= BucketEnd(x, len)
  {
    if s != [] {
      var init, last := s[..|s| - 1], s[|s| - 1];
      assert s == init + [last] && last in s;
      EndsAreNotPast(init, len, x);
      BucketEndRises(last.ts, x, len);
    }
  }

  lemma InBucketExtended(s: seq<HostSample>, x: HostSample, end: int, len: nat)
    requires 0 < len
    ensures InBucket(s + [x], end, len) == InBucket(s, end, len) + if BucketEnd(x.ts, len) == end then [x] else []
    ensures Ends(s + [x], len) == Ends(s, len) + {BucketEnd(x.ts, len)}
  {
    assert (s + [x])[..|s|] == s;
  }

  lemma SameBucketSameRow(s: seq<HostSample>, t: seq<HostSample>, end: int, len: nat, pct: nat)
    requires 0 < len && InBucket(t, end, len) == InBucket(s, end, len) && (end in Ends(t, len) <==> end in Ends(s, len))
    ensures end in GroupBy(t, len, pct) <==> end in GroupBy(s, len, pct)
    ensures end in GroupBy(s, len, pct) ==> GroupBy(t, len, pct)[end] == GroupBy(s, len, pct)[end]
  {
  }

  /** A new row touches only its own bucket. */
  lemma GroupByExtended(s: seq<HostSample>, x: HostSample, len: nat, pct: nat)
    requires 0 < len
    ensures var end := BucketEnd(x.ts, len);
      GroupBy(s + [x], len, pct) - {end} == GroupBy(s, len, pct) - {end}
  {
    var t := s + [x];
    var a, b := GroupBy(t, len, pct) - {BucketEnd(x.ts, len)}, GroupBy(s, len, pct) - {BucketEnd(x.ts, len)};
    forall end ensures (end in a <==> end in b) && (end in b ==> a[end] == b[end]) {
      if end != BucketEnd(x.ts, len) {
        InBucketExtended(s, x, end, len);
        SameBucketSameRow(s, t, end, len, pct);
      }
    }
  }

  lemma GroupByAt(s: seq<HostSample>, end: int, len: nat, pct: nat)
    requires 0 < len && Ordered(s)
    ensures end in GroupBy(s, len, pct) <==> RowOf(InBucket(s, end, len), end, len, pct).Some?
    ensures end in GroupBy(s, len, pct) ==>
      Some(GroupBy(s, len, pct)[end]) == RowOf(InBucket(s, end, len), end, len, pct)
  {
    InBucketFacts(s, end, len);
  }

  lemma RowApart(t: map<int, HostSample>, k: int)
    ensures k in t ==> t == (t - {k}) + map[k := t[k]]
    ensures k !in t ==> t == (t - {k}) + map[]
  {
  }

  lemma GroupByParts(s: seq<HostSample>, end: int, len: nat, pct: nat)
    requires 0 < len && Ordered(s)
    ensures GroupBy(s, len, pct) == (GroupBy(s, len, pct) - {end}) + BucketRow(s, end, len, pct)
  {
    GroupByAt(s, end, len, pct);
    RowApart(GroupBy(s, len, pct), end);
  }

  /** The bucket a later row opens has no row yet. */
  lemma NewBucketIsEmpty(s: seq<HostSample>, x: HostSample, len: nat, pct: nat)
    requires 0 < len && Ordered(s + [x]) && s != [] && BucketEnd(s[|s| - 1].ts, len) != BucketEnd(x.ts, len)
    ensures BucketEnd(s[|s| - 1].ts, len) < BucketEnd(x.ts, len)
    ensures BucketEnd(x.ts, len) !in Ends(s, len) && BucketEnd(x.ts, len) !in GroupBy(s, len, pct)
  {
    var t, last := s + [x], s[|s| - 1];
    assert last == t[|s| - 1] && x == t[|s|];
    BucketEndRises(last.ts, x.ts, len);
    forall y | y in s ensures y.ts <= last.ts {
      var i :| 0 <= i < |s| && s[i] == y;
      assert y == t[i];
    }
    EndsAreNotPast(s, len, last.ts);
  }

  lemma PrefixOrdered(s: seq<HostSample>, x: HostSample)
    requires Ordered(s + [x])
    ensures Ordered(s)
  {
    assert forall i :: 0 <= i < |s| ==> s[i] == (s + [x])[i];
  }

  /** Rows emitted so far: the table of every bucket before the one being filled. */
  ghost predicate EmittedBefore(points: seq<HostSample>, s: seq<HostSample>, current: int, len: nat, pct: nat) {
    && 0 < len && Ordered(points) && (forall p :: p in points ==> p.ts < current)
    && AsTable(points) == GroupBy(s, len, pct) - {current}
  }

  /** All rows emitted: the table of every bucket of `s`. */
  ghost predicate EmittedAll(points: seq<HostSample>, s: seq<HostSample>, current: int, len: nat, pct: nat) {
    && 0 < len && Ordered(points) && (forall p :: p in points ==> p.ts <= current)
    && AsTable(points) == GroupBy(s, len, pct)
  }

  function Extended(points: seq<HostSample>, row: Option<HostSample>): seq<HostSample> {
    match row case Some(r) => points + [r] case None => points
  }

  lemma ExtendedFacts(points: seq<HostSample>, row: Option<HostSample>, current: int)
    requires Ordered(points) && (forall p :: p in points ==> p.ts < current) && (row.Some? ==> row.value.ts == current)
    ensures var all := Extended(points, row);
      && Ordered(all) && (forall p :: p in all ==> p.ts <= current)
      && AsTable(all) == AsTable(points) + match row case Some(r) => map[current := r] case None => map[]
  {
    if row.Some? {
      assert (points + [row.value])[..|points|] == points;
      assert forall i :: 0 <= i < |points| ==> points[i] in points;
    }
  }

  lemma CloseBucket(points: seq<HostSample>, s: seq<HostSample>, current: int, len: nat, pct: nat)
    requires EmittedBefore(points, s, current, len, pct) && Ordered(s)
    ensures EmittedAll(Extended(points, RowOf(InBucket(s, current, len), current, len, pct)), s, current, len, pct)
  {
    GroupByParts(s, current, len, pct);
    ExtendedFacts(points, RowOf(InBucket(s, current, len), current, len, pct), current);
  }

  lemma NothingApart(t: map<int, HostSample>, k: int)
    requires k !in t
    ensures t - {k} == t
  {
  }

  lemma OpenBucket(points: seq<HostSample>, s: seq<HostSample>, x: HostSample, current: int, len: nat, pct: nat)
    requires 0 < len && Ordered(s + [x])
    requires (s != [] ==> current == BucketEnd(s[|s| - 1].ts, len) != BucketEnd(x.ts, len))
    requires EmittedAll(points, s, current, len, pct) && (s == [] ==> points == [])
    ensures EmittedBefore(points, s + [x], BucketEnd(x.ts, len), len, pct)
    ensures InBucket(s, BucketEnd(x.ts, len), len) == []
  {
    var end := BucketEnd(x.ts, len);
    PrefixOrdered(s, x);
    GroupByExtended(s, x, len, pct);
    InBucketFacts(s, end, len);
    if s != [] {
      NewBucketIsEmpty(s, x, len, pct);
    }
    NothingApart(GroupBy(s, len, pct), end);
  }

  lemma FillBucket(points: seq<HostSample>, s: seq<HostSample>, x: HostSample, current: int, len: nat, pct: nat)
    requires EmittedBefore(points, s, current, len, pct) && BucketEnd(x.ts, len) == current
    ensures EmittedBefore(points, s + [x], current, len, pct)
  {
    GroupByExtended(s, x, len, pct);
  }

  /** `points.extend(gauges.finish(..))` at the end of a bucket. */
  method FinishBucket(points: seq<HostSample>, gauges: HostGauges, current: int, len: nat, pct: nat,
                      ghost seen: seq<HostSample>)
    returns (all: seq<HostSample>)
    requires 0 < len && Ordered(seen) && gauges.Holds(InBucket(seen, current, len))
    requires EmittedBefore(points, seen, current, len, pct)
    ensures EmittedAll(all, seen, current, len, pct) && (seen == [] && points == [] ==> all == [])
  {
    InBucketFacts(seen, current, len);
    ghost var group := InBucket(seen, current, len);
    assert group != [] ==> group[0] in group;
    var row := gauges.Finish(current, len, pct, group);
    CloseBucket(points, seen, current, len, pct);
    all := Extended(points, row);
  }

  /** The pass so far: totals of the bucket being filled, rows of every bucket before it. */
  ghost predicate Progress(points: seq<HostSample>, gauges: HostGauges, current: int, seen: seq<HostSample>,
                           len: nat, pct: nat)
    reads gauges
  {
    && 0 < len && gauges.Holds(InBucket(seen, current, len)) && EmittedBefore(points, seen, current, len, pct)
    && if seen == [] then points == [] else current == BucketEnd(seen[|seen| - 1].ts, len)
  }

  method Observe(points: seq<HostSample>, gauges: HostGauges, current: int, x: HostSample, len: nat, pct: nat,
                 ghost seen: seq<HostSample>)
    returns (points': seq<HostSample>, gauges': HostGauges, current': int)
    requires Progress(points, gauges, current, seen, len, pct) && Ordered(seen) && Ordered(seen + [x])
    modifies gauges
    ensures gauges' == gauges || fresh(gauges')
    ensures Progress(points', gauges', current', seen + [x], len, pct)
  {
    points', gauges', current' := points, gauges, BucketEnd(x.ts, len);
    if current' != current {
      points' := FinishBucket(points, gauges, current, len, pct, seen);
      OpenBucket(points', seen, x, current, len, pct);
      gauges' := new HostGauges();
    } else {
      FillBucket(points, seen, x, current, len, pct);
    }
    InBucketExtended(seen, x, current', len);
    gauges'.Add(x, InBucket(seen, current', len));
  }

  lemma NothingEmitted(current: int, len: nat, pct: nat)
    requires 0 < len
    ensures EmittedBefore([], [], current, len, pct) && InBucket([], current, len) == []
  {
    assert Ends([], len) == {};
  }

  lemma PrefixesOrdered(s: seq<HostSample>, i: nat)
    requires Ordered(s) && i < |s|
    ensures s[..i + 1] == s[..i] + [s[i]] && Ordered(s[..i]) && Ordered(s[..i] + [s[i]])
  {
  }

  const I64_MIN: int := -0x8000_0000_0000_0000

  ghost predicate HasPointAt(points: seq<HostSample>, end: int) { exists p :: p in points && p.ts == end }

  /** The rows, bucket by bucket: one exactly where one is due, and each says what its window's samples say. */
  ghost predicate PointsTold(points: seq<HostSample>, s: seq<HostSample>, len: nat, pct: nat) {
    && (forall end :: HasPointAt(points, end) <==> RowDue(s, end, len, pct))
    && forall p :: p in points ==> RowTold(s, len, p)
  }

  lemma PointsOneMore(init: seq<HostSample>, last: HostSample)
    ensures AsTable(init + [last]) == AsTable(init)[last.ts := last]
    ensures forall p :: p in init + [last] <==> p in init || p == last
    ensures forall end :: HasPointAt(init + [last], end) <==> HasPointAt(init, end) || last.ts == end
  {
    var points := init + [last];
    assert points[..|init|] == init && points[|init|] == last;
    forall end ensures HasPointAt(points, end) <==> HasPointAt(init, end) || last.ts == end {
      if HasPointAt(init, end) {
        var p :| p in init && p.ts == end;
        assert p in points;
      }
    }
  }

  lemma {:induction false} AsTableOfOrdered(points: seq<HostSample>)
    requires Ordered(points)
    ensures forall end :: end in AsTable(points) <==> HasPointAt(points, end)
    ensures forall p :: p in points ==> p.ts in AsTable(points) && AsTable(points)[p.ts] == p
  {
    if points != [] {
      var init, last := points[..|points| - 1], points[|points| - 1];
      assert points == init + [last];
      OrderedOneMore(init, last);
      PointsOneMore(init, last);
      AsTableOfOrdered(init);
    }
  }

  lemma PointsTell(points: seq<HostSample>, s: seq<HostSample>, len: nat, pct: nat)
    requires Ordered(points) && Ordered(s) && 0 < len && AsTable(points) == GroupBy(s, len, pct)
    ensures PointsTold(points, s, len, pct)
  {
    AsTableOfOrdered(points);
    GroupByTold(s, len, pct);
  }

  /** One pass over ordered samples gives the rows of grouping them by bucket, by strictly rising bucket end. */
  method DownsampleHost(samples: seq<HostSample>, r: Resolution, pct: nat) returns (points: seq<HostSample>)
    requires Ordered(samples)
    ensures Ordered(points) && AsTable(points) == GroupBy(samples, BucketMs(r), pct)
    ensures PointsTold(points, samples, BucketMs(r), pct)
  {
    var len := BucketMs(r);
    points := [];
    var current := I64_MIN;
    var gauges := new HostGauges();
    NothingEmitted(current, len, pct);
    for i := 0 to |samples|
      invariant fresh(gauges) && Progress(points, gauges, current, samples[..i], len, pct)
    {
      PrefixesOrdered(samples, i);
      points, gauges, current := Observe(points, gauges, current, samples[i], len, pct, samples[..i]);
    }
    assert samples[..|samples|] == samples;
    points := FinishBucket(points, gauges, current, len, pct, samples);
    PointsTell(points, samples, len, pct);
  }
}
