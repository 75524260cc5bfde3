/** A concrete container sampled once per bucket: how its row depends on when it joins and whether it restarts. */
module SteadyContainer {
  import opened Prelude
  import opened Buckets
  import opened Bucketizer
  import opened BucketMeans
  import opened ContainerBuckets
  import opened ContainerLife
  import opened SlowestCollection

  const CPU_NS: nat := 2_500_000_000
  const SYSTEM_NS: nat := 10_000_000_000

  /** A quarter of one CPU, sampled in the middle of a bucket: ten seconds on, `t` buckets since the counters began. */
  function Sample(i: nat, t: nat, cid: int): Reading
    requires t < 1_000_000
  {
    Reading(i * LEN - 5_000, 1, cid, 1, (t * CPU_NS) as u64, (t * SYSTEM_NS) as u64, 1, 0, 0, 0, 0)
  }

  /** The container is restarted right before sample `reset`. */
  function Samples(n: nat, reset: nat, cid: int): (xs: seq<Reading>)
    requires n < 1_000_000
    ensures |xs| == n
    ensures forall i :: 0 <= i < n ==> xs[i] == Sample(i, if i < reset then i + 1 else i - reset, cid)
  {
    seq(n, i requires 0 <= i < n => Sample(i, if i < reset then i + 1 else i - reset, cid))
  }

  lemma {:induction false} SampleEnd(i: nat)
    ensures BucketEnd(i * LEN - 5_000, LEN) == i * LEN
  {
    if i > 0 {
      SampleEnd(i - 1);
      BucketEndShifts((i - 1) * LEN - 5_000, LEN);
    }
  }

  lemma SamplesOnePerBucket(n: nat, reset: nat, cid: int)
    requires n < 1_000_000
    ensures OnePerBucket(Samples(n, reset, cid), cid)
  {
    var xs := Samples(n, reset, cid);
    forall i, j | 0 <= i < j < n && j == i + 1 ensures NextBucket(xs[i], xs[j]) {
      SampleEnd(i);
      SampleEnd(j);
    }
  }

  /** A counter rising by the same amount every ten seconds, sampled in the middle of three buckets. */
  lemma SteadyRate(s: seq<RawSample>, end: int, d: nat)
    requires |s| == 3 && s[0].ts == end - 15_000 && s[1].ts == end - 5_000 && s[2].ts == end + 5_000
    requires s[1].value as int == s[0].value as int + d
    requires s[2].value as int == s[1].value as int + d && d <= U64_MAX / 100
    ensures Rising(s) && CounterOf(s, end, LEN) == Some((d * 100) as u64)
  {
    BelowIsUnique(s, end - LEN, 1);
    BelowIsUnique(s, end - LEN + 1, 1);
    BelowIsUnique(s, end, 2);
    BelowIsUnique(s, end + 1, 2);
    CounterDefined(s, end, LEN);
    HalfWay(s[0], s[1], end - LEN);
    HalfWay(s[1], s[2], end);
    assert CounterRise(s, end, LEN) == d as real;
    assert d as real * 1000.0 * 1000.0 / LEN as real == (d * 100) as real;
  }

  lemma HalfWay(l: RawSample, r: RawSample, b: int)
    requires l.ts == b - 5_000 && r.ts == b + 5_000
    ensures Lerp(l, r, b) == (Val(l) + Val(r)) / 2.0
  {
  }

  predicate TenSecondsOn(x: Reading, y: Reading) {
    y.ts == x.ts + LEN && y.cpu as int == x.cpu as int + CPU_NS && y.system as int == x.system as int + SYSTEM_NS
  }

  lemma SteadyRates(x: Reading, y: Reading, z: Reading)
    requires TenSecondsOn(x, y) && TenSecondsOn(y, z)
    ensures RisingReadings([x, y, z])
    ensures RateOf([x, y, z], Cpu, y.ts + 5_000) == Some((CPU_NS * 100) as u64)
    ensures RateOf([x, y, z], System, y.ts + 5_000) == Some((SYSTEM_NS * 100) as u64)
  {
    var h := [x, y, z];
    SteadyRate(Series(h, Cpu), y.ts + 5_000, CPU_NS);
    SteadyRate(Series(h, System), y.ts + 5_000, SYSTEM_NS);
  }

  lemma ShareOfRates(h: seq<Reading>, end: int)
    requires RisingReadings(h)
    requires RateOf(h, Cpu, end) == Some((CPU_NS * 100) as u64)
    requires RateOf(h, System, end) == Some((SYSTEM_NS * 100) as u64)
    ensures CpuPct(h, 1, end) == Some(25_000)
  {
    assert Share(CPU_NS * 100, 1, SYSTEM_NS * 100) == 25_000;
  }

  /** A quarter of one CPU, in thousandths of a percent. */
  lemma QuarterShare(x: Reading, y: Reading, z: Reading)
    requires TenSecondsOn(x, y) && TenSecondsOn(y, z) && BucketEnd(y.ts, LEN) == y.ts + 5_000 && z.cpuCount == 1
    ensures Computable(x, y, z) && CpuPct([x, y, z], 1, y.ts + 5_000) == Some(25_000)
  {
    SteadyRates(x, y, z);
    ShareOfRates([x, y, z], y.ts + 5_000);
  }

  lemma SteadyIsComputable(i: nat, t: nat, cid: int)
    requires t < 999_998
    ensures Computable(Sample(i, t, cid), Sample(i + 1, t + 1, cid), Sample(i + 2, t + 2, cid))
  {
    var x, y, z := Sample(i, t, cid), Sample(i + 1, t + 1, cid), Sample(i + 2, t + 2, cid);
    SampleEnd(i + 1);
    assert TenSecondsOn(x, y) && TenSecondsOn(y, z);
    QuarterShare(x, y, z);
  }

  lemma SteadyEmits(n: nat, reset: nat, cid: int)
    requires 3 <= n <= reset && n < 1_000_000
    ensures DueOncePerBucket(Samples(n, reset, cid), None, Computable)
  {
    var xs := Samples(n, reset, cid);
    forall i | 0 <= i < n - 2 ensures Computable(xs[i], xs[i + 1], xs[i + 2]) { SteadyIsComputable(i, i + 1, cid); }
    AllSharesEmit(xs, Computable);
  }

  /** Joined quietly and not restarted so far, it is reported with every sample from the third on. */
  lemma SteadyIsReported(n: nat, reset: nat, cid: int, cap: nat)
    requires 3 <= n <= reset && n < 1_000_000 && 4 <= cap
    ensures OnePerBucket(Samples(n, reset, cid), cid) && Report(Samples(n, reset, cid), cid, None, cap).Some?
  {
    SamplesOnePerBucket(n, reset, cid);
    SteadyEmits(n, reset, cid);
    ReportedOncePerBucket(Samples(n, reset, cid), cid, None, cap);
  }

  /** The same container joining in a batch that completes a bucket is not reported even once. */
  lemma SteadyLateJoinerIsNot(n: nat, cid: int, first: int, cap: nat)
    requires 1 <= n < 1_000_000 && 4 <= cap && first < Samples(n, n, cid)[0].ts
    ensures OnePerBucket(Samples(n, n, cid), cid) && Report(Samples(n, n, cid), cid, Some(first), cap) == None
  {
    SamplesOnePerBucket(n, n, cid);
    ReportedOncePerBucket(Samples(n, n, cid), cid, Some(first), cap);
  }

  /** Nor is it ever again once it has been restarted, whatever rows it had before. */
  lemma RestartedIsSilenced(n: nat, reset: nat, cid: int, first: Option<int>, cap: nat)
    requires 1 <= reset < n < 1_000_000 && 4 <= cap
    requires first.Some? ==> first.value < Samples(n, reset, cid)[0].ts
    ensures OnePerBucket(Samples(n, reset, cid), cid) && Report(Samples(n, reset, cid), cid, first, cap) == None
  {
    SamplesOnePerBucket(n, reset, cid);
    SampleEnd(reset - 1);
    RestartSilencesForGood(Samples(n, reset, cid), cid, first, cap, reset - 1);
  }
}
