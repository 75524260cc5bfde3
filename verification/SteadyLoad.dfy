/** A container under a steady load, sampled at least twice in every bucket: when its rows start. */
module SteadyLoad {
  import opened Prelude
  import opened Buckets
  import opened Bucketizer
  import opened BucketMeans
  import CounterRun
  import SeriesRun
  import opened ContainerBuckets
  import opened ContainerLife
  import opened DenseCollection

  /** The lines the two CPU counters of a container rise along. */
  datatype Load = Load(cpu: real, cpuSlope: real, system: real, systemSlope: real)

  predicate SeriesOnLine(s: seq<RawSample>, a: real, c: real) {
    forall i :: 0 <= i < |s| ==> Val(s[i]) == Line(a, c, s[i].ts as real)
  }

  /** No restart, and the same load throughout. */
  predicate Steady(xs: seq<Reading>, l: Load) {
    && SeriesOnLine(Series(xs, Cpu), l.cpu, l.cpuSlope)
    && SeriesOnLine(Series(xs, System), l.system, l.systemSlope)
  }

  /** The rate a counter with this slope per millisecond has. */
  function LineRate(c: real): Option<u64> { RoundToU64(c * 1000.0 * 1000.0) }

  /** The share of such a load fits its field. */
  predicate Fits(l: Load, cpuCount: nat) {
    && l.cpuSlope >= 0.0 && l.systemSlope >= 0.0
    && ShareFits(LineRate(l.cpuSlope), LineRate(l.systemSlope), cpuCount)
  }

  predicate ShareFits(cpu: Option<u64>, system: Option<u64>, cpuCount: nat) {
    && cpu.Some? && system.Some? && system.value != 0
    && Share(cpu.value as int, cpuCount, system.value as int) <= U64_MAX
  }

  lemma RateOnLine(h: seq<Reading>, f: Field, end: int, a: real, c: real)
    requires RisingReadings(h) && c >= 0.0 && SeriesOnLine(Series(h, f), a, c) && IsCovered(h, end)
    ensures RateOf(h, f, end) == LineRate(c)
  {
    CoveredAnyField(h, Cpu, f, end);
    CounterExactOnLines(Series(h, f), end, LEN, a, c);
  }

  lemma ShareOfRates(h: seq<Reading>, cpuCount: nat, end: int)
    requires RisingReadings(h) && ShareFits(RateOf(h, Cpu, end), RateOf(h, System, end), cpuCount)
    ensures CpuPct(h, cpuCount, end).Some?
  {
  }

  lemma ShareOnLines(h: seq<Reading>, l: Load, cpuCount: nat, end: int)
    requires RisingReadings(h) && Steady(h, l) && Fits(l, cpuCount) && IsCovered(h, end)
    ensures CpuPct(h, cpuCount, end).Some?
  {
    RateOnLine(h, Cpu, end, l.cpu, l.cpuSlope);
    RateOnLine(h, System, end, l.system, l.systemSlope);
    ShareOfRates(h, cpuCount, end);
  }

  /** No bucket between a sample's and the next one's. */
  ghost predicate Unskipped(xs: seq<Reading>) {
    forall i :: 0 <= i < |xs| - 1 ==> End(xs[i + 1]) <= End(xs[i]) + LEN
  }

  /** Where no bucket was skipped, the one just closed is covered unless it is the first. */
  lemma CoveredAtClose(xs: seq<Reading>)
    requires RisingReadings(xs) && Unskipped(xs) && Closes(xs) && End(xs[0]) < End(xs[|xs| - 2])
    ensures IsCovered(xs, End(xs[|xs| - 2]))
  {
    var s := Series(xs, Cpu);
    SeriesRises(xs, Cpu);
    forall i, j | 0 <= i < j < |s| && j == i + 1 ensures SeriesRun.End(s[j], LEN) <= SeriesRun.End(s[i], LEN) + LEN {
      assert End(xs[i + 1]) <= End(xs[i]) + LEN;
    }
    SeriesRun.ClosedIsCovered(s, LEN, |xs| - 1, End(xs[|xs| - 2]));
  }

  lemma {:induction false} ClosedIsLater(xs: seq<Reading>, cid: int)
    requires Own(xs, cid) && xs != []
    ensures if Closings(xs) >= 1 then End(xs[0]) < End(xs[|xs| - 1]) else End(xs[0]) == End(xs[|xs| - 1])
  {
    if |xs| > 1 {
      var ys, x := xs[..|xs| - 1], xs[|xs| - 1];
      assert xs == ys + [x];
      OwnOneMore(ys, x, cid);
      EndsRise(ys, x);
      ClosedIsLater(ys, cid);
      ClosingsOneMore(ys, x);
    } else {
      assert Closings(xs[..0]) == 0;
    }
  }

  lemma SteadyHasShare(xs: seq<Reading>, cid: int, l: Load)
    requires Own(xs, cid) && Unskipped(xs) && Steady(xs, l) && Closes(xs) && 2 <= Closings(xs)
    requires Fits(l, xs[|xs| - 1].cpuCount)
    ensures HasShare(xs)
  {
    var ys, x := xs[..|xs| - 1], xs[|xs| - 1];
    assert xs == ys + [x];
    OwnOneMore(ys, x, cid);
    ClosingsOneMore(ys, x);
    ClosedIsLater(ys, cid);
    CoveredAtClose(xs);
    ShareOnLines(xs, l, x.cpuCount, End(xs[|xs| - 2]));
  }

  lemma SteadyPrefix(xs: seq<Reading>, cid: int, l: Load, k: nat)
    requires Own(xs, cid) && Unskipped(xs) && Steady(xs, l) && k <= |xs|
    ensures Own(xs[..k], cid) && Unskipped(xs[..k]) && Steady(xs[..k], l)
  {
    var ys := xs[..k];
    forall i | 0 <= i < k - 1 ensures End(ys[i + 1]) <= End(ys[i]) + LEN { assert End(xs[i + 1]) <= End(xs[i]) + LEN; }
    SeriesPrefix(xs, Cpu, k);
    SeriesPrefix(xs, System, k);
  }

  lemma SeriesPrefix(xs: seq<Reading>, f: Field, k: nat)
    requires k <= |xs|
    ensures Series(xs[..k], f) == Series(xs, f)[..k]
  {
  }

  /** Under a steady load every closing sample has its row, the first closing excepted, and the second as well for a
      container that joined in a batch completing an earlier bucket. */
  lemma SteadyIsReportedIff(xs: seq<Reading>, cid: int, first: Option<int>, cap: nat, l: Load)
    requires Own(xs, cid) && xs != [] && Roomy(xs, cap) && TwicePerBucket(xs) && Unskipped(xs)
    requires Steady(xs, l) && forall x :: x in xs ==> Fits(l, x.cpuCount)
    requires first.Some? ==> first.value < xs[0].ts
    ensures Report(xs, cid, first, cap).Some? <==> Closes(xs) && Closings(xs) > Waits(first)
  {
    forall k | 0 <= k <= |xs| && Closes(xs[..k]) && 2 <= Closings(xs[..k]) ensures HasShare(xs[..k]) {
      SteadyPrefix(xs, cid, l, k);
      assert xs[..k][k - 1] in xs;
      SteadyHasShare(xs[..k], cid, l);
    }
    LateJoinerWaitsOneMore(xs, cid, first, cap);
  }

  // ---------------------------------------------------------------- the default interval

  const INTERVAL: nat := 5_000
  const CAPACITY: nat := CounterRun.BufferCapacity(INTERVAL, LEN)

  /** A quarter of one CPU: 1.25 s of CPU time in every 5 s. */
  const QUARTER: Load := Load(0.0, 250_000.0, 0.0, 1_000_000.0)

  function Sample(i: nat, cid: int): Reading
    requires i < 1_000_000
  {
    var ts := i * INTERVAL + 2_500;
    Reading(ts, 1, cid, 1, (ts * 250_000) as u64, (ts * 1_000_000) as u64, 1, 0, 0, 0, 0)
  }

  function Samples(n: nat, cid: int): (xs: seq<Reading>)
    requires n < 1_000_000
    ensures |xs| == n && forall i :: 0 <= i < n ==> xs[i] == Sample(i, cid)
  {
    seq(n, i requires 0 <= i < n => Sample(i, cid))
  }

  lemma {:induction false} SampleEnd(i: nat, cid: int)
    requires i < 1_000_000
    ensures End(Sample(i, cid)) == (i / 2 + 1) * LEN
  {
    if i >= 2 {
      SampleEnd(i - 2, cid);
      BucketEndShifts(Sample(i - 2, cid).ts, LEN);
    } else {
      assert BucketEnd(Sample(i, cid).ts - LEN, LEN) == 0;
    }
  }

  lemma ClosesAtOdd(n: nat, cid: int)
    requires n < 1_000_000
    ensures Closes(Samples(n, cid)) <==> 3 <= n && n % 2 == 1
  {
    if 2 <= n {
      SampleEnd(n - 2, cid);
      SampleEnd(n - 1, cid);
      assert Samples(n, cid)[n - 2] == Sample(n - 2, cid) && Samples(n, cid)[n - 1] == Sample(n - 1, cid);
    }
  }

  lemma PrefixOfSamples(n: nat, cid: int, k: nat)
    requires k <= n < 1_000_000
    ensures Samples(n, cid)[..k] == Samples(k, cid)
  {
  }

  lemma {:induction false} ClosingsOfSamples(n: nat, cid: int)
    requires n < 1_000_000
    ensures Closings(Samples(n, cid)) == if n == 0 then 0 else (n - 1) / 2
  {
    if n > 0 {
      PrefixOfSamples(n, cid, n - 1);
      ClosingsOfSamples(n - 1, cid);
      ClosesAtOdd(n, cid);
    }
  }

  lemma SamplesAreDense(n: nat, cid: int)
    requires n < 1_000_000
    ensures Own(Samples(n, cid), cid) && TwicePerBucket(Samples(n, cid)) && Unskipped(Samples(n, cid))
  {
    var xs := Samples(n, cid);
    forall k | 0 <= k < n && Closes(xs[..k]) ensures !Closes(xs[..k + 1]) {
      PrefixOfSamples(n, cid, k);
      PrefixOfSamples(n, cid, k + 1);
      ClosesAtOdd(k, cid);
      ClosesAtOdd(k + 1, cid);
    }
    forall i | 0 <= i < n - 1 ensures End(xs[i + 1]) <= End(xs[i]) + LEN {
      SampleEnd(i, cid);
      SampleEnd(i + 1, cid);
    }
  }

  lemma SamplesAreSteady(n: nat, cid: int)
    requires n < 1_000_000
    ensures Steady(Samples(n, cid), QUARTER)
  {
  }

  lemma QuarterFits()
    ensures Fits(QUARTER, 1)
  {
  }

  /** Every five seconds: each second sample has a row, from the fifth on, or from the seventh for a late joiner. */
  lemma LateByOneBucket(n: nat, cid: int, first: Option<int>)
    requires 1 <= n < 1_000_000 && (first.Some? ==> first.value < Samples(n, cid)[0].ts)
    ensures Report(Samples(n, cid), cid, first, CAPACITY).Some? <==> n % 2 == 1 && n >= if first.Some? then 7 else 5
  {
    SamplesAreDense(n, cid);
    RoomyFromSpacing(Samples(n, cid), INTERVAL);
    SamplesAreSteady(n, cid);
    QuarterFits();
    SteadyIsReportedIff(Samples(n, cid), cid, first, CAPACITY, QUARTER);
    ClosesAtOdd(n, cid);
    ClosingsOfSamples(n, cid);
  }
}
