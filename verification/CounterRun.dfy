/** A whole run of one series: the bounded buffer, the closing rule, and conservation of the counter. */
module CounterRun {
  import opened Prelude
  import opened Buckets
  import opened Bucketizer
  import opened BucketMeans

  const BUFFERED_BUCKETS: int := 8

  /** Samples one bucketizer keeps, for a collection interval in milliseconds. */
  function BufferCapacity(intervalMs: nat, len: nat): nat {
    var interval := Max(intervalMs, 1);
    Max(BUFFERED_BUCKETS * len / interval, 4)
  }

  /** As many samples as fit into eight buckets, and never fewer than four. */
  lemma CapacityHoldsEightBuckets(intervalMs: nat, len: nat)
    ensures var cap, interval := BufferCapacity(intervalMs, len), if intervalMs == 0 then 1 else intervalMs;
      && 4 <= cap && 8 * len < (cap + 1) * interval
      && (cap * interval <= 8 * len || cap == 4)
  {
    var interval := Max(intervalMs, 1);
    var k := 8 * len / interval;
    assert k * interval <= 8 * len < (k + 1) * interval;
    ProductRises(k + 1, BufferCapacity(intervalMs, len) + 1, interval);
  }

  // ---------------------------------------------------------------- bounded equals unbounded

  /** Dropping a prefix moves every index beyond it by the same amount. */
  lemma BelowAfterDrop(h: seq<RawSample>, d: nat, b: int)
    requires Rising(h) && d <= |h| && forall i :: 0 <= i < d ==> h[i].ts < b
    ensures Rising(h[d..])
    ensures d <= Below(h, b) && Below(h[d..], b) == Below(h, b) - d
  {
    assert d > 0 ==> h[d - 1].ts < b;
    BelowIsUnique(h[d..], b, Below(h, b) - d);
  }

  /** What lies too far before a boundary, or before a sample that stands at or before it, can go without a trace. */
  ghost predicate Unneeded(h: seq<RawSample>, d: nat, b: int, lo: int) {
    d <= |h| && ((forall i :: 0 <= i < d ==> h[i].ts <= lo) || (d < |h| && h[d].ts <= b))
  }

  /** The same for a bucket: its start is the first boundary it looks back from. */
  ghost predicate Evictable(h: seq<RawSample>, d: nat, end: int, len: int) {
    d < |h| && Unneeded(h, d, end - len, end - len - len)
  }

  lemma BoundaryAfterDrop(h: seq<RawSample>, d: nat, b: int, lo: int, hi: int)
    requires Rising(h) && lo < b && Unneeded(h, d, b, lo)
    ensures Rising(h[d..])
    ensures Boundary(h[d..], b, lo, hi) == Boundary(h, b, lo, hi)
  {
    BelowAfterDrop(h, d, b);
  }

  /** The three counts that decide what a bucket uses, before and after a drop. */
  lemma CountsAfterDrop(h: seq<RawSample>, d: nat, end: int, len: int)
    requires Rising(h) && 0 < len && Evictable(h, d, end, len)
    ensures Rising(h[d..])
    ensures d <= Below(h, end - len + 1) <= Below(h, end) <= Below(h, end + 1)
    ensures Below(h[d..], end - len + 1) == Below(h, end - len + 1) - d
    ensures Below(h[d..], end) == Below(h, end) - d
    ensures Below(h[d..], end + 1) == Below(h, end + 1) - d
  {
    BelowAfterDrop(h, d, end - len + 1);
    BelowAfterDrop(h, d, end);
    BelowAfterDrop(h, d, end + 1);
    BelowRises(h, end - len + 1, end);
    BelowRises(h, end, end + 1);
  }

  lemma AtAfterDrop(h: seq<RawSample>, d: nat, b: int, len: int)
    requires Rising(h) && 0 < len && Unneeded(h, d, b, b - len)
    ensures Rising(h[d..])
    ensures At(h[d..], b, len) == At(h, b, len)
  {
    BoundaryAfterDrop(h, d, b, b - len, b + len);
  }

  lemma HasInsideAfterDrop(h: seq<RawSample>, d: nat, end: int, len: int)
    requires Rising(h) && 0 < len && Evictable(h, d, end, len)
    ensures Rising(h[d..])
    ensures HasInside(h[d..], end, len) <==> HasInside(h, end, len)
  {
    CountsAfterDrop(h, d, end, len);
  }

  lemma InsideAfterDrop(h: seq<RawSample>, d: nat, end: int, len: int)
    requires Rising(h) && 0 < len && Evictable(h, d, end, len)
    ensures Rising(h[d..])
    ensures Inside(h[d..], end, len) == Inside(h, end, len)
  {
    CountsAfterDrop(h, d, end, len);
    SliceAfterDrop(h, d, Below(h, end - len + 1), Below(h, end));
  }

  lemma UnneededLater(h: seq<RawSample>, d: nat, end: int, len: int)
    requires Rising(h) && 0 < len && Evictable(h, d, end, len)
    ensures Unneeded(h, d, end - len, end - len - len) && Unneeded(h, d, end, end - len)
  {
  }

  lemma StartAfterDrop(h: seq<RawSample>, d: nat, end: int, len: int)
    requires Rising(h) && 0 < len && Evictable(h, d, end, len)
    ensures Rising(h[d..]) && At(h[d..], end - len, len) == At(h, end - len, len)
  {
    UnneededLater(h, d, end, len);
    AtAfterDrop(h, d, end - len, len);
  }

  lemma EndAfterDrop(h: seq<RawSample>, d: nat, end: int, len: int)
    requires Rising(h) && 0 < len && Evictable(h, d, end, len)
    ensures Rising(h[d..]) && At(h[d..], end, len) == At(h, end, len)
  {
    UnneededLater(h, d, end, len);
    AtAfterDrop(h, d, end, len);
  }

  lemma SamePoints(s: seq<RawSample>, t: seq<RawSample>, end: int, len: int)
    requires Rising(s) && Rising(t) && 0 < len && (HasInside(s, end, len) <==> HasInside(t, end, len))
    requires At(s, end - len, len) == At(t, end - len, len) && At(s, end, len) == At(t, end, len)
    requires Inside(s, end, len) == Inside(t, end, len)
    ensures BucketPoints(s, end, len) == BucketPoints(t, end, len)
  {
  }

  lemma PointsAfterDrop(h: seq<RawSample>, d: nat, end: int, len: int)
    requires Rising(h) && 0 < len && Evictable(h, d, end, len)
    ensures Rising(h[d..])
    ensures BucketPoints(h[d..], end, len) == BucketPoints(h, end, len)
  {
    StartAfterDrop(h, d, end, len);
    EndAfterDrop(h, d, end, len);
    HasInsideAfterDrop(h, d, end, len);
    InsideAfterDrop(h, d, end, len);
    SamePoints(h[d..], h, end, len);
  }

  lemma OpeningAfterDrop(h: seq<RawSample>, d: nat, end: int, len: int)
    requires Rising(h) && 0 < len && Evictable(h, d, end, len)
    ensures Rising(h[d..])
    ensures HasOpening(h[d..], end, len) <==> HasOpening(h, end, len)
    ensures HasClosing(h[d..], end, len) <==> HasClosing(h, end, len)
    ensures HasOpening(h, end, len) ==> d < Below(h, end - len + 1)
  {
    CountsAfterDrop(h, d, end, len);
  }

  lemma ScanAfterDrop(h: seq<RawSample>, d: nat, end: int, len: int)
    requires Rising(h) && 0 < len && Evictable(h, d, end, len)
    requires HasOpening(h, end, len) && HasClosing(h, end, len)
    ensures Rising(h[d..]) && HasOpening(h[d..], end, len) && HasClosing(h[d..], end, len)
    ensures NoReset(h[d..], end, len) <==> NoReset(h, end, len)
  {
    CountsAfterDrop(h, d, end, len);
    OpeningAfterDrop(h, d, end, len);
    var t, a, b := h[d..], Below(h, end - len + 1) - 1, Below(h, end);
    if NoReset(t, end, len) {
      forall i | a <= i < b ensures h[i].value <= h[i + 1].value {
        assert t[i - d].value <= t[i - d + 1].value;
      }
    }
    if NoReset(h, end, len) {
      forall i | a - d <= i < b - d ensures t[i].value <= t[i + 1].value {
        assert h[i + d].value <= h[i + d + 1].value;
      }
    }
  }

  lemma CounterAfterDrop(h: seq<RawSample>, d: nat, end: int, len: int)
    requires Rising(h) && 0 < len && Evictable(h, d, end, len)
    ensures Rising(h[d..])
    ensures CounterOf(h[d..], end, len) == CounterOf(h, end, len)
  {
    PointsAfterDrop(h, d, end, len);
    OpeningAfterDrop(h, d, end, len);
    if HasOpening(h, end, len) && HasClosing(h, end, len) {
      ScanAfterDrop(h, d, end, len);
    }
  }

  lemma GaugeAfterDrop(h: seq<RawSample>, d: nat, end: int, len: int)
    requires Rising(h) && 0 < len && Evictable(h, d, end, len)
    ensures Rising(h[d..])
    ensures GaugeOf(h[d..], end, len) == GaugeOf(h, end, len)
  {
    PointsAfterDrop(h, d, end, len);
  }

  /** Consecutive samples at least a collection interval apart. */
  ghost predicate Spaced(h: seq<RawSample>, interval: nat) {
    0 < interval && forall i :: 0 <= i < |h| - 1 ==> h[i].ts + interval <= h[i + 1].ts
  }

  lemma {:induction false} SpacedGap(h: seq<RawSample>, interval: nat, i: nat, j: nat)
    requires Spaced(h, interval) && i <= j < |h|
    ensures h[i].ts + (j - i) * interval <= h[j].ts
    decreases j - i
  {
    if i < j {
      SpacedGap(h, interval, i, j - 1);
      assert (j - i) * interval == (j - 1 - i) * interval + interval;
    }
  }

  lemma CapacityCoversTwoBuckets(interval: nat, len: nat)
    requires 0 < interval <= len
    ensures (BufferCapacity(interval, len) - 1) * interval >= 2 * len
  {
    var k := BUFFERED_BUCKETS * len / interval;
    assert k * interval > 8 * len - interval;
    ProductRises(k, BufferCapacity(interval, len), interval);
    assert (BufferCapacity(interval, len) - 1) * interval == BufferCapacity(interval, len) * interval - interval;
  }

  lemma ProductRises(a: nat, b: nat, k: nat)
    requires a <= b
    ensures a * k <= b * k
  {
  }

  /** When a bucket closes, everything the capped buffer has dropped is out of the bucket's reach. */
  lemma CapOnlyDropsTheUnreachable(h: seq<RawSample>, interval: nat, len: nat, end: int)
    requires Rising(h) && Spaced(h, interval) && interval <= len && h != []
    requires forall i :: 0 <= i < |h| - 1 ==> h[i].ts <= end
    ensures Evictable(h, |h| - Min(BufferCapacity(interval, len), |h|), end, len)
  {
    var cap := BufferCapacity(interval, len);
    var d := |h| - Min(cap, |h|);
    forall i | 0 <= i < d ensures h[i].ts <= end - 2 * len {
      SpacedGap(h, interval, i, |h| - 2);
      CapacityCoversTwoBuckets(interval, len);
      ProductRises(cap - 1, |h| - 2 - i, interval);
    }
  }

  /** Collecting the bucket that just closed from the capped FIFO gives what the full history gives. */
  lemma BoundedEqualsUnbounded(h: seq<RawSample>, interval: nat, len: nat, end: int)
    requires Rising(h) && Spaced(h, interval) && interval <= len && h != []
    requires forall i :: 0 <= i < |h| - 1 ==> h[i].ts <= end
    ensures Rising(Last(h, BufferCapacity(interval, len)))
    ensures CounterOf(Last(h, BufferCapacity(interval, len)), end, len) == CounterOf(h, end, len)
    ensures GaugeOf(Last(h, BufferCapacity(interval, len)), end, len) == GaugeOf(h, end, len)
  {
    CapOnlyDropsTheUnreachable(h, interval, len, end);
    CounterAfterDrop(h, |h| - Min(BufferCapacity(interval, len), |h|), end, len);
    GaugeAfterDrop(h, |h| - Min(BufferCapacity(interval, len), |h|), end, len);
  }

  // ---------------------------------------------------------------- what a run emits

  datatype Emission = Emission(end: int, rate: Option<u64>)

  /** End of the bucket the newest sample fell into. */
  function LastEnd(h: seq<RawSample>, len: nat): Option<int>
    requires 0 < len
  {
    if h == [] then None else Some(BucketEnd(h[|h| - 1].ts, len))
  }

  /** The emission sample `x` triggers, from the buffer with `x` already in it. */
  function Closing(samples: seq<RawSample>, last: Option<int>, x: RawSample, len: nat): seq<Emission>
    requires Rising(samples) && 0 < len
  {
    if last.Some? && BucketEnd(x.ts, len) > last.value then [Emission(last.value, CounterOf(samples, last.value, len))]
    else []
  }

  /** What a run emits from the capped buffer. */
  function Emissions(h: seq<RawSample>, cap: nat, len: nat): seq<Emission>
    requires Rising(h) && 0 < len
  {
    if h == [] then []
    else
      var init := h[..|h| - 1];
      Emissions(init, cap, len) + Closing(Last(h, cap), LastEnd(init, len), h[|h| - 1], len)
  }

  /** The same run with the full history in hand. */
  function FullEmissions(h: seq<RawSample>, len: nat): seq<Emission>
    requires Rising(h) && 0 < len
  {
    if h == [] then []
    else
      var init := h[..|h| - 1];
      FullEmissions(init, len) + Closing(h, LastEnd(init, len), h[|h| - 1], len)
  }

  lemma ClosingAgrees(h: seq<RawSample>, interval: nat, len: nat)
    requires Rising(h) && Spaced(h, interval) && interval <= len && h != []
    ensures var cap, last, x := BufferCapacity(interval, len), LastEnd(h[..|h| - 1], len), h[|h| - 1];
      Closing(Last(h, cap), last, x, len) == Closing(h, last, x, len)
  {
    var last := LastEnd(h[..|h| - 1], len);
    if last.Some? {
      BoundedEqualsUnbounded(h, interval, len, last.value);
    }
  }

  /** Over a whole run the capped buffer is indistinguishable from unlimited memory. */
  lemma {:induction false} RunsAgree(h: seq<RawSample>, interval: nat, len: nat)
    requires Rising(h) && Spaced(h, interval) && interval <= len
    ensures Emissions(h, BufferCapacity(interval, len), len) == FullEmissions(h, len)
  {
    if h != [] {
      RunsAgree(h[..|h| - 1], interval, len);
      ClosingAgrees(h, interval, len);
    }
  }

  // ---------------------------------------------------------------- conservation of the counter

  /** A boundary value once known never changes as later samples arrive. */
  lemma BoundaryIsStable(h: seq<RawSample>, n: nat, b: int, len: int)
    requires Rising(h) && n <= |h| && 0 < len && At(h[..n], b, len).Some?
    ensures At(h, b, len) == At(h[..n], b, len)
  {
    BelowIsUnique(h, b, Below(h[..n], b));
  }

  /** What an emission promises about the counter's boundary values in the history `h`. */
  ghost predicate Accounts(h: seq<RawSample>, e: Emission, len: nat)
    requires Rising(h)
  {
    AccountsBy(ValuesOf(h, len), e, len)
  }

  /** The value of a series at an instant. */
  type ValueAt = int -> Option<real>

  function ValuesOf(h: seq<RawSample>, len: nat): ValueAt
    requires Rising(h)
  {
    b => At(h, b, len)
  }

  ghost predicate AccountsBy(at: ValueAt, e: Emission, len: nat) {
    AccountsFor(e.rate, at(e.end - len), at(e.end), len)
  }

  ghost predicate AccountsFor(rate: Option<u64>, start: Option<real>, end: Option<real>, len: nat) {
    rate.Some? ==>
      start.Some? && end.Some? &&
      RateMatches((rate.value as int) as real, len as real, end.value - start.value, len as real * 0.5)
  }

  /** A value once known stays. */
  ghost predicate Stays(before: Option<real>, later: Option<real>) { before.Some? ==> later == before }

  lemma AccountsStay(before: ValueAt, later: ValueAt, e: Emission, len: nat)
    requires AccountsBy(before, e, len)
    requires Stays(before(e.end - len), later(e.end - len)) && Stays(before(e.end), later(e.end))
    ensures AccountsBy(later, e, len)
  {
  }

  lemma ValueStays(h: seq<RawSample>, n: nat, b: int, len: nat)
    requires Rising(h) && n <= |h| && 0 < len
    ensures Rising(h[..n]) && Stays(ValuesOf(h[..n], len)(b), ValuesOf(h, len)(b))
  {
    if At(h[..n], b, len).Some? { BoundaryIsStable(h, n, b, len); }
  }

  lemma AccountsLater(h: seq<RawSample>, n: nat, e: Emission, len: nat)
    requires Rising(h) && n <= |h| && 0 < len && Accounts(h[..n], e, len)
    ensures Accounts(h, e, len)
  {
    ValueStays(h, n, e.end - len, len);
    ValueStays(h, n, e.end, len);
    AccountsStay(ValuesOf(h[..n], len), ValuesOf(h, len), e, len);
  }

  lemma CounterAccounts(h: seq<RawSample>, end: int, len: nat)
    requires Rising(h) && 0 < len
    ensures Accounts(h, Emission(end, CounterOf(h, end, len)), len)
  {
    if CounterOf(h, end, len).Some? {
      RateIsRise(h, end, len);
      CoveredHasPoints(h, end, len);
    }
  }

  /** Every bucket a run emits is stated against the same boundary values of the full history. */
  lemma {:induction false} EmissionsAccount(h: seq<RawSample>, len: nat, k: nat)
    requires Rising(h) && 0 < len && k < |FullEmissions(h, len)|
    ensures Accounts(h, FullEmissions(h, len)[k], len)
  {
    var init := h[..|h| - 1];
    if k < |FullEmissions(init, len)| {
      EmissionsAccount(init, len, k);
      AccountsLater(h, |h| - 1, FullEmissions(init, len)[k], len);
    } else {
      CounterAccounts(h, BucketEnd(h[|h| - 2].ts, len), len);
    }
  }

  function Rate(e: Emission): real { if e.rate.Some? then (e.rate.value as int) as real else 0.0 }

  function RateSum(e: seq<Emission>): real {
    if e == [] then 0.0 else RateSum(e[..|e| - 1]) + Rate(e[|e| - 1])
  }

  /** Half a bucket of rounding for each of `n` buckets. */
  function Slack(n: nat, len: nat): (r: real)
    ensures r == n as real * (len as real * 0.5)
  {
    if n == 0 then 0.0 else Slack(n - 1, len) + len as real * 0.5
  }

  /** Consecutive buckets, each with a value. */
  ghost predicate Consecutive(e: seq<Emission>, len: nat) {
    (forall i :: 0 <= i < |e| ==> e[i].rate.Some?) && (forall i :: 0 <= i < |e| - 1 ==> e[i + 1].end == e[i].end + len)
  }

  lemma RatesJoin(a: real, b: real, d: real, x: real, y: real, s: real, t: real)
    requires RateMatches(a, d, x, s) && RateMatches(b, d, y, t)
    ensures RateMatches(a + b, d, x + y, s + t)
  {
    assert (a + b) * d == a * d + b * d;
  }

  lemma BucketsJoin(a: Option<real>, b: Option<real>, c: Option<real>, sum: real, rate: u64, n: nat, len: nat)
    requires ConservedBetween(a, b, sum, n, len) && AccountsFor(Some(rate), b, c, len)
    ensures ConservedBetween(a, c, sum + (rate as int) as real, n + 1, len)
  {
    var x, y, z := a.value, b.value, c.value;
    RatesJoin(sum, (rate as int) as real, len as real, y - x, z - y, Slack(n, len), len as real * 0.5);
    assert (y - x) + (z - y) == z - x;
  }

  /** The counter values before the first and after the last bucket, and the rates in between. */
  ghost predicate Conserved(h: seq<RawSample>, e: seq<Emission>, len: nat)
    requires Rising(h) && e != []
  {
    ConservedBy(ValuesOf(h, len), e, len)
  }

  ghost predicate ConservedBy(at: ValueAt, e: seq<Emission>, len: nat)
    requires e != []
  {
    ConservedBetween(at(e[0].end - len), at(e[|e| - 1].end), RateSum(e), |e|, len)
  }

  ghost predicate ConservedBetween(start: Option<real>, end: Option<real>, sum: real, n: nat, len: nat) {
    start.Some? && end.Some? && RateMatches(sum, len as real, end.value - start.value, Slack(n, len))
  }

  lemma OneBucketConserved(at: ValueAt, e: Emission, len: nat)
    requires e.rate.Some? && AccountsBy(at, e, len)
    ensures ConservedBy(at, [e], len)
  {
    assert RateSum([e][..0]) == 0.0 && Slack(1, len) == Slack(0, len) + len as real * 0.5;
  }

  lemma RateSumOneMore(init: seq<Emission>, last: Emission)
    ensures RateSum(init + [last]) == RateSum(init) + Rate(last)
  {
    assert (init + [last])[..|init|] == init;
  }

  lemma OneMoreBucketConserved(at: ValueAt, init: seq<Emission>, last: Emission, len: nat)
    requires init != [] && ConservedBy(at, init, len)
    requires last.rate.Some? && AccountsBy(at, last, len) && init[|init| - 1].end == last.end - len
    ensures ConservedBy(at, init + [last], len)
  {
    RateSumOneMore(init, last);
    BucketsJoin(at(init[0].end - len), at(last.end - len), at(last.end), RateSum(init), last.rate.value, |init|, len);
  }

  lemma {:induction false} RatesTelescope(at: ValueAt, e: seq<Emission>, len: nat)
    requires e != [] && Consecutive(e, len) && forall i :: 0 <= i < |e| ==> AccountsBy(at, e[i], len)
    ensures ConservedBy(at, e, len)
  {
    var init, last := e[..|e| - 1], e[|e| - 1];
    assert e == init + [last];
    if init == [] {
      assert e == [last];
      OneBucketConserved(at, last, len);
    } else {
      RatesTelescope(at, init, len);
      OneMoreBucketConserved(at, init, last, len);
    }
  }

  lemma AllAccount(h: seq<RawSample>, len: nat, all: seq<Emission>)
    requires Rising(h) && 0 < len && all == FullEmissions(h, len)
    ensures forall k :: 0 <= k < |all| ==> AccountsBy(ValuesOf(h, len), all[k], len)
  {
    forall k | 0 <= k < |all| ensures AccountsBy(ValuesOf(h, len), all[k], len) { EmissionsAccount(h, len, k); }
  }

  lemma PartConserves(at: ValueAt, len: nat, all: seq<Emission>, i: nat, j: nat)
    requires i < j <= |all| && Consecutive(all[i..j], len)
    requires forall k :: 0 <= k < |all| ==> AccountsBy(at, all[k], len)
    ensures ConservedBy(at, all[i..j], len)
  {
    var e := all[i..j];
    forall k | 0 <= k < |e| ensures AccountsBy(at, e[k], len) { assert e[k] == all[i + k]; }
    RatesTelescope(at, e, len);
  }

  lemma FullRunConserves(h: seq<RawSample>, len: nat, i: nat, j: nat)
    requires Rising(h) && 0 < len && i < j <= |FullEmissions(h, len)| && Consecutive(FullEmissions(h, len)[i..j], len)
    ensures Conserved(h, FullEmissions(h, len)[i..j], len)
  {
    AllAccount(h, len, FullEmissions(h, len));
    PartConserves(ValuesOf(h, len), len, FullEmissions(h, len), i, j);
  }

  /** Over any run, the rates stored for n consecutive buckets satisfy |sum * len - 10^6 * rise| <= n * len / 2. */
  lemma CounterConservation(h: seq<RawSample>, interval: nat, len: nat, i: nat, j: nat)
    requires Rising(h) && Spaced(h, interval) && interval <= len
    requires i < j <= |Emissions(h, BufferCapacity(interval, len), len)|
    requires Consecutive(Emissions(h, BufferCapacity(interval, len), len)[i..j], len)
    ensures Conserved(h, Emissions(h, BufferCapacity(interval, len), len)[i..j], len)
  {
    RunsAgree(h, interval, len);
    FullRunConserves(h, len, i, j);
  }
}
