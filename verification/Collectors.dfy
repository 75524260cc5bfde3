/** The mutable collectors: a capped FIFO of samples, the bucketizers over it, and the closing rule. */
module Collectors {
  import opened Prelude
  import opened Buckets
  import opened Bucketizer
  import opened CounterRun
  import opened SeriesRun

  /** Older and duplicate samples are ignored. */
  function Accepted(h: seq<RawSample>, x: RawSample): (r: seq<RawSample>) {
    if h != [] && x.ts <= h[|h| - 1].ts then h else h + [x]
  }

  /** The capped buffer after one push. */
  function Pushed(s: seq<RawSample>, cap: nat, x: RawSample): seq<RawSample> {
    if cap == 0 then s else Last(Accepted(s, x), cap)
  }

  lemma AcceptedRises(h: seq<RawSample>, x: RawSample)
    requires Rising(h)
    ensures Rising(Accepted(h, x))
  {
  }

  lemma TailRises(h: seq<RawSample>, n: nat)
    requires Rising(h)
    ensures Rising(Last(h, n))
  {
  }

  /** The buffer is always the newest part of everything accepted so far. */
  lemma BufferIsTail(h: seq<RawSample>, cap: nat, x: RawSample)
    requires 0 < cap
    ensures Pushed(Last(h, cap), cap, x) == Last(Accepted(h, x), cap)
  {
    assert h != [] ==> Last(h, cap)[|Last(h, cap)| - 1] == h[|h| - 1];
    assert Last(Last(h, cap) + [x], cap) == Last(h + [x], cap);
  }

  /** Pops from the front until the capacity is respected. */
  method Trimmed(s: seq<RawSample>, cap: nat) returns (r: seq<RawSample>)
    ensures r == Last(s, cap)
  {
    r := s;
    while |r| > cap
      invariant Min(cap, |s|) <= |r| <= |s| && r == s[|s| - |r|..]
    {
      r := r[1..];
    }
  }

  /** The raw samples strictly inside a bucket, and whether any lies inside or on its end. */
  method InsideSamples(s: seq<RawSample>, end: int, len: int) returns (inner: seq<RawSample>, hasBucketSample: bool)
    requires Rising(s) && 0 < len
    ensures inner == Inside(s, end, len) && (hasBucketSample <==> HasInside(s, end, len))
  {
    inner, hasBucketSample := [], false;
    ghost var a, b := Below(s, end - len + 1), Below(s, end);
    BelowRises(s, end - len + 1, end);
    BelowRises(s, end, end + 1);
    for i := 0 to |s|
      invariant hasBucketSample <==> a < Below(s, end + 1) && a < i
      invariant inner == if i <= a then [] else if i <= b then s[a..i] else s[a..b]
    {
      if s[i].ts > end - len && s[i].ts <= end {
        hasBucketSample := true;
      }
      if s[i].ts > end - len && s[i].ts < end {
        inner := inner + [s[i]];
      }
    }
  }

  class SampleBuffer {
    const capacity: nat
    var samples: seq<RawSample>

    ghost predicate Valid() reads this { Rising(samples) && |samples| <= capacity }

    constructor (capacity: nat)
      ensures Valid() && this.capacity == capacity && samples == []
    {
      this.capacity, samples := capacity, [];
    }

    method Push(ts: int, value: u64)
      requires Valid()
      modifies this
      ensures Valid() && samples == Pushed(old(samples), capacity, RawSample(ts, value))
    {
      if capacity == 0 {
        return;
      }
      var x := RawSample(ts, value);
      AcceptedRises(samples, x);
      TailRises(Accepted(samples, x), capacity);
      if samples != [] && ts <= samples[|samples| - 1].ts {
        assert Last(samples, capacity) == samples;
        return;
      }
      samples := Trimmed(samples + [x], capacity);
    }

    /** Value at `boundary` from the nearest samples in `(leftMin, boundary)` and `(boundary, rightMax]`. */
    method InterpolateBoundary(boundary: int, leftMin: int, rightMax: int) returns (r: Option<real>)
      requires Valid()
      ensures r == Boundary(samples, boundary, leftMin, rightMax)
    {
      ghost var k := Below(samples, boundary);
      var i := 0;
      while i < |samples|
        invariant 0 <= i <= |samples|
        invariant forall j :: 0 <= j < i ==> samples[j].ts != boundary
      {
        if samples[i].ts == boundary {
          return Some(Val(samples[i]));
        }
        i := i + 1;
      }
      var left: Option<RawSample>, right: Option<RawSample> := None, None;
      i := 0;
      while i < |samples| && right.None?
        invariant 0 <= i <= |samples|
        invariant var j := Min(i, k);
          left == if 0 < j && leftMin < samples[j - 1].ts then Some(samples[j - 1]) else None
        invariant right.None? && k < i ==> samples[k].ts > rightMax
        invariant right.Some? ==> k < |samples| && k < i && right.value == samples[k] && samples[k].ts <= rightMax
      {
        if samples[i].ts > leftMin && samples[i].ts < boundary {
          left := Some(samples[i]);
        }
        if samples[i].ts > boundary && samples[i].ts <= rightMax {
          right := Some(samples[i]);
        }
        i := i + 1;
      }
      if left.None? || right.None? {
        return None;
      }
      r := Some(Lerp(left.value, right.value, boundary));
    }

    /** Both boundary points and the raw samples between them; none without a sample inside the bucket. */
    method CollectPoints(start: int, end: int, len: int) returns (r: Option<seq<Point>>)
      requires Valid() && start == end - len
      ensures r == if 0 < len then BucketPoints(samples, end, len) else None
    {
      if start >= end || len <= 0 {
        return None;
      }
      var first := InterpolateBoundary(start, start - len, end);
      if first.None? {
        return None;
      }
      var last := InterpolateBoundary(end, start, end + len);
      if last.None? {
        return None;
      }
      var inner, hasBucketSample := InsideSamples(samples, end, len);
      if !hasBucketSample {
        return None;
      }
      r := Some([Point(start, first.value)] + ToPoints(inner) + [Point(end, last.value)]);
    }
  }

  class GaugeBucketizer {
    const buffer: SampleBuffer
    const len: nat

    ghost predicate Valid() reads this, buffer { buffer.Valid() }

    constructor (capacity: nat, len: nat)
      ensures Valid() && fresh(buffer) && buffer.capacity == capacity && this.len == len && buffer.samples == []
    {
      this.len := len;
      buffer := new SampleBuffer(capacity);
    }

    /** The trapezoidal mean over the bucket. */
    method Collect(end: int) returns (r: Option<u64>)
      requires Valid()
      ensures r == GaugeOf(buffer.samples, end, len)
    {
      if buffer.samples == [] || len == 0 {
        return None;
      }
      var points := buffer.CollectPoints(end - len, end, len);
      if points.None? {
        return None;
      }
      BucketPointsRise(buffer.samples, end, len);
      var area := AreaUnder(points.value);
      if area.None? {
        return None;
      }
      r := RoundToU64(area.value / len as real);
    }
  }

  /** Sums the trapezoids between neighbouring points; the check on their order never fires. */
  method AreaUnder(p: seq<Point>) returns (r: Option<real>)
    requires p != [] && PointsRise(p)
    ensures r == Some(Integral(p))
  {
    var integral := 0.0;
    var i := 0;
    while i + 1 < |p|
      invariant 0 <= i < |p|
      invariant integral + Integral(p[i..]) == Integral(p)
    {
      var dt := p[i + 1].ts - p[i].ts;
      if dt <= 0 {
        return None;
      }
      assert p[i..][1..] == p[i + 1..];
      integral := integral + (p[i].value + p[i + 1].value) * 0.5 * dt as real;
      i := i + 1;
    }
    r := Some(integral);
  }

  class CounterBucketizer {
    const buffer: SampleBuffer
    const len: nat

    ghost predicate Valid() reads this, buffer { buffer.Valid() }

    constructor (capacity: nat, len: nat)
      ensures Valid() && fresh(buffer) && buffer.capacity == capacity && this.len == len && buffer.samples == []
    {
      this.len := len;
      buffer := new SampleBuffer(capacity);
    }

    /** Last sample in `(end - 2 * len, end - len]`, by a scan from the right. */
    method OpeningIndex(end: int) returns (k: int)
      requires Valid() && 0 < len
      ensures k == if HasOpening(buffer.samples, end, len) then Below(buffer.samples, end - len + 1) - 1 else -1
    {
      var s := buffer.samples;
      k := |s| - 1;
      while k >= 0 && !(s[k].ts > end - 2 * len && s[k].ts <= end - len)
        invariant -1 <= k < |s|
        invariant HasOpening(s, end, len) ==> Below(s, end - len + 1) - 1 <= k
      {
        k := k - 1;
      }
    }

    /** First sample in `[end, end + len]`. */
    method ClosingIndex(end: int) returns (k: int)
      requires Valid() && 0 < len
      ensures k == if HasClosing(buffer.samples, end, len) then Below(buffer.samples, end) else -1
    {
      var s := buffer.samples;
      k := 0;
      while k < |s| && !(s[k].ts >= end && s[k].ts <= end + len)
        invariant 0 <= k <= |s|
        invariant HasClosing(s, end, len) ==> k <= Below(s, end)
      {
        k := k + 1;
      }
      if k == |s| {
        k := -1;
      }
    }

    /** `windows(2).all(..)` over the samples from the opening to the closing neighbour. */
    method ScanForReset(first: int, last: int) returns (ok: bool)
      requires Valid() && 0 <= first && last < |buffer.samples|
      ensures ok <==> forall j :: first <= j < last ==> buffer.samples[j].value <= buffer.samples[j + 1].value
    {
      var i := first;
      while i < last
        invariant first <= i
        invariant forall j :: first <= j < i && j < last ==> buffer.samples[j].value <= buffer.samples[j + 1].value
      {
        if buffer.samples[i].value > buffer.samples[i + 1].value {
          return false;
        }
        i := i + 1;
      }
      ok := true;
    }

    /** The rate over the bucket. */
    method Collect(end: int) returns (r: Option<u64>)
      requires Valid()
      ensures r == CounterOf(buffer.samples, end, len)
    {
      if buffer.samples == [] || len == 0 {
        return None;
      }
      var first := OpeningIndex(end);
      if first == -1 {
        return None;
      }
      var last := ClosingIndex(end);
      if last == -1 {
        return None;
      }
      BelowRises(buffer.samples, end - len + 1, end);
      if first > last {
        return None;
      }
      var steady := ScanForReset(first, last);
      if !steady {
        return None;
      }
      var points := buffer.CollectPoints(end - len, end, len);
      if points.None? {
        return None;
      }
      r := SlopeOf(points.value, len);
    }
  }

  /** The collector of one counter series: a bucket closes when a sample lands past its end. */
  class SeriesCollector {
    const bucketizer: CounterBucketizer
    var lastRawBucketEnd: Option<int>

    ghost predicate Valid() reads this, bucketizer, bucketizer.buffer { bucketizer.Valid() && 0 < bucketizer.len }

    constructor (intervalMs: nat, len: nat)
      requires 0 < len
      ensures Valid() && fresh(bucketizer) && fresh(bucketizer.buffer) && lastRawBucketEnd == None
      ensures bucketizer.len == len && bucketizer.buffer.capacity == BufferCapacity(intervalMs, len)
      ensures bucketizer.buffer.samples == []
    {
      bucketizer := new CounterBucketizer(BufferCapacity(intervalMs, len), len);
      lastRawBucketEnd := None;
    }

    method Observe(x: RawSample) returns (out: seq<Emission>)
      requires Valid()
      modifies this, bucketizer.buffer
      ensures Valid()
      ensures bucketizer.buffer.samples == Pushed(old(bucketizer.buffer.samples), bucketizer.buffer.capacity, x)
      ensures lastRawBucketEnd == Some(BucketEnd(x.ts, bucketizer.len))
      ensures out == Closing(bucketizer.buffer.samples, old(lastRawBucketEnd), x, bucketizer.len)
      ensures EmitsClosed(bucketizer.buffer.samples, old(lastRawBucketEnd), x, bucketizer.len, out)
    {
      var current := BucketEnd(x.ts, bucketizer.len);
      var completed := if lastRawBucketEnd.Some? && current > lastRawBucketEnd.value then lastRawBucketEnd else None;
      bucketizer.buffer.Push(x.ts, x.value);
      lastRawBucketEnd := Some(current);
      out := [];
      if completed.Some? {
        var rate := bucketizer.Collect(completed.value);
        out := [Emission(completed.value, rate)];
      }
      ClosingMeans(bucketizer.buffer.samples, old(lastRawBucketEnd), x, bucketizer.len);
    }
  }

  lemma PrefixRises(h: seq<RawSample>, i: nat)
    requires Rising(h) && i < |h|
    ensures Rising(h[..i]) && Rising(h[..i + 1]) && h[..i + 1] == h[..i] + [h[i]]
  {
  }

  lemma NextSampleAccepted(h: seq<RawSample>, i: nat, cap: nat)
    requires Rising(h) && i < |h| && 0 < cap
    ensures Pushed(Last(h[..i], cap), cap, h[i]) == Last(h[..i + 1], cap)
    ensures Rising(h[..i + 1]) && Rising(Last(h[..i + 1], cap))
  {
    PrefixRises(h, i);
    BufferIsTail(h[..i], cap, h[i]);
    TailRises(h[..i + 1], cap);
  }

  lemma EmissionsOneMore(h: seq<RawSample>, i: nat, cap: nat, len: nat)
    requires Rising(h) && i < |h| && 0 < len && Rising(h[..i]) && Rising(h[..i + 1]) && Rising(Last(h[..i + 1], cap))
    ensures Emissions(h[..i + 1], cap, len) ==
            Emissions(h[..i], cap, len) + Closing(Last(h[..i + 1], cap), LastEnd(h[..i], len), h[i], len)
  {
    assert h[..i + 1][..i] == h[..i];
  }

  /** Every stretch of consecutive buckets conserves the counter. */
  ghost predicate RunsConserved(h: seq<RawSample>, out: seq<Emission>, len: nat)
    requires Rising(h) && 0 < len
  {
    forall i, j :: 0 <= i < j <= |out| && Consecutive(out[i..j], len) ==> Conserved(h, out[i..j], len)
  }

  /** A whole series through one collector: one emission for each bucket a sample lies past, and with samples an
      interval apart its rate over the full history, as unlimited memory would give it. */
  method CollectSeries(h: seq<RawSample>, intervalMs: nat, len: nat) returns (out: seq<Emission>)
    requires Rising(h) && 0 < len
    ensures out == Emissions(h, BufferCapacity(intervalMs, len), len) && OncePerClosedBucket(h, out, len)
    ensures Spaced(h, intervalMs) && intervalMs <= len ==> out == FullEmissions(h, len)
    ensures Spaced(h, intervalMs) && intervalMs <= len ==> RatesDue(h, out, len) && RunsConserved(h, out, len)
    ensures Spaced(h, intervalMs) && intervalMs <= len && Unskipped(h, len) && NeverFalls(h) && RatesFit(h, len) ==>
      HasEveryRate(out, len)
  {
    var collector := new SeriesCollector(intervalMs, len);
    ghost var cap := BufferCapacity(intervalMs, len);
    out := [];
    for i := 0 to |h|
      invariant fresh(collector) && fresh(collector.bucketizer) && fresh(collector.bucketizer.buffer)
      invariant collector.Valid() && collector.bucketizer.len == len && collector.bucketizer.buffer.capacity == cap
      invariant collector.bucketizer.buffer.samples == Last(h[..i], cap)
      invariant Rising(h[..i]) && collector.lastRawBucketEnd == LastEnd(h[..i], len)
      invariant out == Emissions(h[..i], cap, len)
    {
      NextSampleAccepted(h, i, cap);
      EmissionsOneMore(h, i, cap, len);
      var emitted := collector.Observe(h[i]);
      out := out + emitted;
    }
    assert h[..|h|] == h;
    CappedRunBuckets(h, cap, len);
    if Spaced(h, intervalMs) && intervalMs <= len {
      RunsAgree(h, intervalMs, len);
      FullRunMeans(h, len);
      if Unskipped(h, len) && NeverFalls(h) && RatesFit(h, len) { UnbrokenSeriesHasRates(h, out, len); }
      forall i, j | 0 <= i < j <= |out| && Consecutive(out[i..j], len) ensures Conserved(h, out[i..j], len) {
        CounterConservation(h, intervalMs, len, i, j);
      }
    }
  }
}
