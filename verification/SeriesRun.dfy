/** A run of one counter series told over its samples: which buckets it emits, and which of them have a rate. */
module SeriesRun {
  import opened Prelude
  import opened Buckets
  import opened Bucketizer
  import opened BucketMeans
  import opened CounterRun

  function End(x: RawSample, len: nat): int
    requires 0 < len
  {
    BucketEnd(x.ts, len)
  }

  /** Sample `i` closes its predecessor's bucket: it lies past it. */
  ghost predicate ClosedAt(h: seq<RawSample>, len: nat, i: int, end: int)
    requires 0 < len
  {
    0 < i < |h| && End(h[i - 1], len) == end < End(h[i], len)
  }

  ghost predicate IsClosed(h: seq<RawSample>, len: nat, end: int)
    requires 0 < len
  {
    exists i :: ClosedAt(h, len, i, end)
  }

  ghost predicate IsEmitted(out: seq<Emission>, end: int) { exists k :: 0 <= k < |out| && out[k].end == end }

  /** One emission for each closed bucket, by rising end. */
  ghost predicate OncePerClosedBucket(h: seq<RawSample>, out: seq<Emission>, len: nat)
    requires 0 < len
  {
    && (forall k :: 0 <= k < |out| - 1 ==> out[k].end < out[k + 1].end)
    && forall end :: IsEmitted(out, end) <==> IsClosed(h, len, end)
  }

  /** The rate of a bucket, from its rise in the full history. */
  ghost predicate RateDue(h: seq<RawSample>, end: int, len: nat, rate: Option<u64>)
    requires Rising(h)
  {
    if Covered(h, end, len) && NoReset(h, end, len)
       && CounterRise(h, end, len) * 1000.0 * 1000.0 / len as real <= U64_MAX as real
    then rate == RoundToU64(CounterRise(h, end, len) * 1000.0 * 1000.0 / len as real) && rate.Some?
    else rate == None
  }

  ghost predicate RatesDue(h: seq<RawSample>, out: seq<Emission>, len: nat)
    requires Rising(h)
  {
    forall k :: 0 <= k < |out| ==> RateDue(h, out[k].end, len, out[k].rate)
  }

  // ---------------------------------------------------------------- the buckets

  lemma RisesOneMore(ys: seq<RawSample>, x: RawSample)
    requires Rising(ys + [x])
    ensures Rising(ys) && (ys != [] ==> ys[|ys| - 1].ts < x.ts)
  {
    var h := ys + [x];
    assert forall i :: 0 <= i < |ys| ==> h[i] == ys[i];
    assert h[|ys|] == x;
  }

  lemma FullOneMore(ys: seq<RawSample>, x: RawSample, len: nat)
    requires Rising(ys + [x]) && 0 < len
    ensures Rising(ys)
    ensures FullEmissions(ys + [x], len) == FullEmissions(ys, len) + Closing(ys + [x], LastEnd(ys, len), x, len)
  {
    RisesOneMore(ys, x);
    assert (ys + [x])[..|ys|] == ys;
  }

  /** All emitted ends lie before the newest sample's bucket. */
  ghost predicate EndsBefore(out: seq<Emission>, end: int) { forall k :: 0 <= k < |out| ==> out[k].end < end }

  lemma ClosedOneMore(ys: seq<RawSample>, x: RawSample, len: nat, end: int)
    requires 0 < len
    ensures IsClosed(ys + [x], len, end) <==>
      IsClosed(ys, len, end) || (ys != [] && End(ys[|ys| - 1], len) == end < End(x, len))
  {
    var h := ys + [x];
    if IsClosed(h, len, end) {
      var i :| ClosedAt(h, len, i, end);
      assert i < |ys| ==> ClosedAt(ys, len, i, end);
    }
    if IsClosed(ys, len, end) {
      var i :| ClosedAt(ys, len, i, end);
      assert ClosedAt(h, len, i, end);
    }
    if ys != [] && End(ys[|ys| - 1], len) == end < End(x, len) { assert ClosedAt(h, len, |ys|, end); }
  }

  lemma EmittedOneMore(out: seq<Emission>, e: Emission, end: int)
    ensures IsEmitted(out + [e], end) <==> IsEmitted(out, end) || e.end == end
  {
    var all := out + [e];
    if IsEmitted(out, end) {
      var k :| 0 <= k < |out| && out[k].end == end;
      assert all[k].end == end;
    }
    if e.end == end { assert all[|out|].end == end; }
  }

  lemma NothingClosed(ys: seq<RawSample>, x: RawSample, out: seq<Emission>, len: nat)
    requires 0 < len && OncePerClosedBucket(ys, out, len) && (ys != [] ==> End(ys[|ys| - 1], len) == End(x, len))
    ensures OncePerClosedBucket(ys + [x], out, len)
  {
    forall end ensures IsEmitted(out, end) <==> IsClosed(ys + [x], len, end) { ClosedOneMore(ys, x, len, end); }
  }

  lemma OneClosed(ys: seq<RawSample>, x: RawSample, out: seq<Emission>, e: Emission, len: nat)
    requires 0 < len && OncePerClosedBucket(ys, out, len) && EndsBefore(out, e.end)
    requires ys != [] && e.end == End(ys[|ys| - 1], len) < End(x, len)
    ensures OncePerClosedBucket(ys + [x], out + [e], len)
  {
    forall end ensures IsEmitted(out + [e], end) <==> IsClosed(ys + [x], len, end) {
      ClosedOneMore(ys, x, len, end);
      EmittedOneMore(out, e, end);
    }
  }

  lemma NextBuckets(ys: seq<RawSample>, x: RawSample, out: seq<Emission>, closing: seq<Emission>, len: nat)
    requires Rising(ys + [x]) && 0 < len && OncePerClosedBucket(ys, out, len)
    requires ys != [] ==> EndsBefore(out, End(ys[|ys| - 1], len))
    requires if ys != [] && End(ys[|ys| - 1], len) < End(x, len)
             then |closing| == 1 && closing[0].end == End(ys[|ys| - 1], len) else closing == []
    requires ys == [] ==> out == []
    ensures OncePerClosedBucket(ys + [x], out + closing, len) && EndsBefore(out + closing, End(x, len))
  {
    RisesOneMore(ys, x);
    if ys != [] { BucketEndRises(ys[|ys| - 1].ts, x.ts, len); }
    if closing == [] {
      assert out + closing == out;
      NothingClosed(ys, x, out, len);
    } else {
      assert closing == [closing[0]];
      OneClosed(ys, x, out, closing[0], len);
    }
  }

  lemma {:induction false} FullRunBuckets(h: seq<RawSample>, len: nat)
    requires Rising(h) && 0 < len
    ensures OncePerClosedBucket(h, FullEmissions(h, len), len)
    ensures if h == [] then FullEmissions(h, len) == []
            else EndsBefore(FullEmissions(h, len), End(h[|h| - 1], len))
  {
    if h == [] {
      assert forall end :: !IsEmitted([], end) && !IsClosed(h, len, end);
    } else {
      var ys, x := h[..|h| - 1], h[|h| - 1];
      assert h == ys + [x];
      FullOneMore(ys, x, len);
      FullRunBuckets(ys, len);
      NextBuckets(ys, x, FullEmissions(ys, len), Closing(h, LastEnd(ys, len), x, len), len);
    }
  }

  /** The capped buffer closes the same buckets. */
  lemma {:induction false} SameEnds(h: seq<RawSample>, cap: nat, len: nat)
    requires Rising(h) && 0 < len
    ensures |Emissions(h, cap, len)| == |FullEmissions(h, len)|
    ensures forall k :: 0 <= k < |FullEmissions(h, len)| ==>
      Emissions(h, cap, len)[k].end == FullEmissions(h, len)[k].end
  {
    if h != [] { SameEnds(h[..|h| - 1], cap, len); }
  }

  lemma SameBuckets(h: seq<RawSample>, out: seq<Emission>, other: seq<Emission>, len: nat)
    requires 0 < len && OncePerClosedBucket(h, out, len)
    requires |other| == |out| && forall k :: 0 <= k < |out| ==> other[k].end == out[k].end
    ensures OncePerClosedBucket(h, other, len)
  {
    forall end ensures IsEmitted(other, end) <==> IsEmitted(out, end) {}
  }

  lemma CappedRunBuckets(h: seq<RawSample>, cap: nat, len: nat)
    requires Rising(h) && 0 < len
    ensures OncePerClosedBucket(h, Emissions(h, cap, len), len)
  {
    FullRunBuckets(h, len);
    SameEnds(h, cap, len);
    SameBuckets(h, FullEmissions(h, len), Emissions(h, cap, len), len);
  }

  // ---------------------------------------------------------------- the rates

  /** A sample past the bucket is there: what comes later makes no difference to the bucket. */
  ghost predicate Passed(ys: seq<RawSample>, end: int) { ys != [] && end < ys[|ys| - 1].ts }

  lemma BelowOfPrefix(ys: seq<RawSample>, x: RawSample, b: int)
    requires Rising(ys + [x]) && ys != [] && b <= ys[|ys| - 1].ts
    ensures Rising(ys) && Below(ys + [x], b) == Below(ys, b) < |ys|
  {
    RisesOneMore(ys, x);
    BelowIsUnique(ys + [x], b, Below(ys, b));
  }

  lemma CountsOfPrefix(ys: seq<RawSample>, x: RawSample, end: int, len: int)
    requires Rising(ys + [x]) && Passed(ys, end) && 0 < len
    ensures Rising(ys)
    ensures Below(ys + [x], end - len + 1) == Below(ys, end - len + 1) < |ys|
    ensures Below(ys + [x], end) == Below(ys, end) < |ys|
    ensures Below(ys + [x], end + 1) == Below(ys, end + 1) < |ys|
    ensures Below(ys, end - len + 1) <= Below(ys, end)
  {
    BelowOfPrefix(ys, x, end - len + 1);
    BelowOfPrefix(ys, x, end);
    BelowOfPrefix(ys, x, end + 1);
    BelowRises(ys, end - len + 1, end);
  }

  lemma AtOfPrefix(ys: seq<RawSample>, x: RawSample, b: int, len: int)
    requires Rising(ys + [x]) && ys != [] && b <= ys[|ys| - 1].ts
    ensures Rising(ys) && At(ys + [x], b, len) == At(ys, b, len)
  {
    BelowOfPrefix(ys, x, b);
  }

  lemma InsideOfPrefix(ys: seq<RawSample>, x: RawSample, end: int, len: int)
    requires Rising(ys + [x]) && Passed(ys, end) && 0 < len
    ensures Rising(ys) && Inside(ys + [x], end, len) == Inside(ys, end, len)
    ensures HasInside(ys + [x], end, len) <==> HasInside(ys, end, len)
  {
    CountsOfPrefix(ys, x, end, len);
    assert (ys + [x])[Below(ys, end - len + 1)..Below(ys, end)] == ys[Below(ys, end - len + 1)..Below(ys, end)];
  }

  lemma StartOfPrefix(ys: seq<RawSample>, x: RawSample, end: int, len: int)
    requires Rising(ys + [x]) && Passed(ys, end) && 0 < len
    ensures Rising(ys) && At(ys + [x], end - len, len) == At(ys, end - len, len)
  {
    AtOfPrefix(ys, x, end - len, len);
  }

  lemma PointsOfPrefix(ys: seq<RawSample>, x: RawSample, end: int, len: int)
    requires Rising(ys + [x]) && Passed(ys, end) && 0 < len
    ensures Rising(ys) && BucketPoints(ys + [x], end, len) == BucketPoints(ys, end, len)
  {
    StartOfPrefix(ys, x, end, len);
    AtOfPrefix(ys, x, end, len);
    InsideOfPrefix(ys, x, end, len);
    SamePoints(ys + [x], ys, end, len);
  }

  lemma ScanOfPrefix(ys: seq<RawSample>, x: RawSample, end: int, len: int)
    requires Rising(ys + [x]) && Passed(ys, end) && 0 < len
    ensures Rising(ys)
    ensures HasOpening(ys + [x], end, len) <==> HasOpening(ys, end, len)
    ensures HasClosing(ys + [x], end, len) <==> HasClosing(ys, end, len)
    ensures HasOpening(ys, end, len) && HasClosing(ys, end, len) ==>
      (NoReset(ys + [x], end, len) <==> NoReset(ys, end, len))
  {
    CountsOfPrefix(ys, x, end, len);
    var h := ys + [x];
    assert forall i :: 0 <= i < |ys| ==> h[i] == ys[i];
  }

  lemma CounterOfPrefix(ys: seq<RawSample>, x: RawSample, end: int, len: int)
    requires Rising(ys + [x]) && Passed(ys, end) && 0 < len
    ensures Rising(ys) && CounterOf(ys + [x], end, len) == CounterOf(ys, end, len)
  {
    ScanOfPrefix(ys, x, end, len);
    PointsOfPrefix(ys, x, end, len);
  }

  ghost predicate RatesOf(h: seq<RawSample>, out: seq<Emission>, len: nat)
    requires Rising(h)
  {
    forall k :: 0 <= k < |out| ==> out[k].rate == CounterOf(h, out[k].end, len)
  }

  lemma RatesStay(ys: seq<RawSample>, x: RawSample, out: seq<Emission>, len: nat)
    requires Rising(ys + [x]) && 0 < len && Rising(ys) && RatesOf(ys, out, len)
    requires ys == [] ==> out == []
    requires ys != [] ==> EndsBefore(out, End(ys[|ys| - 1], len))
    requires ys != [] ==> forall k :: 0 <= k < |out| ==> Passed(ys, out[k].end)
    ensures RatesOf(ys + [x], out, len)
  {
    forall k | 0 <= k < |out| ensures out[k].rate == CounterOf(ys + [x], out[k].end, len) {
      CounterOfPrefix(ys, x, out[k].end, len);
    }
  }

  /** An end before a sample's own bucket end lies before the sample, if it is an end at all. */
  lemma EndIsPassed(x: RawSample, y: RawSample, len: nat)
    requires 0 < len && End(x, len) < End(y, len)
    ensures End(x, len) < y.ts
  {
    if y.ts <= x.ts { BucketEndRises(y.ts, x.ts, len); } else { BucketEndRises(x.ts, y.ts, len); }
  }

  lemma EmittedIsPassed(h: seq<RawSample>, out: seq<Emission>, len: nat, k: nat)
    requires Rising(h) && 0 < len && OncePerClosedBucket(h, out, len) && k < |out|
    ensures Passed(h, out[k].end)
  {
    assert IsEmitted(out, out[k].end);
    var i :| ClosedAt(h, len, i, out[k].end);
    EndIsPassed(h[i - 1], h[i], len);
  }

  lemma {:induction false} FullRunRates(h: seq<RawSample>, len: nat)
    requires Rising(h) && 0 < len
    ensures RatesOf(h, FullEmissions(h, len), len)
  {
    if h != [] {
      var ys, x := h[..|h| - 1], h[|h| - 1];
      assert h == ys + [x];
      FullOneMore(ys, x, len);
      FullRunRates(ys, len);
      FullRunBuckets(ys, len);
      var out := FullEmissions(ys, len);
      forall k | 0 <= k < |out| ensures Passed(ys, out[k].end) { EmittedIsPassed(ys, out, len, k); }
      RatesStay(ys, x, out, len);
    }
  }

  lemma RateIsDue(h: seq<RawSample>, end: int, len: nat)
    requires Rising(h) && 0 < len
    ensures RateDue(h, end, len, CounterOf(h, end, len))
  {
    CounterDefined(h, end, len);
  }

  /** What one sample emits: the bucket seen last, with its rate, if the sample lies past it. */
  ghost predicate EmitsClosed(samples: seq<RawSample>, last: Option<int>, x: RawSample, len: nat, out: seq<Emission>)
    requires Rising(samples) && 0 < len
  {
    if last.Some? && last.value < BucketEnd(x.ts, len) then
      |out| == 1 && out[0].end == last.value && RateDue(samples, last.value, len, out[0].rate)
    else out == []
  }

  lemma ClosingMeans(samples: seq<RawSample>, last: Option<int>, x: RawSample, len: nat)
    requires Rising(samples) && 0 < len
    ensures EmitsClosed(samples, last, x, len, Closing(samples, last, x, len))
  {
    if last.Some? { RateIsDue(samples, last.value, len); }
  }

  /** Over the full history a bucket has a rate exactly when it is covered, free of resets and fits. */
  lemma FullRunMeans(h: seq<RawSample>, len: nat)
    requires Rising(h) && 0 < len
    ensures OncePerClosedBucket(h, FullEmissions(h, len), len) && RatesDue(h, FullEmissions(h, len), len)
  {
    FullRunBuckets(h, len);
    FullRunRates(h, len);
    var out := FullEmissions(h, len);
    forall k | 0 <= k < |out| ensures RateDue(h, out[k].end, len, out[k].rate) { RateIsDue(h, out[k].end, len); }
  }

  // ---------------------------------------------------------------- a series without gaps or resets

  /** No bucket between a sample's and the next one's. */
  ghost predicate Unskipped(h: seq<RawSample>, len: nat)
    requires 0 < len
  {
    forall i, j :: 0 <= i < j < |h| && j == i + 1 ==> End(h[j], len) <= End(h[i], len) + len
  }

  lemma EndIsNear(x: RawSample, end: int, len: nat)
    requires 0 < len && IsEnd(end, len) && end - len < x.ts <= end
    ensures End(x, len) == end
  {
    EndCovers(x.ts, len, end);
  }

  lemma EarlierEnd(x: RawSample, end: int, len: nat)
    requires 0 < len && IsEnd(end, len) && End(x, len) < end
    ensures x.ts <= end - len
  {
    BucketEndIsEnd(x.ts, len);
    BucketEndRises(End(x, len), end, len);
  }

  lemma OpeningThere(h: seq<RawSample>, len: nat, end: int, i: nat)
    requires Rising(h) && 0 < len && Unskipped(h, len) && IsEnd(end, len) && h != [] && h[0].ts <= end - len
    requires i < |h| && end - len < h[i].ts <= end
    ensures HasOpening(h, end, len) && HasInside(h, end, len)
  {
    var k := Below(h, end - len + 1);
    assert 0 < k <= i < Below(h, end + 1);
    assert h[k].ts <= h[i].ts;
    EndIsNear(h[k], end, len);
    assert End(h[k], len) <= End(h[k - 1], len) + len;
  }

  lemma ClosingThere(h: seq<RawSample>, len: nat, i: nat, end: int)
    requires Rising(h) && 0 < len && Unskipped(h, len) && ClosedAt(h, len, i, end)
    ensures HasClosing(h, end, len)
  {
    EndIsPassed(h[i - 1], h[i], len);
    var k := Below(h, end);
    assert k <= i && h[k].ts <= h[i].ts;
    assert End(h[i], len) <= End(h[i - 1], len) + len;
  }

  /** Where no bucket was skipped, a closed bucket is covered unless it is the first. */
  lemma ClosedIsCovered(h: seq<RawSample>, len: nat, i: nat, end: int)
    requires Rising(h) && 0 < len && Unskipped(h, len) && ClosedAt(h, len, i, end)
    ensures Covered(h, end, len) <==> End(h[0], len) < end
  {
    BucketEndIsEnd(h[i - 1].ts, len);
    if End(h[0], len) < end {
      EarlierEnd(h[0], end, len);
      OpeningThere(h, len, end, i - 1);
      ClosingThere(h, len, i, end);
    } else {
      assert Below(h, end - len + 1) == 0;
    }
  }

  ghost predicate NeverFalls(h: seq<RawSample>) { forall i, j :: 0 <= i < j < |h| ==> h[i].value <= h[j].value }

  /** No rate over any bucket can overflow. */
  predicate RatesFit(h: seq<RawSample>, len: nat) {
    h != [] ==> (h[|h| - 1].value as int - h[0].value as int) * 1_000_000 <= U64_MAX * len
  }

  lemma RiseWithinRun(h: seq<RawSample>, end: int, len: nat)
    requires Rising(h) && NeverFalls(h) && Covered(h, end, len)
    ensures CounterRise(h, end, len) <= Val(h[|h| - 1]) - Val(h[0])
  {
    var lo, hi := Val(h[0]), Val(h[|h| - 1]);
    BelowRises(h, end - len + 1, end);
    forall i | Below(h, end - len + 1) - 1 <= i <= Below(h, end) ensures lo <= Val(h[i]) <= hi {
      assert 0 < i ==> h[0].value <= h[i].value;
      assert i < |h| - 1 ==> h[i].value <= h[|h| - 1].value;
    }
    StartInRange(h, end, len, lo, hi);
    EndInRange(h, end, len, lo, hi);
  }

  lemma ScaledRiseFits(rise: real, total: int, len: nat)
    requires 0 < len && rise <= total as real && total * 1_000_000 <= U64_MAX * len
    ensures rise * 1000.0 * 1000.0 / len as real <= U64_MAX as real
  {
    var d := len as real;
    assert rise * 1000.0 * 1000.0 <= (total * 1_000_000) as real <= (U64_MAX * len) as real == U64_MAX as real * d;
    QuotientAtMost(rise * 1000.0 * 1000.0, U64_MAX as real, d);
  }

  lemma QuotientAtMost(x: real, q: real, d: real)
    requires d > 0.0 && x <= q * d
    ensures x / d <= q
  {
    var r := x / d;
    assert r * d == x;
    if r > q { ProductPositive(r - q, d); }
  }

  lemma ProductPositive(a: real, b: real)
    requires a > 0.0 && b > 0.0
    ensures a * b > 0.0
  {
  }

  /** Then a bucket has its rate exactly when it is not the first. */
  lemma RateUnlessFirst(h: seq<RawSample>, len: nat, i: nat, end: int, rate: Option<u64>)
    requires Rising(h) && 0 < len && Unskipped(h, len) && NeverFalls(h) && RatesFit(h, len)
    requires ClosedAt(h, len, i, end) && RateDue(h, end, len, rate)
    ensures rate.Some? <==> End(h[0], len) < end
  {
    ClosedIsCovered(h, len, i, end);
    if Covered(h, end, len) {
      RiseWithinRun(h, end, len);
      ScaledRiseFits(CounterRise(h, end, len), h[|h| - 1].value as int - h[0].value as int, len);
    }
  }

  lemma {:induction false} EndsAreNotBefore(h: seq<RawSample>, len: nat, i: nat)
    requires Rising(h) && 0 < len && i < |h|
    ensures End(h[0], len) <= End(h[i], len)
  {
    if 0 < i { BucketEndRises(h[0].ts, h[i].ts, len); }
  }

  lemma {:induction false} FirstClosed(h: seq<RawSample>, len: nat, i: nat)
    requires Rising(h) && 0 < len && i < |h| && End(h[0], len) < End(h[i], len)
    ensures IsClosed(h, len, End(h[0], len))
  {
    if End(h[0], len) < End(h[i - 1], len) {
      FirstClosed(h, len, i - 1);
    } else {
      EndsAreNotBefore(h, len, i - 1);
      assert ClosedAt(h, len, i, End(h[0], len));
    }
  }

  lemma {:induction false} EndsRise(out: seq<Emission>, j: nat, k: nat)
    requires (forall i :: 0 <= i < |out| - 1 ==> out[i].end < out[i + 1].end) && j < k < |out|
    ensures out[j].end < out[k].end
  {
    if j < k - 1 { EndsRise(out, j, k - 1); }
  }

  /** The first emission is the first sample's bucket, and no other one is. */
  lemma OnlyFirstIsFirst(h: seq<RawSample>, out: seq<Emission>, len: nat, k: nat)
    requires Rising(h) && 0 < len && OncePerClosedBucket(h, out, len) && k < |out|
    ensures h != [] && (End(h[0], len) < out[k].end <==> 0 < k)
  {
    var i := EmittedEnd(h, out, len, k);
    var i0 := EmittedEnd(h, out, len, 0);
    FirstClosed(h, len, i);
    var j :| 0 <= j < |out| && out[j].end == End(h[0], len);
    if 0 < j { EndsRise(out, 0, j); }
    if 0 < k { EndsRise(out, 0, k); }
  }

  lemma {:induction false} EveryEndClosed(h: seq<RawSample>, len: nat, end: int, i: nat)
    requires Rising(h) && 0 < len && Unskipped(h, len) && IsEnd(end, len) && i < |h|
    requires End(h[0], len) <= end < End(h[i], len)
    ensures IsClosed(h, len, end)
  {
    if end < End(h[i - 1], len) {
      EveryEndClosed(h, len, end, i - 1);
    } else {
      assert End(h[i], len) <= End(h[i - 1], len) + len;
      BucketEndIsEnd(h[i - 1].ts, len);
      EndsApart(End(h[i - 1], len), end, len);
      assert ClosedAt(h, len, i, end);
    }
  }

  lemma EndsApart(a: int, b: int, len: nat)
    requires 0 < len && IsEnd(a, len) && IsEnd(b, len) && a <= b < a + len
    ensures a == b
  {
    BucketEndRises(a, b, len);
  }

  lemma NoneBetween(out: seq<Emission>, k: nat, end: int)
    requires (forall i :: 0 <= i < |out| - 1 ==> out[i].end < out[i + 1].end) && k + 1 < |out|
    requires out[k].end < end < out[k + 1].end
    ensures !IsEmitted(out, end)
  {
    if IsEmitted(out, end) {
      var m :| 0 <= m < |out| && out[m].end == end;
      if m < k { EndsRise(out, m, k); }
      if k + 1 < m { EndsRise(out, k + 1, m); }
    }
  }

  lemma EmittedEnd(h: seq<RawSample>, out: seq<Emission>, len: nat, k: nat) returns (i: nat)
    requires Rising(h) && 0 < len && OncePerClosedBucket(h, out, len) && k < |out|
    ensures ClosedAt(h, len, i, out[k].end) && IsEnd(out[k].end, len) && End(h[0], len) <= out[k].end
  {
    assert IsEmitted(out, out[k].end);
    i :| ClosedAt(h, len, i, out[k].end);
    BucketEndIsEnd(h[i - 1].ts, len);
    EndsAreNotBefore(h, len, i - 1);
  }

  lemma NextEmission(h: seq<RawSample>, out: seq<Emission>, len: nat, k: nat)
    requires Rising(h) && 0 < len && Unskipped(h, len) && OncePerClosedBucket(h, out, len) && k + 1 < |out|
    ensures out[k + 1].end == out[k].end + len
  {
    var i := EmittedEnd(h, out, len, k);
    var j := EmittedEnd(h, out, len, k + 1);
    var next := out[k].end + len;
    BucketEndShifts(out[k].end, len);
    if out[k + 1].end < next { EndsApart(out[k].end, out[k + 1].end, len); }
    if next < out[k + 1].end {
      EveryEndClosed(h, len, next, j);
      NoneBetween(out, k, next);
    }
  }

  /** A rate for every bucket after the first, bucket after bucket. */
  ghost predicate HasEveryRate(out: seq<Emission>, len: nat) {
    && (forall k :: 0 <= k < |out| ==> (out[k].rate.Some? <==> 0 < k))
    && (out != [] ==> Consecutive(out[1..], len))
  }

  /** A series with a sample in every bucket that never falls has every rate, so that its conservation speaks of the
      whole run. */
  lemma UnbrokenSeriesHasRates(h: seq<RawSample>, out: seq<Emission>, len: nat)
    requires Rising(h) && 0 < len && Unskipped(h, len) && NeverFalls(h) && RatesFit(h, len)
    requires OncePerClosedBucket(h, out, len) && RatesDue(h, out, len)
    ensures HasEveryRate(out, len)
  {
    forall k | 0 <= k < |out| ensures out[k].rate.Some? <==> 0 < k {
      var i := EmittedEnd(h, out, len, k);
      RateUnlessFirst(h, len, i, out[k].end, out[k].rate);
      OnlyFirstIsFirst(h, out, len, k);
    }
    forall k | 0 <= k < |out| - 1 ensures out[k + 1].end == out[k].end + len { NextEmission(h, out, len, k); }
  }
}
