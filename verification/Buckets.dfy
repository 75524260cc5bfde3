/** Half-open buckets `(end - len, end]` on the millisecond axis. */
module Buckets {

  /** The end of the bucket holding `ts`, stepping whole buckets from the one that ends at zero. */
  function BucketEnd(ts: int, len: int): (end: int)
    requires 0 < len
    ensures end - len < ts <= end
    decreases if -len < ts <= 0 then 0 else if ts > 0 then ts else -ts
  {
    if -len < ts <= 0 then 0
    else if ts > 0 then BucketEnd(ts - len, len) + len
    else BucketEnd(ts + len, len) - len
  }

  /** The closed form the source computes, for positive and negative instants alike. */
  lemma {:induction false} BucketEndIsRoundedUp(ts: int, len: int)
    requires 0 < len
    ensures BucketEnd(ts, len) == -((-ts) / len) * len
    decreases if -len < ts <= 0 then 0 else if ts > 0 then ts else -ts
  {
    if -len < ts <= 0 {
      QuotientIs(-ts, len, 0);
    } else if ts > 0 {
      BucketEndIsRoundedUp(ts - len, len);
      QuotientShifts(-ts, len);
    } else {
      BucketEndIsRoundedUp(ts + len, len);
      QuotientShifts(-ts - len, len);
    }
  }

  lemma QuotientIs(a: int, len: int, q: int)
    requires 0 < len && q * len <= a < q * len + len
    ensures a / len == q
  {
    var d := a / len - q;
    assert d * len == (a / len) * len - q * len && (-d) * len == -(d * len);
    if d >= 1 { ProductAtLeast(d, len); }
    if d <= -1 { ProductAtLeast(-d, len); }
  }

  lemma ProductAtLeast(k: int, len: int)
    requires k >= 1 && 0 < len
    ensures k * len >= len
  {
  }

  lemma QuotientShifts(a: int, len: int)
    requires 0 < len
    ensures (a + len) / len == a / len + 1
    ensures -((a + len) / len) * len == -(a / len) * len - len
  {
    var q := a / len;
    assert (q + 1) * len == q * len + len;
    QuotientIs(a + len, len, q + 1);
    assert -(q + 1) * len == -q * len - len;
  }

  /** Whether a bucket ends at `e`. */
  predicate IsEnd(e: int, len: int) { 0 < len && BucketEnd(e, len) == e }

  lemma {:induction false} BucketEndIsEnd(ts: int, len: int)
    requires 0 < len
    ensures IsEnd(BucketEnd(ts, len), len)
    decreases if -len < ts <= 0 then 0 else if ts > 0 then ts else -ts
  {
    if -len < ts <= 0 {
    } else if ts > 0 {
      BucketEndIsEnd(ts - len, len);
      BucketEndShifts(BucketEnd(ts - len, len), len);
    } else {
      BucketEndIsEnd(ts + len, len);
      BucketEndShifts(BucketEnd(ts, len), len);
    }
  }

  /** One bucket later in, one bucket later out. */
  lemma BucketEndShifts(ts: int, len: int)
    requires 0 < len
    ensures BucketEnd(ts + len, len) == BucketEnd(ts, len) + len
  {
  }

  /** A bucket end is the end of every instant it covers. */
  lemma {:induction false} EndCovers(ts: int, len: int, end: int)
    requires IsEnd(end, len) && end - len < ts <= end
    ensures BucketEnd(ts, len) == end
    decreases if end >= 0 then end else -end
  {
    if end > 0 {
      BucketEndShifts(end - len, len);
      BucketEndShifts(ts - len, len);
      assert end >= len;
      EndCovers(ts - len, len, end - len);
    } else if end < 0 {
      BucketEndShifts(end, len);
      BucketEndShifts(ts, len);
      assert end <= -len;
      EndCovers(ts + len, len, end + len);
    }
  }

  /** Ends never fall back as time moves on, and move by at least a whole bucket. */
  lemma BucketEndRises(a: int, b: int, len: int)
    requires 0 < len && a <= b
    ensures BucketEnd(a, len) <= BucketEnd(b, len)
    ensures BucketEnd(a, len) < BucketEnd(b, len) ==>
      BucketEnd(a, len) <= BucketEnd(b, len) - len && BucketEnd(a, len) < b
  {
    var p, q := BucketEnd(a, len), BucketEnd(b, len);
    BucketEndIsEnd(a, len);
    BucketEndIsEnd(b, len);
    if p > q {
      EndCovers(a, len, q);
    } else if p < q && q - len < p {
      EndCovers(p, len, q);
    } else if p < q && b <= p {
      EndCovers(b, len, p);
    }
  }
}
