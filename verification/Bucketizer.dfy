/** What a closed bucket's value is, as a function of the rising samples of one series. */
module Bucketizer {
  import opened Prelude

  const U64_MAX: int := 0xffff_ffff_ffff_ffff

  newtype u64 = x: int | 0 <= x <= U64_MAX

  datatype RawSample = RawSample(ts: int, value: u64)

  function Val(s: RawSample): real { (s.value as int) as real }

  predicate Rising(s: seq<RawSample>) { forall i, j :: 0 <= i < j < |s| ==> s[i].ts < s[j].ts }

  /** How many samples lie before instant `b`. */
  function Below(s: seq<RawSample>, b: int): (k: nat)
    requires Rising(s)
    ensures k <= |s|
    ensures forall i :: 0 <= i < k ==> s[i].ts < b
    ensures forall i :: k <= i < |s| ==> b <= s[i].ts
  {
    if s == [] || s[0].ts >= b then 0
    else
      var k := 1 + Below(s[1..], b);
      assert forall i :: 0 < i < |s| ==> s[i] == s[1..][i - 1];
      k
  }

  lemma BelowIsUnique(s: seq<RawSample>, b: int, k: nat)
    requires Rising(s) && k <= |s|
    requires k > 0 ==> s[k - 1].ts < b
    requires k < |s| ==> b <= s[k].ts
    ensures Below(s, b) == k
  {
  }

  /** Value at `b` on the segment from `l` to `r`. */
  function Lerp(l: RawSample, r: RawSample, b: int): real
    requires l.ts < b < r.ts
  {
    Val(l) + (b - l.ts) as real / (r.ts - l.ts) as real * (Val(r) - Val(l))
  }

  /** A boundary value: an exact sample, or the segment between neighbours in `(lo, b)` and `(b, hi]`. */
  function Boundary(s: seq<RawSample>, b: int, lo: int, hi: int): Option<real>
    requires Rising(s)
  {
    var k := Below(s, b);
    if k < |s| && s[k].ts == b then Some(Val(s[k]))
    else if 0 < k && lo < s[k - 1].ts && k < |s| && s[k].ts <= hi then Some(Lerp(s[k - 1], s[k], b))
    else None
  }

  /** The value of the series at a bucket boundary, from the two buckets that meet there. */
  function At(s: seq<RawSample>, b: int, len: int): Option<real>
    requires Rising(s)
  {
    Boundary(s, b, b - len, b + len)
  }

  /** Index of the opening neighbour: the last sample at or before the start, if it is near enough. */
  predicate HasOpening(s: seq<RawSample>, end: int, len: int)
    requires Rising(s)
  {
    var k := Below(s, end - len + 1);
    0 < k && end - 2 * len < s[k - 1].ts
  }

  predicate HasClosing(s: seq<RawSample>, end: int, len: int)
    requires Rising(s)
  {
    var k := Below(s, end);
    k < |s| && s[k].ts <= end + len
  }

  predicate HasInside(s: seq<RawSample>, end: int, len: int)
    requires Rising(s)
  {
    Below(s, end - len + 1) < Below(s, end + 1)
  }

  predicate Covered(s: seq<RawSample>, end: int, len: int)
    requires Rising(s)
  {
    0 < len && HasOpening(s, end, len) && HasClosing(s, end, len) && HasInside(s, end, len)
  }

  /** Every sample the bucket uses, from its opening to its closing neighbour, has a value in `[lo, hi]`. */
  predicate UsedWithin(s: seq<RawSample>, end: int, len: int, lo: real, hi: real)
    requires Rising(s) && Covered(s, end, len)
  {
    forall i :: Below(s, end - len + 1) - 1 <= i <= Below(s, end) ==> lo <= Val(s[i]) <= hi
  }

  datatype Point = Point(ts: int, value: real)

  function ToPoints(s: seq<RawSample>): seq<Point> { seq(|s|, i requires 0 <= i < |s| => Point(s[i].ts, Val(s[i]))) }

  /** The raw samples strictly between the boundaries. */
  function Inside(s: seq<RawSample>, end: int, len: int): seq<RawSample>
    requires Rising(s) && 0 < len
  {
    BelowRises(s, end - len + 1, end);
    s[Below(s, end - len + 1)..Below(s, end)]
  }

  function Polyline(start: int, first: Option<real>, inner: seq<RawSample>, end: int,
                    last: Option<real>): Option<seq<Point>> {
    if first.None? || last.None? then None
    else Some([Point(start, first.value)] + ToPoints(inner) + [Point(end, last.value)])
  }

  /** Both boundary points and every raw sample strictly between them. */
  function BucketPoints(s: seq<RawSample>, end: int, len: int): Option<seq<Point>>
    requires Rising(s) && 0 < len
  {
    if !HasInside(s, end, len) then None
    else Polyline(end - len, At(s, end - len, len), Inside(s, end, len), end, At(s, end, len))
  }

  lemma BelowRises(s: seq<RawSample>, a: int, b: int)
    requires Rising(s) && a <= b
    ensures Below(s, a) <= Below(s, b)
  {
  }

  function Trapezoid(l: Point, r: Point): real { (l.value + r.value) * 0.5 * (r.ts - l.ts) as real }

  /** Area under the polyline. */
  function Integral(p: seq<Point>): real {
    if |p| < 2 then 0.0 else Trapezoid(p[0], p[1]) + Integral(p[1..])
  }

  function RoundToU64(x: real): Option<u64> {
    if x < 0.0 || x > U64_MAX as real then None else Some((x + 0.5).Floor as u64)
  }

  function GaugeOf(s: seq<RawSample>, end: int, len: int): Option<u64>
    requires Rising(s)
  {
    if s == [] || len <= 0 then None
    else
      match BucketPoints(s, end, len)
      case None => None
      case Some(p) => RoundToU64(Integral(p) / len as real)
  }

  /** No sample from the opening to the closing neighbour is below its predecessor. */
  predicate NoReset(s: seq<RawSample>, end: int, len: int)
    requires Rising(s) && HasOpening(s, end, len) && HasClosing(s, end, len)
  {
    forall i :: Below(s, end - len + 1) - 1 <= i < Below(s, end) ==> s[i].value <= s[i + 1].value
  }

  function SlopeOf(p: seq<Point>, len: int): Option<u64>
    requires p != [] && 0 < len
  {
    var rise := p[|p| - 1].value - p[0].value;
    if rise < 0.0 then None else RoundToU64(rise * 1000.0 * 1000.0 / len as real)
  }

  /** Slope between the boundary values in thousandths of a unit per second; a reset rejects the bucket. */
  function CounterOf(s: seq<RawSample>, end: int, len: int): Option<u64>
    requires Rising(s)
  {
    if s == [] || len <= 0 || !HasOpening(s, end, len) || !HasClosing(s, end, len) then None
    else if !NoReset(s, end, len) then None
    else
      match BucketPoints(s, end, len)
      case None => None
      case Some(p) => SlopeOf(p, len)
  }

  // ---------------------------------------------------------------- interpolation stays in range

  lemma LerpBetween(l: RawSample, r: RawSample, b: int, lo: real, hi: real)
    requires l.ts < b < r.ts && lo <= Val(l) <= hi && lo <= Val(r) <= hi
    ensures lo <= Lerp(l, r, b) <= hi
  {
    var alpha := (b - l.ts) as real / (r.ts - l.ts) as real;
    assert 0.0 <= alpha <= 1.0;
    assert Lerp(l, r, b) == (1.0 - alpha) * Val(l) + alpha * Val(r);
    Mix(alpha, Val(l), Val(r), lo, hi);
  }

  lemma ProductNotNegative(a: real, b: real)
    requires a >= 0.0 && b >= 0.0
    ensures a * b >= 0.0
  {
  }

  lemma Mix(alpha: real, x: real, y: real, lo: real, hi: real)
    requires 0.0 <= alpha <= 1.0 && lo <= x <= hi && lo <= y <= hi
    ensures lo <= (1.0 - alpha) * x + alpha * y <= hi
  {
    ProductNotNegative(1.0 - alpha, x - lo);
    ProductNotNegative(alpha, y - lo);
    ProductNotNegative(1.0 - alpha, hi - x);
    ProductNotNegative(alpha, hi - y);
    assert (1.0 - alpha) * x + alpha * y - lo == (1.0 - alpha) * (x - lo) + alpha * (y - lo);
    assert hi - ((1.0 - alpha) * x + alpha * y) == (1.0 - alpha) * (hi - x) + alpha * (hi - y);
  }

  /** A bucket has points exactly when an opening, a closing and an inside sample exist. */
  lemma CoveredHasPoints(s: seq<RawSample>, end: int, len: int)
    requires Rising(s) && 0 < len
    ensures Covered(s, end, len) <==> BucketPoints(s, end, len).Some?
  {
    var start := end - len;
    BelowRises(s, start, start + 1);
    BelowRises(s, start + 1, end);
    BelowRises(s, end, end + 1);
  }

  lemma StartInRange(s: seq<RawSample>, end: int, len: int, lo: real, hi: real)
    requires Rising(s) && Covered(s, end, len) && UsedWithin(s, end, len, lo, hi)
    ensures At(s, end - len, len).Some? && lo <= At(s, end - len, len).value <= hi
  {
    CoveredHasPoints(s, end, len);
    var k := Below(s, end - len);
    if k < |s| && s[k].ts == end - len {
      BelowIsUnique(s, end - len + 1, k + 1);
    } else {
      BelowIsUnique(s, end - len + 1, k);
      LerpBetween(s[k - 1], s[k], end - len, lo, hi);
    }
  }

  lemma EndInRange(s: seq<RawSample>, end: int, len: int, lo: real, hi: real)
    requires Rising(s) && Covered(s, end, len) && UsedWithin(s, end, len, lo, hi)
    ensures At(s, end, len).Some? && lo <= At(s, end, len).value <= hi
  {
    CoveredHasPoints(s, end, len);
    var k := Below(s, end);
    if !(k < |s| && s[k].ts == end) {
      LerpBetween(s[k - 1], s[k], end, lo, hi);
    }
  }

  predicate PointsWithin(p: seq<Point>, lo: real, hi: real) { forall i :: 0 <= i < |p| ==> lo <= p[i].value <= hi }

  predicate PointsRise(p: seq<Point>) { forall i :: 0 <= i < |p| - 1 ==> p[i].ts < p[i + 1].ts }

  lemma InsideInRange(s: seq<RawSample>, end: int, len: int, lo: real, hi: real)
    requires Rising(s) && Covered(s, end, len) && UsedWithin(s, end, len, lo, hi)
    ensures PointsWithin(ToPoints(Inside(s, end, len)), lo, hi)
  {
    var a, inner := Below(s, end - len + 1), Inside(s, end, len);
    assert forall i :: 0 <= i < |inner| ==> inner[i] == s[a + i];
  }

  lemma InsideRises(s: seq<RawSample>, end: int, len: int)
    requires Rising(s) && 0 < len
    ensures PointsRise(ToPoints(Inside(s, end, len)))
    ensures forall i :: 0 <= i < |Inside(s, end, len)| ==> end - len < Inside(s, end, len)[i].ts < end
  {
    BelowRises(s, end - len + 1, end);
    var a, inner := Below(s, end - len + 1), Inside(s, end, len);
    assert forall i :: 0 <= i < |inner| ==> inner[i] == s[a + i];
  }

  /** The points of a covered bucket rise strictly from its start to its end. */
  lemma BucketPointsRise(s: seq<RawSample>, end: int, len: int)
    requires Rising(s) && 0 < len && BucketPoints(s, end, len).Some?
    ensures var p := BucketPoints(s, end, len).value;
      |p| >= 2 && PointsRise(p) && p[0].ts == end - len && p[|p| - 1].ts == end
  {
    InsideRises(s, end, len);
  }

  /** They stay within the range of the samples the bucket uses. */
  lemma PointsInRange(s: seq<RawSample>, end: int, len: int, lo: real, hi: real)
    requires Rising(s) && Covered(s, end, len) && UsedWithin(s, end, len, lo, hi)
    ensures BucketPoints(s, end, len).Some? && PointsWithin(BucketPoints(s, end, len).value, lo, hi)
  {
    CoveredHasPoints(s, end, len);
    StartInRange(s, end, len, lo, hi);
    EndInRange(s, end, len, lo, hi);
    InsideInRange(s, end, len, lo, hi);
  }
}
