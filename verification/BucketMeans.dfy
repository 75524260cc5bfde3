/** What the gauge and counter values mean. */
module BucketMeans {
  import opened Prelude
  import opened Bucketizer

  /** Equal up to the rounding of the final conversion. */
  lemma RoundingKeepsIntegerBounds(x: real, lo: int, hi: int)
    requires 0 <= lo && hi <= U64_MAX && lo as real <= x <= hi as real
    ensures RoundToU64(x).Some? && lo <= RoundToU64(x).value as int <= hi
  {
  }

  lemma RoundingError(x: real)
    requires RoundToU64(x).Some?
    ensures x - 0.5 <= (RoundToU64(x).value as int) as real <= x + 0.5
  {
  }

  lemma ScaleBetween(lo: real, x: real, hi: real, d: real)
    requires lo <= x <= hi && d > 0.0
    ensures lo * d <= x * d <= hi * d
  {
    assert (x - lo) * d >= 0.0 && (hi - x) * d >= 0.0;
  }

  predicate AreaWithin(area: real, span: real, lo: real, hi: real) { lo * span <= area <= hi * span }

  lemma AreasJoin(a: real, d: real, b: real, e: real, lo: real, hi: real)
    requires AreaWithin(a, d, lo, hi) && AreaWithin(b, e, lo, hi)
    ensures AreaWithin(a + b, d + e, lo, hi)
  {
    assert lo * (d + e) == lo * d + lo * e && hi * (d + e) == hi * d + hi * e;
  }

  lemma TrapezoidWithin(l: Point, r: Point, lo: real, hi: real)
    requires lo <= l.value <= hi && lo <= r.value <= hi && l.ts < r.ts
    ensures AreaWithin(Trapezoid(l, r), (r.ts - l.ts) as real, lo, hi)
  {
    ScaleBetween(lo, (l.value + r.value) * 0.5, hi, (r.ts - l.ts) as real);
  }

  function Span(p: seq<Point>): real
    requires p != []
  {
    (p[|p| - 1].ts - p[0].ts) as real
  }

  lemma {:induction false} IntegralWithin(p: seq<Point>, lo: real, hi: real)
    requires p != [] && PointsRise(p) && PointsWithin(p, lo, hi)
    ensures AreaWithin(Integral(p), Span(p), lo, hi)
  {
    if |p| >= 2 {
      IntegralWithin(p[1..], lo, hi);
      TrapezoidWithin(p[0], p[1], lo, hi);
      AreasJoin(Trapezoid(p[0], p[1]), (p[1].ts - p[0].ts) as real, Integral(p[1..]), Span(p[1..]), lo, hi);
      assert Span(p) == (p[1].ts - p[0].ts) as real + Span(p[1..]);
    }
  }

  /** The exact mean, before rounding. */
  function GaugeMean(s: seq<RawSample>, end: int, len: int): real
    requires Rising(s) && Covered(s, end, len)
  {
    CoveredHasPoints(s, end, len);
    Integral(BucketPoints(s, end, len).value) / len as real
  }

  /** A gauge's mean lies between the least and greatest sample it uses, before and after rounding. */
  lemma GaugeBetweenSamples(s: seq<RawSample>, end: int, len: int, lo: nat, hi: nat)
    requires Rising(s) && Covered(s, end, len) && hi <= U64_MAX
    requires UsedWithin(s, end, len, lo as real, hi as real)
    ensures lo as real <= GaugeMean(s, end, len) <= hi as real
    ensures GaugeOf(s, end, len) == RoundToU64(GaugeMean(s, end, len))
    ensures GaugeOf(s, end, len).Some? && lo <= GaugeOf(s, end, len).value as int <= hi
  {
    PointsInRange(s, end, len, lo as real, hi as real);
    BucketPointsRise(s, end, len);
    var p := BucketPoints(s, end, len).value;
    IntegralWithin(p, lo as real, hi as real);
    assert Span(p) == len as real;
    MeanFromIntegral(Integral(p), len as real, lo as real, hi as real);
    RoundingKeepsIntegerBounds(GaugeMean(s, end, len), lo, hi);
  }

  lemma MeanFromIntegral(area: real, d: real, lo: real, hi: real)
    requires d > 0.0 && AreaWithin(area, d, lo, hi)
    ensures lo <= area / d <= hi
  {
    assert area / d - lo == (area - lo * d) / d;
    assert hi - area / d == (hi * d - area) / d;
  }

  /** A gauge bucket has a value exactly when it is covered. */
  lemma GaugeDefined(s: seq<RawSample>, end: int, len: int)
    requires Rising(s)
    ensures GaugeOf(s, end, len).Some? <==> Covered(s, end, len)
  {
    if 0 < len {
      CoveredHasPoints(s, end, len);
      if Covered(s, end, len) {
        GaugeBetweenSamples(s, end, len, 0, U64_MAX);
      }
    }
  }

  // ---------------------------------------------------------------- the mean is the area under the line

  function Line(a: real, c: real, x: real): real { a + c * x }

  /** Area under the line between two instants: the width times the value halfway. */
  function LineArea(a: real, c: real, x: real, y: real): real { (y - x) * Line(a, c, (x + y) * 0.5) }

  predicate OnLine(p: seq<Point>, a: real, c: real) {
    forall i :: 0 <= i < |p| ==> p[i].value == Line(a, c, p[i].ts as real)
  }

  lemma TrapezoidOnLine(a: real, c: real, l: Point, r: Point)
    requires l.value == Line(a, c, l.ts as real) && r.value == Line(a, c, r.ts as real)
    ensures Trapezoid(l, r) == LineArea(a, c, l.ts as real, r.ts as real)
  {
  }

  lemma LineAreasJoin(a: real, c: real, x: real, y: real, z: real)
    ensures LineArea(a, c, x, y) + LineArea(a, c, y, z) == LineArea(a, c, x, z)
  {
  }

  /** Along a line the area does not depend on the samples that subdivide it. */
  lemma {:induction false} IntegralOfLine(p: seq<Point>, a: real, c: real)
    requires p != [] && OnLine(p, a, c)
    ensures Integral(p) == LineArea(a, c, p[0].ts as real, p[|p| - 1].ts as real)
  {
    if |p| >= 2 {
      var x, m, y := p[0].ts as real, p[1].ts as real, p[|p| - 1].ts as real;
      IntegralOfLine(p[1..], a, c);
      TrapezoidOnLine(a, c, p[0], p[1]);
      LineAreasJoin(a, c, x, m, y);
    }
  }

  predicate UsedOnLine(s: seq<RawSample>, end: int, len: int, a: real, c: real)
    requires Rising(s) && Covered(s, end, len)
  {
    forall i :: Below(s, end - len + 1) - 1 <= i <= Below(s, end) ==> Val(s[i]) == Line(a, c, s[i].ts as real)
  }

  lemma LerpOnLine(l: RawSample, r: RawSample, b: int, a: real, c: real)
    requires l.ts < b < r.ts && Val(l) == Line(a, c, l.ts as real) && Val(r) == Line(a, c, r.ts as real)
    ensures Lerp(l, r, b) == Line(a, c, b as real)
  {
    var x, y, z := l.ts as real, b as real, r.ts as real;
    assert Val(r) - Val(l) == c * (z - x);
    assert (y - x) / (z - x) * (c * (z - x)) == c * (y - x);
  }

  lemma StartOnLine(s: seq<RawSample>, end: int, len: int, a: real, c: real)
    requires Rising(s) && Covered(s, end, len)
    requires var k := Below(s, end - len + 1);
      k < |s| && Val(s[k - 1]) == Line(a, c, s[k - 1].ts as real) && Val(s[k]) == Line(a, c, s[k].ts as real)
    ensures At(s, end - len, len) == Some(Line(a, c, (end - len) as real))
  {
    CoveredHasPoints(s, end, len);
    var j := Below(s, end - len);
    if s[j].ts == end - len {
      BelowIsUnique(s, end - len + 1, j + 1);
    } else {
      BelowIsUnique(s, end - len + 1, j);
      LerpOnLine(s[j - 1], s[j], end - len, a, c);
    }
  }

  lemma EndOnLine(s: seq<RawSample>, end: int, len: int, a: real, c: real)
    requires Rising(s) && Covered(s, end, len)
    requires var k := Below(s, end);
      0 < k < |s| && Val(s[k - 1]) == Line(a, c, s[k - 1].ts as real) && Val(s[k]) == Line(a, c, s[k].ts as real)
    ensures At(s, end, len) == Some(Line(a, c, end as real))
  {
    CoveredHasPoints(s, end, len);
    var k := Below(s, end);
    if s[k].ts != end { LerpOnLine(s[k - 1], s[k], end, a, c); }
  }

  lemma BoundariesOnLine(s: seq<RawSample>, end: int, len: int, a: real, c: real)
    requires Rising(s) && Covered(s, end, len) && UsedOnLine(s, end, len, a, c)
    ensures At(s, end - len, len) == Some(Line(a, c, (end - len) as real))
    ensures At(s, end, len) == Some(Line(a, c, end as real))
  {
    BelowRises(s, end - len + 1, end);
    BelowRises(s, end, end + 1);
    StartOnLine(s, end, len, a, c);
    EndOnLine(s, end, len, a, c);
  }

  lemma PointsOnLine(s: seq<RawSample>, end: int, len: int, a: real, c: real)
    requires Rising(s) && Covered(s, end, len) && UsedOnLine(s, end, len, a, c)
    ensures BucketPoints(s, end, len).Some? && OnLine(BucketPoints(s, end, len).value, a, c)
  {
    CoveredHasPoints(s, end, len);
    BoundariesOnLine(s, end, len, a, c);
    var i, inner := Below(s, end - len + 1), Inside(s, end, len);
    assert forall k :: 0 <= k < |inner| ==> inner[k] == s[i + k];
  }

  lemma LineMean(a: real, c: real, x: real, d: real)
    requires d > 0.0
    ensures LineArea(a, c, x, x + d) / d == Line(a, c, x + d * 0.5)
  {
    assert (x + (x + d)) * 0.5 == x + d * 0.5;
  }

  /** A gauge that moves along a line has its value at the middle of the bucket, wherever it was sampled. */
  lemma GaugeExactOnLines(s: seq<RawSample>, end: int, len: int, a: real, c: real)
    requires Rising(s) && Covered(s, end, len) && UsedOnLine(s, end, len, a, c)
    ensures GaugeMean(s, end, len) == Line(a, c, (end - len) as real + len as real * 0.5)
  {
    PointsOnLine(s, end, len, a, c);
    BucketPointsRise(s, end, len);
    IntegralOfLine(BucketPoints(s, end, len).value, a, c);
    LineMean(a, c, (end - len) as real, len as real);
  }

  lemma {:induction false} IntegralSplit(p: seq<Point>, k: nat)
    requires k < |p|
    ensures Integral(p) == Integral(p[..k + 1]) + Integral(p[k..])
  {
    if k == 0 {
      assert p[0..] == p;
    } else {
      IntegralSplit(p[1..], k - 1);
      assert p[1..][..k] == p[..k + 1][1..] && p[1..][k - 1..] == p[k..];
    }
  }

  /** The samples used up to the `j`-th lie on one line, those from it on on another. */
  predicate BendsAt(s: seq<RawSample>, end: int, len: int, j: nat, a: real, c: real, b: real, d: real)
    requires Rising(s) && Covered(s, end, len)
  {
    && Below(s, end - len + 1) <= j < Below(s, end)
    && (forall i :: Below(s, end - len + 1) - 1 <= i <= j ==> Val(s[i]) == Line(a, c, s[i].ts as real))
    && forall i :: j <= i <= Below(s, end) ==> Val(s[i]) == Line(b, d, s[i].ts as real)
  }

  /** The inner samples up to the `k`-th lie on one line, those from it on on another. */
  predicate InnerBends(inner: seq<RawSample>, k: nat, a: real, c: real, b: real, d: real) {
    && 0 < k <= |inner|
    && (forall i :: 0 <= i < k ==> Val(inner[i]) == Line(a, c, inner[i].ts as real))
    && forall i :: k - 1 <= i < |inner| ==> Val(inner[i]) == Line(b, d, inner[i].ts as real)
  }

  lemma PolylineBends(start: int, inner: seq<RawSample>, end: int, k: nat, a: real, c: real, b: real, d: real)
    requires InnerBends(inner, k, a, c, b, d)
    ensures var p := Polyline(start, Some(Line(a, c, start as real)), inner, end, Some(Line(b, d, end as real))).value;
      && k < |p| - 1 && p[k].ts == inner[k - 1].ts && p[0].ts == start && p[|p| - 1].ts == end
      && OnLine(p[..k + 1], a, c) && OnLine(p[k..], b, d)
  {
  }

  lemma InnerOfBend(s: seq<RawSample>, end: int, len: int, j: nat, a: real, c: real, b: real, d: real)
    requires Rising(s) && Covered(s, end, len) && BendsAt(s, end, len, j, a, c, b, d)
    ensures var inner, k := Inside(s, end, len), 1 + j - Below(s, end - len + 1);
      InnerBends(inner, k, a, c, b, d) && inner[k - 1] == s[j]
  {
    var lo, inner := Below(s, end - len + 1), Inside(s, end, len);
    assert forall i :: 0 <= i < |inner| ==> inner[i] == s[lo + i];
  }

  lemma BoundariesOfBend(s: seq<RawSample>, end: int, len: int, j: nat, a: real, c: real, b: real, d: real)
    requires Rising(s) && Covered(s, end, len) && BendsAt(s, end, len, j, a, c, b, d)
    ensures At(s, end - len, len) == Some(Line(a, c, (end - len) as real))
    ensures At(s, end, len) == Some(Line(b, d, end as real))
  {
    StartOnLine(s, end, len, a, c);
    EndOnLine(s, end, len, b, d);
  }

  lemma BentPoints(s: seq<RawSample>, end: int, len: int, j: nat, a: real, c: real, b: real, d: real)
    requires Rising(s) && Covered(s, end, len) && BendsAt(s, end, len, j, a, c, b, d)
    ensures BucketPoints(s, end, len).Some?
    ensures var p, k := BucketPoints(s, end, len).value, 1 + j - Below(s, end - len + 1);
      && k < |p| - 1 && p[k].ts == s[j].ts && p[0].ts == end - len && p[|p| - 1].ts == end
      && OnLine(p[..k + 1], a, c) && OnLine(p[k..], b, d)
  {
    BoundariesOfBend(s, end, len, j, a, c, b, d);
    InnerOfBend(s, end, len, j, a, c, b, d);
    PolylineBends(end - len, Inside(s, end, len), end, 1 + j - Below(s, end - len + 1), a, c, b, d);
  }

  lemma AreaIs(p: seq<Point>, a: real, c: real, x: int, y: int)
    requires p != [] && OnLine(p, a, c) && p[0].ts == x && p[|p| - 1].ts == y
    ensures Integral(p) == LineArea(a, c, x as real, y as real)
  {
    IntegralOfLine(p, a, c);
  }

  lemma MeanOfParts(s: seq<RawSample>, end: int, len: int, p: seq<Point>, k: nat, u: real, v: real)
    requires Rising(s) && Covered(s, end, len) && BucketPoints(s, end, len) == Some(p) && k < |p|
    requires Integral(p[..k + 1]) == u && Integral(p[k..]) == v
    ensures GaugeMean(s, end, len) == (u + v) / len as real
  {
    IntegralSplit(p, k);
  }

  lemma PartsOfBend(s: seq<RawSample>, end: int, len: int, j: nat, a: real, c: real, b: real, d: real)
    requires Rising(s) && Covered(s, end, len) && BendsAt(s, end, len, j, a, c, b, d)
    ensures BucketPoints(s, end, len).Some?
    ensures var p, k := BucketPoints(s, end, len).value, 1 + j - Below(s, end - len + 1);
      && k < |p|
      && Integral(p[..k + 1]) == LineArea(a, c, (end - len) as real, s[j].ts as real)
      && Integral(p[k..]) == LineArea(b, d, s[j].ts as real, end as real)
  {
    BentPoints(s, end, len, j, a, c, b, d);
    var p, k := BucketPoints(s, end, len).value, 1 + j - Below(s, end - len + 1);
    AreaIs(p[..k + 1], a, c, end - len, s[j].ts);
    AreaIs(p[k..], b, d, s[j].ts, end);
  }

  /** A gauge that bends at a sample inside the bucket: the areas under both lines, shared over the whole bucket. */
  lemma GaugeExactOnBends(s: seq<RawSample>, end: int, len: int, j: nat, a: real, c: real, b: real, d: real)
    requires Rising(s) && Covered(s, end, len) && BendsAt(s, end, len, j, a, c, b, d)
    ensures var m := s[j].ts as real;
      GaugeMean(s, end, len) ==
        (LineArea(a, c, (end - len) as real, m) + LineArea(b, d, m, end as real)) / len as real
  {
    PartsOfBend(s, end, len, j, a, c, b, d);
    MeanOfParts(s, end, len, BucketPoints(s, end, len).value, 1 + j - Below(s, end - len + 1),
                LineArea(a, c, (end - len) as real, s[j].ts as real), LineArea(b, d, s[j].ts as real, end as real));
  }

  ghost predicate HasSampleIn(s: seq<RawSample>, from: int, to: int) {
    exists i :: 0 <= i < |s| && from <= s[i].ts <= to
  }

  lemma OpeningTold(s: seq<RawSample>, end: int, len: int)
    requires Rising(s) && 0 < len
    ensures HasOpening(s, end, len) <==> HasSampleIn(s, end - 2 * len + 1, end - len)
  {
    var k := Below(s, end - len + 1);
    if HasSampleIn(s, end - 2 * len + 1, end - len) {
      var i :| 0 <= i < |s| && end - 2 * len + 1 <= s[i].ts <= end - len;
      assert i < k && s[i].ts <= s[k - 1].ts;
    }
  }

  lemma ClosingTold(s: seq<RawSample>, end: int, len: int)
    requires Rising(s) && 0 < len
    ensures HasClosing(s, end, len) <==> HasSampleIn(s, end, end + len)
  {
    var k := Below(s, end);
    if HasSampleIn(s, end, end + len) {
      var i :| 0 <= i < |s| && end <= s[i].ts <= end + len;
      assert k <= i && s[k].ts <= s[i].ts;
    }
  }

  lemma InsideTold(s: seq<RawSample>, end: int, len: int)
    requires Rising(s) && 0 < len
    ensures HasInside(s, end, len) <==> HasSampleIn(s, end - len + 1, end)
  {
    var k := Below(s, end - len + 1);
    if HasSampleIn(s, end - len + 1, end) {
      var i :| 0 <= i < |s| && end - len + 1 <= s[i].ts <= end;
      assert k <= i < Below(s, end + 1);
    }
    if HasInside(s, end, len) { assert end - len + 1 <= s[k].ts <= end; }
  }

  /** A bucket is covered exactly when the bucket before it has a sample, and it has one itself, and its end or the
      bucket after it has one. */
  lemma CoveredTold(s: seq<RawSample>, end: int, len: int)
    requires Rising(s) && 0 < len
    ensures Covered(s, end, len) <==>
      && HasSampleIn(s, end - 2 * len + 1, end - len)
      && HasSampleIn(s, end - len + 1, end)
      && HasSampleIn(s, end, end + len)
  {
    OpeningTold(s, end, len);
    InsideTold(s, end, len);
    ClosingTold(s, end, len);
  }

  /** A boundary value: the sample that stands there, or the point of the straight line between its neighbours, if
      both lie in the two buckets that meet there. */
  lemma BoundaryValue(s: seq<RawSample>, b: int, len: int, i: nat)
    requires Rising(s) && 0 < len && i < |s|
    ensures s[i].ts == b ==> At(s, b, len) == Some(Val(s[i]))
    ensures i + 1 < |s| && s[i].ts < b < s[i + 1].ts ==>
      && (At(s, b, len).Some? <==> b - len < s[i].ts && s[i + 1].ts <= b + len)
      && (At(s, b, len).Some? ==>
            (At(s, b, len).value - Val(s[i])) * (s[i + 1].ts - s[i].ts) as real ==
            (b - s[i].ts) as real * (Val(s[i + 1]) - Val(s[i])))
  {
    if s[i].ts == b { BelowIsUnique(s, b, i); }
    if i + 1 < |s| && s[i].ts < b < s[i + 1].ts {
      BelowIsUnique(s, b, i + 1);
      LerpOnSegment(s[i], s[i + 1], b);
    }
  }

  lemma LerpOnSegment(l: RawSample, r: RawSample, b: int)
    requires l.ts < b < r.ts
    ensures (Lerp(l, r, b) - Val(l)) * (r.ts - l.ts) as real == (b - l.ts) as real * (Val(r) - Val(l))
  {
    var x, y, v := (b - l.ts) as real, (r.ts - l.ts) as real, Val(r) - Val(l);
    assert x / y * v * y == x * v;
  }

  // ---------------------------------------------------------------- counters

  /** The rise of the counter over the bucket, from its interpolated boundary values. */
  function CounterRise(s: seq<RawSample>, end: int, len: int): real
    requires Rising(s) && Covered(s, end, len)
  {
    CoveredHasPoints(s, end, len);
    At(s, end, len).value - At(s, end - len, len).value
  }

  lemma {:induction false} NoResetIsSorted(s: seq<RawSample>, end: int, len: int, i: int, j: int)
    requires Rising(s) && Covered(s, end, len) && NoReset(s, end, len)
    requires Below(s, end - len + 1) - 1 <= i <= j <= Below(s, end)
    ensures s[i].value <= s[j].value
    decreases j - i
  {
    if i < j { NoResetIsSorted(s, end, len, i, j - 1); }
  }

  /** A reset anywhere from the opening to the closing neighbour rejects the bucket. */
  lemma ResetRejects(s: seq<RawSample>, end: int, len: int, i: int, j: int)
    requires Rising(s) && Covered(s, end, len)
    requires Below(s, end - len + 1) - 1 <= i < j <= Below(s, end) && s[i].value > s[j].value
    ensures CounterOf(s, end, len).None?
  {
    if NoReset(s, end, len) { NoResetIsSorted(s, end, len, i, j); }
  }

  /** Once the scan accepts, the start value is at most the first inside sample, the end value at least the last. */
  lemma EndNotBelowStart(s: seq<RawSample>, end: int, len: int)
    requires Rising(s) && Covered(s, end, len) && NoReset(s, end, len)
    ensures CounterRise(s, end, len) >= 0.0
  {
    CoveredHasPoints(s, end, len);
    var a, b := Below(s, end - len + 1), Below(s, end);
    StartBelowFirstInside(s, end, len);
    var k := Min(a, b);
    if k < |s| && b < |s| && s[b].ts == end {
      NoResetIsSorted(s, end, len, a, b);
    } else {
      BelowIsUnique(s, end + 1, b);
      NoResetIsSorted(s, end, len, a, b - 1);
      LerpBetween(s[b - 1], s[b], end, Val(s[b - 1]), Val(s[b]));
    }
  }

  lemma StartBelowFirstInside(s: seq<RawSample>, end: int, len: int)
    requires Rising(s) && Covered(s, end, len) && NoReset(s, end, len)
    ensures At(s, end - len, len).Some?
    ensures Below(s, end - len + 1) <= Below(s, end)
    ensures At(s, end - len, len).value <= Val(s[Below(s, end - len + 1)])
  {
    CoveredHasPoints(s, end, len);
    var a, start := Below(s, end - len + 1), end - len;
    BelowRises(s, start + 1, end);
    NoResetIsSorted(s, end, len, a - 1, a);
    if s[a - 1].ts == start {
      BelowIsUnique(s, start, a - 1);
    } else {
      BelowIsUnique(s, start, a);
      LerpBetween(s[a - 1], s[a], start, Val(s[a - 1]), Val(s[a]));
    }
  }

  /** A counter bucket has a value exactly when it is covered, free of resets, and its rate fits. */
  lemma CounterDefined(s: seq<RawSample>, end: int, len: int)
    requires Rising(s)
    ensures CounterOf(s, end, len).Some? <==>
      && Covered(s, end, len) && NoReset(s, end, len)
      && CounterRise(s, end, len) * 1000.0 * 1000.0 / len as real <= U64_MAX as real
    ensures Covered(s, end, len) && NoReset(s, end, len) ==>
      CounterOf(s, end, len) == RoundToU64(CounterRise(s, end, len) * 1000.0 * 1000.0 / len as real)
  {
    if 0 < len {
      CoveredHasPoints(s, end, len);
      if Covered(s, end, len) && NoReset(s, end, len) {
        EndNotBelowStart(s, end, len);
      }
    }
  }

  lemma LineRises(s: seq<RawSample>, end: int, len: int, a: real, c: real)
    requires Rising(s) && Covered(s, end, len) && UsedOnLine(s, end, len, a, c) && c >= 0.0
    ensures NoReset(s, end, len)
  {
    forall i | Below(s, end - len + 1) - 1 <= i < Below(s, end) ensures s[i].value <= s[i + 1].value {
      LineOrder(a, c, s[i].ts as real, s[i + 1].ts as real);
      assert Val(s[i]) <= Val(s[i + 1]);
    }
  }

  lemma LineOrder(a: real, c: real, x: real, y: real)
    requires c >= 0.0 && x <= y
    ensures Line(a, c, x) <= Line(a, c, y)
  {
    ProductNotNegative(c, y - x);
    assert Line(a, c, y) - Line(a, c, x) == c * (y - x);
  }

  lemma RiseBetween(s: seq<RawSample>, end: int, len: int, x: real, y: real)
    requires Rising(s) && Covered(s, end, len)
    requires At(s, end - len, len) == Some(x) && At(s, end, len) == Some(y)
    ensures CounterRise(s, end, len) == y - x
  {
  }

  lemma LineSlope(a: real, c: real, end: int, len: int)
    requires 0 < len
    ensures (Line(a, c, end as real) - Line(a, c, (end - len) as real)) * 1000.0 * 1000.0 / len as real
         == c * 1000.0 * 1000.0
  {
    var d := len as real;
    assert end as real - (end - len) as real == d;
    assert Line(a, c, end as real) - Line(a, c, (end - len) as real) == c * d;
    assert c * d * 1000.0 * 1000.0 == c * 1000.0 * 1000.0 * d;
  }

  lemma SlopeOnLine(s: seq<RawSample>, end: int, len: int, a: real, c: real)
    requires Rising(s) && Covered(s, end, len) && UsedOnLine(s, end, len, a, c)
    ensures CounterRise(s, end, len) * 1000.0 * 1000.0 / len as real == c * 1000.0 * 1000.0
  {
    BoundariesOnLine(s, end, len, a, c);
    RiseBetween(s, end, len, Line(a, c, (end - len) as real), Line(a, c, end as real));
    LineSlope(a, c, end, len);
  }

  lemma CounterIs(s: seq<RawSample>, end: int, len: int, rate: real)
    requires Rising(s) && Covered(s, end, len) && NoReset(s, end, len)
    requires CounterRise(s, end, len) * 1000.0 * 1000.0 / len as real == rate
    ensures CounterOf(s, end, len) == RoundToU64(rate)
  {
    CounterDefined(s, end, len);
  }

  /** A counter that rises along a line has the slope of the line for its rate, wherever it was sampled. */
  lemma CounterExactOnLines(s: seq<RawSample>, end: int, len: int, a: real, c: real)
    requires Rising(s) && Covered(s, end, len) && UsedOnLine(s, end, len, a, c) && c >= 0.0
    ensures CounterOf(s, end, len) == RoundToU64(c * 1000.0 * 1000.0)
  {
    LineRises(s, end, len, a, c);
    SlopeOnLine(s, end, len, a, c);
    CounterIs(s, end, len, c * 1000.0 * 1000.0);
  }

  /** A rate in thousandths per second over `d` milliseconds, against the rise in units. */
  predicate RateMatches(rate: real, d: real, rise: real, slack: real) {
    1000000.0 * rise - slack <= rate * d <= 1000000.0 * rise + slack
  }

  lemma ScaledError(rise: real, d: real, r: real)
    requires d > 0.0
    requires rise * 1000.0 * 1000.0 / d - 0.5 <= r <= rise * 1000.0 * 1000.0 / d + 0.5
    ensures RateMatches(r, d, rise, d * 0.5)
  {
    var x := rise * 1000.0 * 1000.0 / d;
    assert x * d == 1000000.0 * rise;
    ScaleBetween(x - 0.5, r, x + 0.5, d);
    assert (x - 0.5) * d == x * d - d * 0.5 && (x + 0.5) * d == x * d + d * 0.5;
  }

  /** A stored rate times the bucket length is the rise in millionths, off by at most half the length. */
  lemma RateIsRise(s: seq<RawSample>, end: int, len: int)
    requires Rising(s) && CounterOf(s, end, len).Some?
    ensures Covered(s, end, len)
    ensures var rate := (CounterOf(s, end, len).value as int) as real;
      RateMatches(rate, len as real, CounterRise(s, end, len), len as real * 0.5)
  {
    CounterDefined(s, end, len);
    RoundingError(CounterRise(s, end, len) * 1000.0 * 1000.0 / len as real);
    ScaledError(CounterRise(s, end, len), len as real, (CounterOf(s, end, len).value as int) as real);
  }
}
