/** Which coarse buckets a step closes, and reading their 10s rows once. */
module Rollup {
  import opened Prelude
  import opened Buckets
  import opened HostMetrics

  datatype TimeRange = TimeRange(from: int, to: int)
  datatype ClosedBucket = ClosedBucket(resolution: Resolution, end: int)

  /** The bucket `previousTs` fell into, if `newTs` has moved past its end. */
  function ClosedEnd(previousTs: int, newTs: int, r: Resolution): Option<int> {
    var previous := BucketEnd(previousTs, BucketMs(r));
    if BucketEnd(newTs, BucketMs(r)) != previous then Some(previous) else None
  }

  /** Inclusive on both ends, while a bucket is open at its start. */
  function SourceRange(end: int, r: Resolution): TimeRange { TimeRange(end - BucketMs(r) + 1, end) }

  /** Every listed resolution whose bucket a step closes. */
  function ClosedAmong(rs: seq<Resolution>, previousTs: int, newTs: int): seq<ClosedBucket> {
    if rs == [] then []
    else
      var closed := ClosedEnd(previousTs, newTs, rs[0]);
      (if closed.Some? then [ClosedBucket(rs[0], closed.value)] else []) + ClosedAmong(rs[1..], previousTs, newTs)
  }

  function ResolutionsClosedBy(previousTs: int, newTs: int): seq<ClosedBucket> {
    ClosedAmong(COARSE, previousTs, newTs)
  }

  /** The closed bucket of the coarsest resolution. */
  function Widest(closed: seq<ClosedBucket>): ClosedBucket
    requires closed != []
  {
    if |closed| == 1 then closed[0]
    else
      var rest := Widest(closed[1..]);
      if BucketMs(closed[0].resolution) > BucketMs(rest.resolution) then closed[0] else rest
  }

  function WidestSourceRange(closed: seq<ClosedBucket>): Option<TimeRange> {
    if closed == [] then None else Some(SourceRange(Widest(closed).end, Widest(closed).resolution))
  }

  /** `WHERE ts >= from AND ts <= to` over rows in time order. */
  function InRange(s: seq<HostSample>, r: TimeRange): seq<HostSample> {
    if s == [] then []
    else
      var last := s[|s| - 1];
      InRange(s[..|s| - 1], r) + if r.from <= last.ts <= r.to then [last] else []
  }

  // ---------------------------------------------------------------- nested buckets

  lemma {:induction false} ShiftMany(ts: int, len: nat, k: nat)
    requires 0 < len
    ensures BucketEnd(ts + k * len, len) == BucketEnd(ts, len) + k * len
  {
    if k > 0 {
      ShiftMany(ts, len, k - 1);
      assert k * len == (k - 1) * len + len;
      BucketEndShifts(ts + (k - 1) * len, len);
    }
  }

  /** Every end of a bucket `k` times as long is an end of the short one. */
  lemma {:induction false} CoarseEndIsFineEnd(e: int, len: nat, k: nat)
    requires 0 < len && 0 < k && 0 < k * len && IsEnd(e, k * len)
    ensures IsEnd(e, len)
    decreases if e >= 0 then e else -e
  {
    var big := k * len;
    if e > 0 {
      BucketEndShifts(e - big, big);
      assert e >= big;
      CoarseEndIsFineEnd(e - big, len, k);
      ShiftMany(e - big, len, k);
    } else if e < 0 {
      BucketEndShifts(e, big);
      assert e <= -big;
      CoarseEndIsFineEnd(e + big, len, k);
      ShiftMany(e, len, k);
    }
  }

  /** The fine bucket of an instant lies inside its coarse bucket. */
  lemma FineInsideCoarse(ts: int, len: nat, k: nat)
    requires 0 < len && 0 < k && 0 < k * len
    ensures BucketEnd(ts, len) <= BucketEnd(ts, k * len)
    ensures BucketEnd(ts, k * len) - k * len <= BucketEnd(ts, len) - len
  {
    var big := k * len;
    var e := BucketEnd(ts, big);
    BucketEndIsEnd(ts, big);
    CoarseEndIsFineEnd(e, len, k);
    BucketEndRises(ts, e, len);
    BucketEndShifts(e - big, big);
    BucketEndIsEnd(e - big, big);
    CoarseEndIsFineEnd(e - big, len, k);
    BucketEndRises(e - big, ts, len);
  }

  /** How many ten-second rows fill a bucket. */
  function RowsPerBucket(r: Resolution): nat {
    match r
    case TenSeconds => 1
    case OneMinute => 6
    case FiveMinutes => 30
    case OneHour => 360
  }

  lemma EndIsMultiple(e: int, len: nat) returns (k: int)
    requires IsEnd(e, len)
    ensures e == k * len
  {
    BucketEndIsRoundedUp(e, len);
    k := -((-e) / len);
  }

  lemma {:induction false} MultipleIsEnd(k: int, len: nat)
    requires 0 < len
    ensures IsEnd(k * len, len)
    decreases if k < 0 then -k else k
  {
    if k > 0 {
      MultipleIsEnd(k - 1, len);
      assert k * len == (k - 1) * len + len;
      BucketEndShifts((k - 1) * len, len);
    } else if k < 0 {
      MultipleIsEnd(k + 1, len);
      assert k * len == (k + 1) * len - len;
      BucketEndShifts(k * len, len);
    }
  }

  /** The ten-second ends inside a bucket are that many steps of ten seconds back from its own end. */
  lemma BucketHoldsRows(end: int, r: Resolution, e: int)
    requires IsEnd(end, BucketMs(r))
    ensures IsEnd(e, 10_000) && end - BucketMs(r) < e <= end <==>
            exists k: nat :: k < RowsPerBucket(r) && e == end - k * 10_000
  {
    var q := EndIsMultiple(end, BucketMs(r));
    assert end == q * RowsPerBucket(r) * 10_000;
    if IsEnd(e, 10_000) && end - BucketMs(r) < e <= end {
      var p := EndIsMultiple(e, 10_000);
      var k := q * RowsPerBucket(r) - p;
      assert e == end - k * 10_000;
    }
    if k: nat :| k < RowsPerBucket(r) && e == end - k * 10_000 {
      MultipleIsEnd(q * RowsPerBucket(r) - k, 10_000);
    }
  }

  /** 60s divides 300s divides 3600s. */
  lemma BucketsNest(ts: int, fine: Resolution, coarse: Resolution)
    requires fine in COARSE && coarse in COARSE && BucketMs(fine) <= BucketMs(coarse)
    ensures BucketEnd(ts, BucketMs(fine)) <= BucketEnd(ts, BucketMs(coarse))
    ensures BucketEnd(ts, BucketMs(coarse)) - BucketMs(coarse) <= BucketEnd(ts, BucketMs(fine)) - BucketMs(fine)
  {
    match (fine, coarse) {
      case (OneMinute, FiveMinutes) => FineInsideCoarse(ts, 60_000, 5);
      case (OneMinute, OneHour) => FineInsideCoarse(ts, 60_000, 60);
      case (FiveMinutes, OneHour) => FineInsideCoarse(ts, 300_000, 12);
      case _ =>
    }
  }

  lemma {:induction false} ClosedAmongMeans(rs: seq<Resolution>, previousTs: int, newTs: int)
    ensures forall c :: c in ClosedAmong(rs, previousTs, newTs) <==>
      c.resolution in rs && ClosedEnd(previousTs, newTs, c.resolution) == Some(c.end)
  {
    if rs != [] {
      ClosedAmongMeans(rs[1..], previousTs, newTs);
      assert rs == [rs[0]] + rs[1..];
    }
  }

  lemma {:induction false} WidestIsWidest(closed: seq<ClosedBucket>)
    requires closed != []
    ensures Widest(closed) in closed
    ensures forall c :: c in closed ==> BucketMs(c.resolution) <= BucketMs(Widest(closed).resolution)
  {
    if |closed| > 1 {
      WidestIsWidest(closed[1..]);
      assert closed == [closed[0]] + closed[1..];
    }
  }

  /** Every bucket a step closes lies inside the widest one it closes. */
  lemma ClosedBucketsNest(previousTs: int, newTs: int, c: ClosedBucket)
    requires c in ResolutionsClosedBy(previousTs, newTs)
    ensures var wide := WidestSourceRange(ResolutionsClosedBy(previousTs, newTs));
      var own := SourceRange(c.end, c.resolution);
      wide.Some? && wide.value.from <= own.from && own.to <= wide.value.to
  {
    var closed := ResolutionsClosedBy(previousTs, newTs);
    ClosedAmongMeans(COARSE, previousTs, newTs);
    WidestIsWidest(closed);
    BucketsNest(previousTs, c.resolution, Widest(closed).resolution);
  }

  lemma InRangeOneMore(init: seq<HostSample>, last: HostSample, r: TimeRange)
    ensures InRange(init + [last], r) == InRange(init, r) + if r.from <= last.ts <= r.to then [last] else []
  {
    assert (init + [last])[..|init|] == init;
  }

  lemma {:induction false} InRangeOfInRange(s: seq<HostSample>, wide: TimeRange, own: TimeRange)
    requires wide.from <= own.from && own.to <= wide.to
    ensures InRange(InRange(s, wide), own) == InRange(s, own)
  {
    if s != [] {
      var init, last := s[..|s| - 1], s[|s| - 1];
      assert s == init + [last];
      InRangeOfInRange(init, wide, own);
      InRangeOneMore(init, last, own);
      InRangeOneMore(init, last, wide);
      if wide.from <= last.ts <= wide.to {
        InRangeOneMore(InRange(init, wide), last, own);
      } else {
        assert InRange(init, wide) + [] == InRange(init, wide) && InRange(init, own) + [] == InRange(init, own);
      }
    }
  }

  // ---------------------------------------------------------------- slicing by binary search

  /** How many leading rows lie before `bound`. */
  method PartitionPoint(s: seq<HostSample>, bound: int) returns (k: nat)
    requires Ordered(s)
    ensures k <= |s|
    ensures forall i :: 0 <= i < k ==> s[i].ts < bound
    ensures forall i :: k <= i < |s| ==> bound <= s[i].ts
  {
    var lo, hi := 0, |s|;
    while lo < hi
      invariant 0 <= lo <= hi <= |s|
      invariant forall i :: 0 <= i < lo ==> s[i].ts < bound
      invariant forall i :: hi <= i < |s| ==> bound <= s[i].ts
    {
      var mid := lo + (hi - lo) / 2;
      if s[mid].ts < bound {
        lo := mid + 1;
      } else {
        hi := mid;
      }
    }
    k := lo;
  }

  lemma {:induction false} RangeIsSlice(s: seq<HostSample>, r: TimeRange, a: nat, b: nat)
    requires a <= |s| && b <= |s|
    requires forall i :: 0 <= i < |s| ==> (s[i].ts < r.from <==> i < a) && (s[i].ts <= r.to <==> i < b)
    ensures InRange(s, r) == if a <= b then s[a..b] else []
  {
    if s != [] {
      var init := s[..|s| - 1];
      RangeIsSlice(init, r, Min(a, |init|), Min(b, |init|));
    }
  }

  /** The contiguous run of ordered rows inside a range. */
  method SliceByRange(s: seq<HostSample>, r: TimeRange) returns (slice: seq<HostSample>)
    requires Ordered(s) && r.from <= r.to + 1
    ensures slice == InRange(s, r)
  {
    var start := PartitionPoint(s, r.from);
    var end := PartitionPoint(s, r.to + 1);
    RangeIsSlice(s, r, start, end);
    assert end < |s| ==> r.to + 1 <= s[end].ts;
    slice := s[start..end];
  }

  // ---------------------------------------------------------------- rows ordered by container first

  /** The key of a container row; such rows are read in `(cid, ts)` order. */
  datatype ContainerKey = ContainerKey(cid: int, ts: int)

  function KeysInRange(s: seq<ContainerKey>, r: TimeRange): seq<ContainerKey> {
    if s == [] then []
    else
      var last := s[|s| - 1];
      KeysInRange(s[..|s| - 1], r) + if r.from <= last.ts <= r.to then [last] else []
  }

  predicate KeysOrdered(s: seq<ContainerKey>) {
    forall i, j :: 0 <= i < j < |s| ==> s[i].cid < s[j].cid || (s[i].cid == s[j].cid && s[i].ts < s[j].ts)
  }

  predicate Within(x: ContainerKey, r: TimeRange) { r.from <= x.ts <= r.to }

  /** No row outside the range stands between two rows inside it. */
  predicate Contiguous(s: seq<ContainerKey>, r: TimeRange) {
    forall i, j, k :: 0 <= i < j < k < |s| && Within(s[i], r) && Within(s[k], r) ==> Within(s[j], r)
  }

  ghost predicate SomeSliceIsRange(s: seq<ContainerKey>, r: TimeRange) {
    exists a, b :: 0 <= a <= b <= |s| && s[a..b] == KeysInRange(s, r)
  }

  lemma {:induction false} KeysInRangeMembers(s: seq<ContainerKey>, r: TimeRange)
    ensures forall x :: x in KeysInRange(s, r) <==> x in s && Within(x, r)
  {
    if s != [] {
      KeysInRangeMembers(s[..|s| - 1], r);
      assert s == s[..|s| - 1] + [s[|s| - 1]];
    }
  }

  /** Reading exactly the rows from `a` up to `b`, all inside the range, and no others. */
  lemma KeysInRangeOneMore(init: seq<ContainerKey>, last: ContainerKey, r: TimeRange)
    ensures KeysInRange(init + [last], r) == KeysInRange(init, r) + if Within(last, r) then [last] else []
  {
    assert (init + [last])[..|init|] == init;
  }

  lemma SliceOneMore(init: seq<ContainerKey>, last: ContainerKey, a: nat, b: nat)
    requires a <= b <= |init| + 1
    ensures (init + [last])[a..b] ==
            init[Min(a, |init|)..Min(b, |init|)] + if a <= |init| < b then [last] else []
  {
  }

  lemma {:induction false} RunIsRange(s: seq<ContainerKey>, r: TimeRange, a: nat, b: nat)
    requires a <= b <= |s| && forall i :: 0 <= i < |s| ==> (a <= i < b <==> Within(s[i], r))
    ensures KeysInRange(s, r) == s[a..b]
  {
    if s != [] {
      var init, last := s[..|s| - 1], s[|s| - 1];
      assert s == init + [last];
      RunIsRange(init, r, Min(a, |init|), Min(b, |init|));
      KeysInRangeOneMore(init, last, r);
      SliceOneMore(init, last, a, b);
    }
  }

  lemma ContiguousHasRun(s: seq<ContainerKey>, r: TimeRange) returns (a: nat, b: nat)
    requires Contiguous(s, r)
    ensures a <= b <= |s| && forall i :: 0 <= i < |s| ==> (a <= i < b <==> Within(s[i], r))
  {
    a := 0;
    while a < |s| && !Within(s[a], r)
      invariant a <= |s| && forall i :: 0 <= i < a ==> !Within(s[i], r)
    {
      a := a + 1;
    }
    b := a;
    while b < |s| && Within(s[b], r)
      invariant a <= b <= |s| && forall i :: a <= i < b ==> Within(s[i], r)
    {
      b := b + 1;
    }
    assert a < |s| ==> Within(s[a], r);
    forall i | b <= i < |s| ensures !Within(s[i], r) {
      assert !Within(s[b], r);
    }
  }

  lemma SliceMembers(s: seq<ContainerKey>, a: nat, b: nat, i: nat)
    requires KeysOrdered(s) && a <= b <= |s| && i < |s| && s[i] in s[a..b]
    ensures a <= i < b
  {
    var k :| 0 <= k < b - a && s[a..b][k] == s[i];
    assert s[a + k] == s[i];
  }

  lemma SliceMakesContiguous(s: seq<ContainerKey>, r: TimeRange, a: nat, b: nat, i: nat, j: nat, k: nat)
    requires KeysOrdered(s) && a <= b <= |s| && s[a..b] == KeysInRange(s, r)
    requires i < j < k < |s| && Within(s[i], r) && Within(s[k], r)
    ensures Within(s[j], r)
  {
    KeysInRangeMembers(s, r);
    assert s[i] in s && s[k] in s;
    SliceMembers(s, a, b, i);
    SliceMembers(s, a, b, k);
    assert s[a..b][j - a] == s[j];
  }

  /**
   * Whatever binary search does on unsorted input, it returns one contiguous slice; so a finer range can be cut
   * out of a read in container order exactly when no other row stands between the rows wanted.
   */
  lemma SliceableIffContiguous(s: seq<ContainerKey>, r: TimeRange)
    requires KeysOrdered(s)
    ensures SomeSliceIsRange(s, r) <==> Contiguous(s, r)
  {
    if Contiguous(s, r) {
      var a, b := ContiguousHasRun(s, r);
      RunIsRange(s, r, a, b);
    }
    if SomeSliceIsRange(s, r) {
      var a, b :| 0 <= a <= b <= |s| && s[a..b] == KeysInRange(s, r);
      forall i, j, k | 0 <= i < j < k < |s| && Within(s[i], r) && Within(s[k], r) ensures Within(s[j], r) {
        SliceMakesContiguous(s, r, a, b, i, j, k);
      }
    }
  }

  // ---------------------------------------------------------------- what the search finds on such a read

  /** A place the search can stop at: the row before lies before the bound, the row there does not. */
  predicate Boundary(s: seq<ContainerKey>, bound: int, k: nat) {
    k <= |s| && (0 < k ==> s[k - 1].ts < bound) && (k < |s| ==> bound <= s[k].ts)
  }

  /** The binary search as it runs on any read, in time order or not. */
  function KeySearch(s: seq<ContainerKey>, bound: int, lo: nat, hi: nat): (k: nat)
    requires lo <= hi <= |s| && (0 < lo ==> s[lo - 1].ts < bound) && (hi < |s| ==> bound <= s[hi].ts)
    ensures lo <= k <= hi && Boundary(s, bound, k)
    decreases hi - lo
  {
    if lo == hi then lo
    else
      var mid := lo + (hi - lo) / 2;
      if s[mid].ts < bound then KeySearch(s, bound, mid + 1, hi) else KeySearch(s, bound, lo, mid)
  }

  /** `slice_by_range` on container rows; slicing backwards panics. */
  function SliceKeys(s: seq<ContainerKey>, r: TimeRange): Option<seq<ContainerKey>> {
    var start, end := KeySearch(s, r.from, 0, |s|), KeySearch(s, r.to + 1, 0, |s|);
    if start <= end then Some(s[start..end]) else None
  }

  /** Some row before the bound stands after a row that is not. */
  predicate OlderBehindNewer(s: seq<ContainerKey>, bound: int) {
    exists i, j :: 0 <= i < j < |s| && bound <= s[i].ts && s[j].ts < bound
  }

  predicate NothingPast(s: seq<ContainerKey>, r: TimeRange) { forall i :: 0 <= i < |s| ==> s[i].ts <= r.to }

  lemma RightTailIsPartitioned(s: seq<ContainerKey>, r: TimeRange, k: nat, i: nat, j: nat)
    requires KeysOrdered(s) && k <= |s| && s[k..|s|] == KeysInRange(s, r)
    requires i < j < |s| && Within(s[i], r)
    ensures r.from <= s[j].ts
  {
    KeysInRangeMembers(s, r);
    assert s[i] in KeysInRange(s, r);
    SliceMembers(s, k, |s|, i);
    assert s[k..|s|][j - k] == s[j];
    assert s[j] in KeysInRange(s, r);
  }

  lemma PartitionedTailIsRight(s: seq<ContainerKey>, r: TimeRange, k: nat)
    requires NothingPast(s, r) && Boundary(s, r.from, k) && !OlderBehindNewer(s, r.from)
    ensures s[k..|s|] == KeysInRange(s, r)
  {
    forall i | 0 <= i < |s| ensures k <= i < |s| <==> Within(s[i], r) {
      assert k < i ==> r.from <= s[k].ts;
      assert i < k - 1 ==> s[k - 1].ts < r.from;
    }
    RunIsRange(s, r, k, |s|);
  }

  /** Cutting at any boundary whatsoever gives the range exactly when the read is partitioned there. */
  lemma TailIsRangeIffPartitioned(s: seq<ContainerKey>, r: TimeRange, k: nat)
    requires KeysOrdered(s) && NothingPast(s, r) && Boundary(s, r.from, k)
    ensures s[k..|s|] == KeysInRange(s, r) <==> !OlderBehindNewer(s, r.from)
  {
    if !OlderBehindNewer(s, r.from) {
      PartitionedTailIsRight(s, r, k);
    } else if s[k..|s|] == KeysInRange(s, r) {
      var i, j :| 0 <= i < j < |s| && r.from <= s[i].ts && s[j].ts < r.from;
      RightTailIsPartitioned(s, r, k, i, j);
    }
  }

  lemma SliceRunsToTheEnd(s: seq<ContainerKey>, r: TimeRange)
    requires NothingPast(s, r)
    ensures SliceKeys(s, r) == Some(s[KeySearch(s, r.from, 0, |s|)..|s|])
  {
    assert Boundary(s, r.to + 1, KeySearch(s, r.to + 1, 0, |s|));
  }

  /** The slice the code returns is the range exactly when no container's row before the range
      stands behind another container's row inside it. */
  lemma SliceIsRangeIffPartitioned(s: seq<ContainerKey>, r: TimeRange)
    requires KeysOrdered(s) && NothingPast(s, r)
    ensures SliceKeys(s, r) == Some(KeysInRange(s, r)) <==> !OlderBehindNewer(s, r.from)
  {
    SliceRunsToTheEnd(s, r);
    TailIsRangeIffPartitioned(s, r, KeySearch(s, r.from, 0, |s|));
  }

  /** While time moves forward the wide read of a step holds no row past any bucket the step closes. */
  lemma NothingPastWhileForward(s: seq<ContainerKey>, previousTs: int, newTs: int, c: ClosedBucket)
    requires previousTs < newTs && c in ResolutionsClosedBy(previousTs, newTs)
    requires forall x :: x in s ==> x.ts <= previousTs || newTs <= x.ts
    requires var wide := WidestSourceRange(ResolutionsClosedBy(previousTs, newTs));
      wide.Some? && forall x :: x in s ==> Within(x, wide.value)
    ensures NothingPast(s, SourceRange(c.end, c.resolution))
  {
    var closed := ResolutionsClosedBy(previousTs, newTs);
    ClosedAmongMeans(COARSE, previousTs, newTs);
    WidestIsWidest(closed);
    BucketEndRises(previousTs, newTs, BucketMs(Widest(closed).resolution));
    forall i | 0 <= i < |s| ensures s[i].ts <= c.end {
      assert s[i] in s;
    }
  }

  /** Rows of a single container are in time order, so every range is contiguous. */
  lemma OneContainerIsContiguous(s: seq<ContainerKey>, r: TimeRange)
    requires KeysOrdered(s) && forall i, j :: 0 <= i < |s| && 0 <= j < |s| ==> s[i].cid == s[j].cid
    ensures Contiguous(s, r)
  {
  }

  /** Rows of one container are never out of order, so such a read is always cut right. */
  lemma OneContainerIsPartitioned(s: seq<ContainerKey>, bound: int)
    requires KeysOrdered(s) && forall i, j :: 0 <= i < |s| && 0 <= j < |s| ==> s[i].cid == s[j].cid
    ensures !OlderBehindNewer(s, bound)
  {
  }

  /** A container with a row in the range, and one sorted after it with a row before the range: rows are lost. */
  lemma TwoContainersLoseRows(s: seq<ContainerKey>, r: TimeRange, a: ContainerKey, b: ContainerKey)
    requires KeysOrdered(s) && NothingPast(s, r) && a in s && b in s && a.cid < b.cid && Within(a, r) && b.ts < r.from
    ensures SliceKeys(s, r) != Some(KeysInRange(s, r))
  {
    var i :| 0 <= i < |s| && s[i] == a;
    var j :| 0 <= j < |s| && s[j] == b;
    assert i < j;
    SliceIsRangeIffPartitioned(s, r);
  }

  /** Two containers with a row in each of the last two minutes of an hour: no slice at all is the last minute. */
  lemma NoSliceIsTheLastMinute(rows: seq<ContainerKey>)
    requires |rows| == 4
    requires rows[0] == ContainerKey(1, 3_540_000) && rows[1] == ContainerKey(1, 3_600_000)
    requires rows[2] == ContainerKey(2, 3_540_000) && rows[3] == ContainerKey(2, 3_600_000)
    ensures KeysOrdered(rows) && !SomeSliceIsRange(rows, SourceRange(3_600_000, OneMinute))
  {
    var minute := TimeRange(3_540_001, 3_600_000);
    assert Within(rows[1], minute) && !Within(rows[2], minute) && Within(rows[3], minute);
    SliceableIffContiguous(rows, minute);
  }

  lemma SearchOfTwo(rows: seq<ContainerKey>, bound: int)
    requires |rows| == 2 && rows[1].ts < bound
    ensures KeySearch(rows, bound, 0, 2) == 2
  {
    assert KeySearch(rows, bound, 0, 2) == KeySearch(rows, bound, 2, 2);
  }

  /** One container started late, one stopped early: a right slice exists, yet the search returns an empty one. */
  lemma ContiguousReadStillLosesItsRow(rows: seq<ContainerKey>)
    requires rows == [ContainerKey(1, 3_600_000), ContainerKey(2, 3_540_000)]
    ensures var minute := SourceRange(3_600_000, OneMinute);
      && KeysOrdered(rows) && Contiguous(rows, minute) && SomeSliceIsRange(rows, minute)
      && SliceKeys(rows, minute) == Some([]) && KeysInRange(rows, minute) == [rows[0]]
  {
    var minute := TimeRange(3_540_001, 3_600_000);
    RunIsRange(rows, minute, 0, 1);
    assert rows[0..1] == [rows[0]] && rows[2..2] == [];
    SearchOfTwo(rows, minute.from);
    SearchOfTwo(rows, minute.to + 1);
  }
}
