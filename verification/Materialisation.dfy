/** Incremental rollup against batch downsampling: what one insert does to the coarse tables. */
module Materialisation {
  import opened Prelude
  import opened Buckets
  import opened HostMetrics
  import opened HostAnswers
  import opened Downsampling
  import opened Rollup
  import opened MetricsStore

  /** Batch downsampling of the whole 10s table, without the bucket that is still open. */
  function ClosedRows(ten: HostTable, last: Option<int>, r: Resolution, pct: nat): HostTable
    requires Keyed(ten)
  {
    if last.None? then map[] else GroupBy(Rows(ten), BucketMs(r), pct) - {BucketEnd(last.value, BucketMs(r))}
  }

  ghost predicate Materialised(st: HostState, pct: nat) {
    && Keyed(st.tables.tenSeconds) && st.lastTs == NewestTs(st.tables.tenSeconds)
    && forall r :: r in COARSE ==> st.tables.Of(r) == ClosedRows(st.tables.tenSeconds, st.lastTs, r, pct)
  }

  // ---------------------------------------------------------------- one table, one step

  lemma {:induction false} RangeIsBucket(s: seq<HostSample>, end: int, r: Resolution)
    requires IsEnd(end, BucketMs(r))
    ensures InRange(s, SourceRange(end, r)) == InBucket(s, end, BucketMs(r))
  {
    if s != [] {
      var last := s[|s| - 1];
      RangeIsBucket(s[..|s| - 1], end, r);
      if end - BucketMs(r) < last.ts <= end { EndCovers(last.ts, BucketMs(r), end); }
    }
  }

  lemma {:induction false} AllOneBucket(g: seq<HostSample>, end: int, len: nat)
    requires 0 < len && forall x :: x in g ==> BucketEnd(x.ts, len) == end
    ensures InBucket(g, end, len) == g && Ends(g, len) == if g == [] then {} else {end}
  {
    if g != [] {
      var init, last := g[..|g| - 1], g[|g| - 1];
      assert g == init + [last] && last in g;
      AllOneBucket(init, end, len);
    }
  }

  lemma NoOtherBucket(g: seq<HostSample>, end: int, len: nat, pct: nat)
    requires 0 < len && Ends(g, len) <= {end}
    ensures GroupBy(g, len, pct) - {end} == map[]
  {
  }

  lemma SameBucketRow(g: seq<HostSample>, s: seq<HostSample>, end: int, len: nat, pct: nat)
    requires 0 < len && InBucket(g, end, len) == InBucket(s, end, len)
    ensures BucketRow(g, end, len, pct) == BucketRow(s, end, len, pct)
    ensures map[] + BucketRow(g, end, len, pct) == BucketRow(s, end, len, pct)
  {
  }

  lemma SingleBucket(s: seq<HostSample>, end: int, len: nat, pct: nat)
    requires 0 < len && Ordered(s)
    ensures GroupBy(InBucket(s, end, len), len, pct) == BucketRow(s, end, len, pct)
  {
    var g := InBucket(s, end, len);
    InBucketFacts(s, end, len);
    AllOneBucket(g, end, len);
    GroupByParts(g, end, len, pct);
    NoOtherBucket(g, end, len, pct);
    SameBucketRow(g, s, end, len, pct);
  }

  lemma KeysExtended(t: HostTable, x: HostSample)
    requires forall k :: k in t ==> k < x.ts
    ensures SortedInts(t[x.ts := x].Keys) == SortedInts(t.Keys) + [x.ts]
  {
    SortedWithGreatest(t.Keys, x.ts);
    assert t[x.ts := x].Keys == t.Keys + {x.ts};
  }

  lemma KeysBefore(t: HostTable, ts: int)
    requires forall k :: k in t ==> k < ts
    ensures var keys := SortedInts(t.Keys); forall i :: 0 <= i < |keys| ==> keys[i] in t && keys[i] < ts
  {
    var keys := SortedInts(t.Keys);
    assert forall i :: 0 <= i < |keys| ==> keys[i] in keys;
  }

  lemma RowsExtended(t: HostTable, x: HostSample)
    requires Keyed(t) && forall k :: k in t ==> k < x.ts
    ensures Keyed(t[x.ts := x]) && Rows(t[x.ts := x]) == Rows(t) + [x]
  {
    KeysExtended(t, x);
    KeysBefore(t, x.ts);
    RowsAtExtended(t, SortedInts(t.Keys), x);
  }

  lemma RowsAtExtended(t: HostTable, keys: seq<int>, x: HostSample)
    requires forall i :: 0 <= i < |keys| ==> keys[i] in t && keys[i] < x.ts
    ensures RowsAt(t[x.ts := x], keys + [x.ts]) == RowsAt(t, keys) + [x]
  {
  }

  lemma NewestIsGreatest(t: HostTable)
    requires Keyed(t)
    ensures NewestTs(t).None? <==> t == map[]
    ensures NewestTs(t).Some? ==> NewestTs(t).value in t && forall k :: k in t ==> k <= NewestTs(t).value
    ensures NewestTs(t).Some? ==> Rows(t) != [] && Rows(t)[|Rows(t)| - 1].ts == NewestTs(t).value
  {
    var keys := SortedInts(t.Keys);
    if keys == [] {
      assert forall k :: k !in t.Keys;
      assert t == map[];
    } else {
      assert keys[|keys| - 1] in keys && keys[0] in keys;
      forall k | k in t ensures k <= keys[|keys| - 1] {
        assert k in keys;
        var i :| 0 <= i < |keys| && keys[i] == k;
      }
    }
  }

  /** The bucket left open by the newest row is never stored; once time leaves it, it is rolled up for good. */
  lemma CoarseStep(s: seq<HostSample>, x: HostSample, r: Resolution, pct: nat)
    requires s != [] && Ordered(s + [x])
    ensures Ordered(s)
    ensures var len, old' := BucketMs(r), BucketEnd(s[|s| - 1].ts, BucketMs(r));
      var table := GroupBy(s, len, pct) - {old'};
      GroupBy(s + [x], len, pct) - {BucketEnd(x.ts, len)} ==
        if BucketEnd(x.ts, len) == old' then table else table + BucketRow(s, old', len, pct)
  {
    var len := BucketMs(r);
    PrefixOrdered(s, x);
    GroupByExtended(s, x, len, pct);
    GroupByParts(s, BucketEnd(s[|s| - 1].ts, len), len, pct);
    if BucketEnd(x.ts, len) != BucketEnd(s[|s| - 1].ts, len) {
      NewBucketIsEmpty(s, x, len, pct);
      assert GroupBy(s, len, pct) - {BucketEnd(x.ts, len)} == GroupBy(s, len, pct);
    }
  }

  /** What the store reads for a closed bucket is exactly that bucket of the batch. */
  lemma RolledBucketIsBucketRow(ten: HostTable, s: seq<HostSample>, x: HostSample, c: ClosedBucket, pct: nat)
    requires Keyed(ten) && Rows(ten) == s + [x] && Ordered(s) && IsEnd(c.end, BucketMs(c.resolution)) && c.end < x.ts
    ensures RolledBucket(ten, c, pct) == BucketRow(s, c.end, BucketMs(c.resolution), pct)
  {
    RangeIsBucket(s + [x], c.end, c.resolution);
    InBucketExtended(s, x, c.end, BucketMs(c.resolution));
    assert SelectHost(ten, SourceRange(c.end, c.resolution)) == InBucket(s, c.end, BucketMs(c.resolution));
    SingleBucket(s, c.end, BucketMs(c.resolution), pct);
  }

  // ---------------------------------------------------------------- the rollup of a step, table by table

  predicate OneEach(closed: seq<ClosedBucket>) {
    forall i, j :: 0 <= i < j < |closed| ==> closed[i].resolution != closed[j].resolution
  }

  lemma ClosedOneEach(previousTs: int, newTs: int)
    ensures OneEach(ResolutionsClosedBy(previousTs, newTs))
    ensures forall c :: c in ResolutionsClosedBy(previousTs, newTs) ==> c.resolution in COARSE
  {
    ClosedAmongMeans(COARSE, previousTs, newTs);
    ClosedAmongMeans(COARSE[1..], previousTs, newTs);
    ClosedAmongMeans(COARSE[2..], previousTs, newTs);
    assert COARSE[1..][1..] == COARSE[2..] && COARSE[2..][1..] == [];
    assert ClosedAmong([], previousTs, newTs) == [];
  }

  lemma WithOf(t: HostTables, r: Resolution, table: HostTable, q: Resolution)
    ensures t.With(r, table).Of(q) == if q == r then table else t.Of(q)
  {
  }

  /** The part of a step's rollup that concerns one table. */
  function TableAfter(table: HostTable, ten: HostTable, closed: seq<ClosedBucket>, pct: nat, r: Resolution): HostTable
    requires Keyed(ten)
  {
    if closed == [] then table
    else
      var c, before := closed[|closed| - 1], TableAfter(table, ten, closed[..|closed| - 1], pct, r);
      if c.resolution == r then before + RolledBucket(ten, c, pct) else before
  }

  lemma {:induction false} RolledUpTable(tables: HostTables, ten: HostTable, closed: seq<ClosedBucket>, pct: nat,
                                         r: Resolution)
    requires Keyed(ten)
    ensures RolledUp(tables, ten, closed, pct).Of(r) == TableAfter(tables.Of(r), ten, closed, pct, r)
  {
    if closed != [] {
      var c, before := closed[|closed| - 1], RolledUp(tables, ten, closed[..|closed| - 1], pct);
      RolledUpTable(tables, ten, closed[..|closed| - 1], pct, r);
      WithOf(before, c.resolution, before.Of(c.resolution) + RolledBucket(ten, c, pct), r);
    }
  }

  lemma {:induction false} UntouchedTable(table: HostTable, ten: HostTable, closed: seq<ClosedBucket>, pct: nat,
                                          r: Resolution)
    requires Keyed(ten) && forall c :: c in closed ==> c.resolution != r
    ensures TableAfter(table, ten, closed, pct, r) == table
  {
    if closed != [] {
      assert closed[|closed| - 1] in closed;
      UntouchedTable(table, ten, closed[..|closed| - 1], pct, r);
    }
  }

  lemma {:induction false} TouchedTable(table: HostTable, ten: HostTable, closed: seq<ClosedBucket>, pct: nat,
                                        c: ClosedBucket)
    requires Keyed(ten) && OneEach(closed) && c in closed
    ensures TableAfter(table, ten, closed, pct, c.resolution) == table + RolledBucket(ten, c, pct)
  {
    var init, last := closed[..|closed| - 1], closed[|closed| - 1];
    assert closed == init + [last];
    if last == c {
      forall d | d in init ensures d.resolution != c.resolution {
        var i :| 0 <= i < |init| && init[i] == d;
        assert closed[i] == d;
      }
      UntouchedTable(table, ten, init, pct, c.resolution);
    } else {
      var i :| 0 <= i < |init| && init[i] == c;
      assert closed[i] == c;
      TouchedTable(table, ten, init, pct, c);
    }
  }

  lemma FirstKeepsOneEach(closed: seq<ClosedBucket>, n: nat)
    requires OneEach(closed)
    ensures OneEach(First(closed, n)) && forall c :: c in First(closed, n) ==> c in closed
  {
  }

  /** A coarse table takes the row of its bucket that closed, if that bucket was among those written. */
  lemma StepTable(tables: HostTables, ten: HostTable, previousTs: int, newTs: int, written: nat, pct: nat,
                  r: Resolution)
    requires Keyed(ten)
    ensures var done := First(ResolutionsClosedBy(previousTs, newTs), written);
      var closed := ClosedEnd(previousTs, newTs, r);
      RolledUp(tables, ten, done, pct).Of(r) ==
        if closed.Some? && ClosedBucket(r, closed.value) in done
        then tables.Of(r) + RolledBucket(ten, ClosedBucket(r, closed.value), pct)
        else tables.Of(r)
  {
    var closed := ResolutionsClosedBy(previousTs, newTs);
    var done := First(closed, written);
    ClosedOneEach(previousTs, newTs);
    ClosedAmongMeans(COARSE, previousTs, newTs);
    FirstKeepsOneEach(closed, written);
    RolledUpTable(tables, ten, done, pct, r);
    var end := ClosedEnd(previousTs, newTs, r);
    if end.Some? && ClosedBucket(r, end.value) in done {
      TouchedTable(tables.Of(r), ten, done, pct, ClosedBucket(r, end.value));
    } else {
      UntouchedTable(tables.Of(r), ten, done, pct, r);
    }
  }

  lemma TenSecondsIsNotRolledUp(tables: HostTables, ten: HostTable, previousTs: int, newTs: int, written: nat, pct: nat)
    requires Keyed(ten)
    ensures var done := First(ResolutionsClosedBy(previousTs, newTs), written);
      RolledUp(tables, ten, done, pct).tenSeconds == tables.tenSeconds
  {
    var closed := ResolutionsClosedBy(previousTs, newTs);
    ClosedOneEach(previousTs, newTs);
    FirstKeepsOneEach(closed, written);
    RolledUpTable(tables, ten, First(closed, written), pct, TenSeconds);
    UntouchedTable(tables.tenSeconds, ten, First(closed, written), pct, TenSeconds);
  }

  /** The 10s table takes the new row and nothing else. */
  lemma InsertedTen(st: HostState, x: HostSample, pct: nat, written: nat)
    requires Keyed(st.tables.tenSeconds) && x.ts !in st.tables.tenSeconds
    ensures Inserted(st, x, pct, written).tables.tenSeconds == st.tables.tenSeconds[x.ts := x]
    ensures Keyed(Inserted(st, x, pct, written).tables.tenSeconds) && Inserted(st, x, pct, written).lastTs == Some(x.ts)
  {
    var ten := st.tables.tenSeconds[x.ts := x];
    if Advanced(st.lastTs, x.ts).Some? {
      TenSecondsIsNotRolledUp(st.tables.With(TenSeconds, ten), ten, st.lastTs.value, x.ts, written, pct);
    }
  }

  lemma FirstRowIsOpen(x: HostSample, len: nat, pct: nat)
    requires 0 < len
    ensures GroupBy([x], len, pct) - {BucketEnd(x.ts, len)} == map[]
  {
    assert Ends([x], len) == Ends([], len) + {BucketEnd(x.ts, len)};
  }

  lemma ClosedRowsOf(ten: HostTable, s: seq<HostSample>, last: int, r: Resolution, pct: nat)
    requires Keyed(ten) && Rows(ten) == s
    ensures ClosedRows(ten, Some(last), r, pct) == GroupBy(s, BucketMs(r), pct) - {BucketEnd(last, BucketMs(r))}
  {
  }

  lemma ClosedRow(ten: HostTable, s: seq<HostSample>, x: HostSample, previous: int, pct: nat, r: Resolution)
    requires Keyed(ten) && Rows(ten) == s + [x] && Ordered(s) && previous < x.ts && ClosedEnd(previous, x.ts, r).Some?
    ensures var end := ClosedEnd(previous, x.ts, r).value;
      end == BucketEnd(previous, BucketMs(r)) &&
      RolledBucket(ten, ClosedBucket(r, end), pct) == BucketRow(s, end, BucketMs(r), pct)
  {
    BucketEndIsEnd(previous, BucketMs(r));
    BucketEndRises(previous, x.ts, BucketMs(r));
    RolledBucketIsBucketRow(ten, s, x, ClosedBucket(r, BucketEnd(previous, BucketMs(r))), pct);
  }

  /** What the rollup of a later row adds to one coarse table is what the batch gains. */
  lemma LaterInsertKeepsTable(ten: HostTable, x: HostSample, previous: int, pct: nat, r: Resolution)
    requires Keyed(ten) && NewestTs(ten) == Some(previous) && previous < x.ts
    ensures Keyed(ten[x.ts := x])
    ensures var table, closed := ClosedRows(ten, Some(previous), r, pct), ClosedEnd(previous, x.ts, r);
      ClosedRows(ten[x.ts := x], Some(x.ts), r, pct) ==
        if closed.Some? then table + RolledBucket(ten[x.ts := x], ClosedBucket(r, closed.value), pct) else table
  {
    NewestIsGreatest(ten);
    RowsExtended(ten, x);
    var s := Rows(ten);
    ClosedRowsOf(ten, s, previous, r, pct);
    ClosedRowsOf(ten[x.ts := x], s + [x], x.ts, r, pct);
    CoarseStep(s, x, r, pct);
    if ClosedEnd(previous, x.ts, r).Some? { ClosedRow(ten[x.ts := x], s, x, previous, pct, r); }
  }

  lemma FirstInsertKeepsTable(x: HostSample, pct: nat, r: Resolution)
    ensures Keyed(map[x.ts := x]) && ClosedRows(map[x.ts := x], Some(x.ts), r, pct) == map[]
  {
    var none: HostTable := map[];
    NewestIsGreatest(none);
    RowsExtended(none, x);
    assert Rows(none) == [] && none[x.ts := x] == map[x.ts := x];
    assert Rows(map[x.ts := x]) == [x];
    FirstRowIsOpen(x, BucketMs(r), pct);
  }

  /** The bucket of resolution `r` closed, had a row to store, and its write was not reached. */
  predicate Missed(st: HostState, x: HostSample, pct: nat, written: nat, r: Resolution)
    requires Keyed(st.tables.tenSeconds)
  {
    var ten := st.tables.tenSeconds[x.ts := x];
    st.lastTs.Some? && Keyed(ten) &&
    var closed := ClosedEnd(st.lastTs.value, x.ts, r);
    && closed.Some? && ClosedBucket(r, closed.value) !in First(ResolutionsClosedBy(st.lastTs.value, x.ts), written)
    && RolledBucket(ten, ClosedBucket(r, closed.value), pct) != map[]
  }

  /** The row of the bucket just closed is not in the table yet: it was open until now. */
  lemma ClosedRowIsNew(ten: HostTable, x: HostSample, previous: int, pct: nat, r: Resolution)
    requires Keyed(ten) && NewestTs(ten) == Some(previous) && previous < x.ts && ClosedEnd(previous, x.ts, r).Some?
    ensures Keyed(ten[x.ts := x])
    ensures var table, end := ClosedRows(ten, Some(previous), r, pct), ClosedEnd(previous, x.ts, r).value;
      var row := RolledBucket(ten[x.ts := x], ClosedBucket(r, end), pct);
      table + row == table <==> row == map[]
  {
    var end := BucketEnd(previous, BucketMs(r));
    var row := RolledBucket(ten[x.ts := x], ClosedBucket(r, end), pct);
    NewestIsGreatest(ten);
    RowsExtended(ten, x);
    PrefixOrdered(Rows(ten), x);
    BucketEndIsEnd(previous, BucketMs(r));
    BucketEndRises(previous, x.ts, BucketMs(r));
    RolledBucketIsBucketRow(ten[x.ts := x], Rows(ten), x, ClosedBucket(r, end), pct);
    assert end !in ClosedRows(ten, Some(previous), r, pct) && row.Keys <= {end};
  }

  /** One insert, one coarse table: it keeps up with the batch exactly when its write was not missed. */
  lemma InsertKeepsTableIff(st: HostState, x: HostSample, pct: nat, written: nat, r: Resolution)
    requires Materialised(st, pct) && r in COARSE && (st.lastTs.Some? ==> st.lastTs.value < x.ts)
    ensures Keyed(st.tables.tenSeconds[x.ts := x])
    ensures var ten := st.tables.tenSeconds[x.ts := x];
      Inserted(st, x, pct, written).tables.Of(r) == ClosedRows(ten, Some(x.ts), r, pct)
      <==> !Missed(st, x, pct, written, r)
  {
    var ten := st.tables.tenSeconds;
    NewestIsGreatest(ten);
    WithOf(st.tables, TenSeconds, ten[x.ts := x], r);
    if st.lastTs.None? {
      FirstInsertKeepsTable(x, pct, r);
    } else {
      var previous := st.lastTs.value;
      LaterInsertKeepsTable(ten, x, previous, pct, r);
      StepTable(st.tables.With(TenSeconds, ten[x.ts := x]), ten[x.ts := x], previous, x.ts, written, pct, r);
      if ClosedEnd(previous, x.ts, r).Some? { ClosedRowIsNew(ten, x, previous, pct, r); }
    }
  }

  lemma GreatestIsLast(keys: set<int>, k: int)
    requires forall j :: j in keys ==> j < k
    ensures var sorted := SortedInts(keys + {k}); sorted != [] && sorted[|sorted| - 1] == k
  {
    SortedWithGreatest(keys, k);
  }

  lemma NewestAfterInsert(t: HostTable, x: HostSample)
    requires forall k :: k in t ==> k < x.ts
    ensures NewestTs(t[x.ts := x]) == Some(x.ts)
  {
    GreatestIsLast(t.Keys, x.ts);
    assert t[x.ts := x].Keys == t.Keys + {x.ts};
  }

  /** An insert that moves time forward keeps the coarse tables equal to the batch exactly when
      no closed bucket with a row to store was missed by its roll-up. */
  lemma InsertKeepsIff(st: HostState, x: HostSample, pct: nat, written: nat)
    requires Materialised(st, pct) && (st.lastTs.Some? ==> st.lastTs.value < x.ts)
    ensures Materialised(Inserted(st, x, pct, written), pct)
            <==> forall r :: r in COARSE ==> !Missed(st, x, pct, written, r)
  {
    NewestIsGreatest(st.tables.tenSeconds);
    InsertedTen(st, x, pct, written);
    NewestAfterInsert(st.tables.tenSeconds, x);
    forall r | r in COARSE
      ensures var tables := Inserted(st, x, pct, written).tables;
        tables.Of(r) == ClosedRows(tables.tenSeconds, Some(x.ts), r, pct) <==> !Missed(st, x, pct, written, r)
    {
      InsertKeepsTableIff(st, x, pct, written, r);
    }
  }

  /** A roll-up whose writes all succeed misses nothing. */
  lemma CompleteMissesNothing(st: HostState, x: HostSample, pct: nat, r: Resolution)
    requires Keyed(st.tables.tenSeconds) && r in COARSE
    ensures !Missed(st, x, pct, |COARSE|, r)
  {
    if st.lastTs.Some? {
      var closed := ResolutionsClosedBy(st.lastTs.value, x.ts);
      ClosedAmongMeans(COARSE, st.lastTs.value, x.ts);
      ClosedAtMost(COARSE, st.lastTs.value, x.ts);
      assert First(closed, |COARSE|) == closed;
    }
  }

  lemma {:induction false} ClosedAtMost(rs: seq<Resolution>, previousTs: int, newTs: int)
    ensures |ClosedAmong(rs, previousTs, newTs)| <= |rs|
  {
    if rs != [] { ClosedAtMost(rs[1..], previousTs, newTs); }
  }

  // ---------------------------------------------------------------- what an insert does, row by row

  /** Time leaves the bucket that ends at `end`: the newest row so far lies in it, and the new one past it. */
  predicate LeavesBucket(last: Option<int>, newTs: int, end: int, len: nat) {
    last.Some? && IsEnd(end, len) && end - len < last.value <= end < newTs
  }

  predicate SameAt(a: HostTable, b: HostTable, k: int) { (k in a <==> k in b) && (k in a ==> a[k] == b[k]) }

  /** The row due for the bucket, from the 10s rows with the new one; without one, whatever was there stays. */
  ghost predicate StoredAt(was: HostTable, now: HostTable, rows: seq<HostSample>, end: int, len: nat, pct: nat) {
    if RowDue(rows, end, len, pct) then end in now && now[end].ts == end && RowTold(rows, len, now[end])
    else SameAt(was, now, end)
  }

  lemma RolledBucketTold(ten: HostTable, end: int, r: Resolution, pct: nat, was: HostTable)
    requires Keyed(ten) && IsEnd(end, BucketMs(r))
    ensures StoredAt(was, was + RolledBucket(ten, ClosedBucket(r, end), pct), Rows(ten), end, BucketMs(r), pct)
    ensures forall k :: k in RolledBucket(ten, ClosedBucket(r, end), pct) ==> k == end
  {
    RangeIsBucket(Rows(ten), end, r);
    SingleBucket(Rows(ten), end, BucketMs(r), pct);
    RowDueTold(Rows(ten), end, BucketMs(r), pct);
  }

  lemma LeavesIsCloses(previous: int, newTs: int, end: int, r: Resolution)
    requires previous < newTs
    ensures LeavesBucket(Some(previous), newTs, end, BucketMs(r)) <==> ClosedEnd(previous, newTs, r) == Some(end)
  {
    var len := BucketMs(r);
    BucketEndIsEnd(previous, len);
    BucketEndRises(previous, newTs, len);
    if LeavesBucket(Some(previous), newTs, end, len) { EndCovers(previous, len, end); }
  }

  /** One table after an insert: changed only at the end of a bucket time just left, and there only if its write was
      reached, which it is when all of them succeed. */
  ghost predicate TableAfterInsert(was: HostTable, now: HostTable, rows: seq<HostSample>, last: Option<int>, newTs: int,
                                   len: nat, pct: nat, complete: bool) {
    forall end ::
      if !LeavesBucket(last, newTs, end, len) then SameAt(was, now, end)
      else StoredAt(was, now, rows, end, len, pct) || (!complete && SameAt(was, now, end))
  }

  lemma SameTables(t: HostTable, rows: seq<HostSample>, last: Option<int>, newTs: int, len: nat, pct: nat)
    requires forall end :: !LeavesBucket(last, newTs, end, len)
    ensures TableAfterInsert(t, t, rows, last, newTs, len, pct, true)
  {
  }

  lemma RolledTableTold(was: HostTable, ten: HostTable, previous: int, newTs: int, r: Resolution, pct: nat)
    requires Keyed(ten) && previous < newTs && ClosedEnd(previous, newTs, r).Some?
    ensures var c := ClosedBucket(r, ClosedEnd(previous, newTs, r).value);
      TableAfterInsert(was, was + RolledBucket(ten, c, pct), Rows(ten), Some(previous), newTs, BucketMs(r), pct, true)
  {
    var end := ClosedEnd(previous, newTs, r).value;
    BucketEndIsEnd(previous, BucketMs(r));
    RolledBucketTold(ten, end, r, pct, was);
    var now := was + RolledBucket(ten, ClosedBucket(r, end), pct);
    forall e
      ensures if LeavesBucket(Some(previous), newTs, e, BucketMs(r))
              then StoredAt(was, now, Rows(ten), e, BucketMs(r), pct) else SameAt(was, now, e)
    {
      LeavesIsCloses(previous, newTs, e, r);
    }
  }

  lemma NothingLeft(previous: int, newTs: int, r: Resolution)
    requires previous < newTs && ClosedEnd(previous, newTs, r).None?
    ensures forall end :: !LeavesBucket(Some(previous), newTs, end, BucketMs(r))
  {
    forall end ensures !LeavesBucket(Some(previous), newTs, end, BucketMs(r)) {
      LeavesIsCloses(previous, newTs, end, r);
    }
  }

  lemma AllWritesReached(previous: int, newTs: int, written: nat, c: ClosedBucket)
    requires |COARSE| <= written && c in ResolutionsClosedBy(previous, newTs)
    ensures c in First(ResolutionsClosedBy(previous, newTs), written)
  {
    ClosedAtMost(COARSE, previous, newTs);
    assert First(ResolutionsClosedBy(previous, newTs), written) == ResolutionsClosedBy(previous, newTs);
  }

  lemma StepTold(tables: HostTables, ten: HostTable, previous: int, newTs: int, written: nat, pct: nat, r: Resolution)
    requires Keyed(ten) && previous < newTs && r in COARSE
    ensures var now := RolledUp(tables, ten, First(ResolutionsClosedBy(previous, newTs), written), pct);
      TableAfterInsert(tables.Of(r), now.Of(r), Rows(ten), Some(previous), newTs, BucketMs(r), pct, |COARSE| <= written)
  {
    var closed, len := ClosedEnd(previous, newTs, r), BucketMs(r);
    StepTable(tables, ten, previous, newTs, written, pct, r);
    if closed.None? {
      NothingLeft(previous, newTs, r);
      SameTables(tables.Of(r), Rows(ten), Some(previous), newTs, len, pct);
    } else {
      var c := ClosedBucket(r, closed.value);
      RolledTableTold(tables.Of(r), ten, previous, newTs, r, pct);
      ClosedAmongMeans(COARSE, previous, newTs);
      if |COARSE| <= written { AllWritesReached(previous, newTs, written, c); }
    }
  }

  /** A fresh row is in the 10s table, and each coarse table has gained the row of the bucket it left. */
  lemma InsertTells(st: HostState, x: HostSample, pct: nat, written: nat, r: Resolution)
    requires Keyed(st.tables.tenSeconds) && x.ts !in st.tables.tenSeconds && r in COARSE
    ensures var now, ten := Inserted(st, x, pct, written), st.tables.tenSeconds[x.ts := x];
      && now.tables.tenSeconds == ten && now.lastTs == Some(x.ts) && Keyed(ten)
      && TableAfterInsert(st.tables.Of(r), now.tables.Of(r), Rows(ten), st.lastTs, x.ts, BucketMs(r), pct,
                          |COARSE| <= written)
  {
    var ten := st.tables.tenSeconds[x.ts := x];
    InsertedTen(st, x, pct, written);
    WithOf(st.tables, TenSeconds, ten, r);
    if st.lastTs.Some? && st.lastTs.value < x.ts {
      StepTold(st.tables.With(TenSeconds, ten), ten, st.lastTs.value, x.ts, written, pct, r);
    } else {
      SameTables(st.tables.Of(r), Rows(ten), st.lastTs, x.ts, BucketMs(r), pct);
    }
  }
}
