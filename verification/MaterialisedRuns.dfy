/** Whole runs of the host tables: inserts, restarts and retention deletes, against batch downsampling. */
module MaterialisedRuns {
  import opened Prelude
  import opened Weeks
  import opened Buckets
  import opened HostMetrics
  import opened Downsampling
  import opened Rollup
  import opened MetricsStore
  import opened Materialisation

  /** `DELETE WHERE ts < cutoff`. */
  function Trimmed(t: HostTable, cutoff: int): HostTable { map k | k in t && cutoff <= k :: t[k] }

  /** The tables are trimmed one after the other; the pass stops at the first delete that fails, after `done`. */
  function Deleted(t: HostTables, cutoff: int, done: nat): HostTables {
    HostTables(if done > 0 then Trimmed(t.tenSeconds, cutoff) else t.tenSeconds,
               if done > 1 then Trimmed(t.oneMinute, cutoff) else t.oneMinute,
               if done > 2 then Trimmed(t.fiveMinutes, cutoff) else t.fiveMinutes,
               if done > 3 then Trimmed(t.oneHour, cutoff) else t.oneHour)
  }

  /** `written` and `done` are how many of its writes succeed. */
  datatype Event = Insert(sample: HostSample, written: nat) | Restart | Delete(cutoff: int, done: nat)

  /** The greatest cutoff of a run. */
  function Cutoff(events: seq<Event>): Option<int> {
    if events == [] then None
    else
      var earlier, e := Cutoff(events[..|events| - 1]), events[|events| - 1];
      if e.Delete? then Raised(earlier, e.cutoff) else earlier
  }

  function Raised(c: Option<int>, cutoff: int): Option<int> { Some(if c.None? then cutoff else Max(c.value, cutoff)) }

  /** The rows of buckets that end after the cutoff. */
  function Above(t: HostTable, c: Option<int>): HostTable {
    if c.None? then t else map k | k in t && c.value < k :: t[k]
  }

  /** Past the cutoff every coarse table is the batch downsampling of the 10s rows still there. */
  ghost predicate MaterialisedAbove(st: HostState, c: Option<int>, pct: nat) {
    && Keyed(st.tables.tenSeconds) && (st.lastTs == NewestTs(st.tables.tenSeconds) || st.tables.tenSeconds == map[])
    && forall r :: r in COARSE ==>
      Above(st.tables.Of(r), c) == Above(ClosedRows(st.tables.tenSeconds, st.lastTs, r, pct), c)
  }

  /** Opening the store over the tables on disk. */
  function Reopened(st: HostState): HostState { HostState(st.tables, NewestTs(st.tables.tenSeconds)) }

  const EMPTY: HostState := HostState(HostTables(map[], map[], map[], map[]), None)

  /** Inserts come with rising time, and no roll-up misses a row; retention cuts at Mondays. */
  ghost predicate StepsTo(before: HostState, e: Event, after: HostState, pct: nat) {
    match e
    case Restart => after == Reopened(before)
    case Delete(cutoff, done) =>
      IsMonday(cutoff) && after == HostState(Deleted(before.tables, cutoff, done), before.lastTs)
    case Insert(x, written) =>
      && Keyed(before.tables.tenSeconds) && (before.lastTs.Some? ==> before.lastTs.value < x.ts)
      && (forall r :: r in COARSE ==> !Missed(before, x, pct, written, r))
      && after == Inserted(before, x, pct, written)
  }

  ghost predicate ReachedBy(events: seq<Event>, st: HostState, pct: nat) {
    if events == [] then st == EMPTY
    else
      var earlier, e := events[..|events| - 1], events[|events| - 1];
      exists before :: ReachedBy(earlier, before, pct) && StepsTo(before, e, st, pct)
  }

  // ---------------------------------------------------------------- a delete

  /** Coarse buckets end on Mondays, too. */
  lemma MondayEndsBuckets(m: int, r: Resolution)
    requires IsMonday(m) && r in COARSE
    ensures IsEnd(m, BucketMs(r))
  {
    var q := (m + 3 * DAY_MS) / WEEK_MS;
    var hours := q * 168 - 72;
    assert m == hours * 3_600_000;
    BucketEndIsRoundedUp(m, 3_600_000);
    assert (-m) / 3_600_000 == -hours;
    match r {
      case OneMinute => CoarseEndIsFineEnd(m, 60_000, 60);
      case FiveMinutes => CoarseEndIsFineEnd(m, 300_000, 12);
      case OneHour => CoarseEndIsFineEnd(m, 3_600_000, 1);
    }
  }

  lemma SplitPoint(keys: seq<int>, cutoff: int) returns (n: nat)
    requires Ascending(keys)
    ensures n <= |keys| && (forall i :: 0 <= i < n ==> keys[i] < cutoff)
    ensures forall i :: n <= i < |keys| ==> cutoff <= keys[i]
  {
    n := |keys|;
    while n > 0 && cutoff <= keys[n - 1]
      invariant n <= |keys| && forall i :: n <= i < |keys| ==> cutoff <= keys[i]
    {
      n := n - 1;
    }
  }

  lemma TrimmedKeys(t: HostTable, cutoff: int, n: nat)
    requires var keys := SortedInts(t.Keys);
      && n <= |keys| && (forall i :: 0 <= i < n ==> keys[i] < cutoff)
      && forall i :: n <= i < |keys| ==> cutoff <= keys[i]
    ensures SortedInts(Trimmed(t, cutoff).Keys) == SortedInts(t.Keys)[n..]
  {
    var keys, kept := SortedInts(t.Keys), SortedInts(Trimmed(t, cutoff).Keys);
    forall k ensures k in keys[n..] <==> k in kept {
      if k in kept {
        assert k in keys;
        var i :| 0 <= i < |keys| && keys[i] == k;
        assert k == keys[n..][i - n];
      }
      if k in keys[n..] { assert k in keys && k in t.Keys; }
    }
    AscendingIsUnique(keys[n..], kept);
  }

  lemma RowsAtTail(t: HostTable, cutoff: int, keys: seq<int>, n: nat)
    requires n <= |keys| && forall i :: 0 <= i < |keys| ==> keys[i] in t
    requires forall i :: n <= i < |keys| ==> cutoff <= keys[i]
    ensures forall i :: 0 <= i < |keys[n..]| ==> keys[n..][i] in Trimmed(t, cutoff)
    ensures RowsAt(Trimmed(t, cutoff), keys[n..]) == RowsAt(t, keys)[n..]
  {
  }

  lemma KeysAreIn(t: HostTable)
    ensures var keys := SortedInts(t.Keys); forall i :: 0 <= i < |keys| ==> keys[i] in t
  {
    var keys := SortedInts(t.Keys);
    assert forall i :: 0 <= i < |keys| ==> keys[i] in keys;
  }

  lemma RowsBefore(t: HostTable, cutoff: int, n: nat)
    requires Keyed(t) && n <= |Rows(t)| && forall i :: 0 <= i < n ==> SortedInts(t.Keys)[i] < cutoff
    ensures forall x :: x in Rows(t)[..n] ==> x.ts < cutoff
  {
    KeysAreIn(t);
  }

  lemma RowsFrom(t: HostTable, cutoff: int, n: nat)
    requires Keyed(t) && n <= |Rows(t)| && forall i :: n <= i < |SortedInts(t.Keys)| ==> cutoff <= SortedInts(t.Keys)[i]
    ensures forall x :: x in Rows(t)[n..] ==> cutoff <= x.ts
  {
    KeysAreIn(t);
  }

  /** What is left of a table is the part of its listing that starts at the cutoff. */
  lemma TrimmedRows(t: HostTable, cutoff: int) returns (n: nat)
    requires Keyed(t)
    ensures Keyed(Trimmed(t, cutoff)) && n <= |Rows(t)| && Rows(Trimmed(t, cutoff)) == Rows(t)[n..]
    ensures forall x :: x in Rows(t)[..n] ==> x.ts < cutoff
    ensures forall x :: x in Rows(t)[n..] ==> cutoff <= x.ts
  {
    var keys := SortedInts(t.Keys);
    n := SplitPoint(keys, cutoff);
    KeysAreIn(t);
    TrimmedKeys(t, cutoff, n);
    RowsAtTail(t, cutoff, keys, n);
    RowsBefore(t, cutoff, n);
    RowsFrom(t, cutoff, n);
  }

  lemma {:induction false} OthersOutOfBucket(s: seq<HostSample>, n: nat, end: int, len: nat)
    requires 0 < len && n <= |s| && forall x :: x in s[..n] ==> BucketEnd(x.ts, len) != end
    ensures InBucket(s[n..], end, len) == InBucket(s, end, len)
  {
    if |s| > n {
      var init, last := s[..|s| - 1], s[|s| - 1];
      assert init[..n] == s[..n] && s[n..][..|s| - n - 1] == init[n..] && s[n..][|s| - n - 1] == last;
      OthersOutOfBucket(init, n, end, len);
    } else if n > 0 {
      assert s[..n] == s && s[n..] == [] && s[n - 1] in s[..n];
      assert s[..n - 1][..n - 1] == s[..n - 1];
      forall x | x in s[..n - 1] ensures BucketEnd(x.ts, len) != end { assert x in s[..n]; }
      OthersOutOfBucket(s[..n - 1], n - 1, end, len);
    }
  }

  /** A later bucket holds none of the rows a cutoff removes. */
  lemma TrimmedBucket(t: HostTable, cutoff: int, c: int, end: int, len: nat)
    requires Keyed(t) && cutoff <= c < end && IsEnd(c, len)
    ensures Keyed(Trimmed(t, cutoff)) && InBucket(Rows(Trimmed(t, cutoff)), end, len) == InBucket(Rows(t), end, len)
  {
    var n := TrimmedRows(t, cutoff);
    forall x | x in Rows(t)[..n] ensures BucketEnd(x.ts, len) != end { BucketEndRises(x.ts, c, len); }
    OthersOutOfBucket(Rows(t), n, end, len);
  }

  lemma SameRowsAbove(s: seq<HostSample>, t: seq<HostSample>, c: int, len: nat, pct: nat)
    requires 0 < len && Ordered(s) && Ordered(t)
    requires forall end :: c < end ==> InBucket(s, end, len) == InBucket(t, end, len)
    ensures Above(GroupBy(s, len, pct), Some(c)) == Above(GroupBy(t, len, pct), Some(c))
  {
    var a, b := GroupBy(s, len, pct), GroupBy(t, len, pct);
    forall end | c < end ensures (end in a <==> end in b) && (end in b ==> a[end] == b[end]) {
      GroupByAt(s, end, len, pct);
      GroupByAt(t, end, len, pct);
    }
  }

  lemma AboveWithout(a: HostTable, b: HostTable, c: Option<int>, end: int)
    requires Above(a, c) == Above(b, c)
    ensures Above(a - {end}, c) == Above(b - {end}, c)
  {
    assert Above(a - {end}, c) == Above(a, c) - {end} && Above(b - {end}, c) == Above(b, c) - {end};
  }

  lemma DeleteKeepsBatch(ten: HostTable, last: Option<int>, r: Resolution, pct: nat, cutoff: int, c: int)
    requires Keyed(ten) && cutoff <= c && IsEnd(c, BucketMs(r))
    ensures Keyed(Trimmed(ten, cutoff))
    ensures Above(ClosedRows(Trimmed(ten, cutoff), last, r, pct), Some(c)) ==
            Above(ClosedRows(ten, last, r, pct), Some(c))
  {
    var len, trimmed := BucketMs(r), Trimmed(ten, cutoff);
    forall end | c < end ensures InBucket(Rows(trimmed), end, len) == InBucket(Rows(ten), end, len) {
      TrimmedBucket(ten, cutoff, c, end, len);
    }
    SameRowsAbove(Rows(trimmed), Rows(ten), c, len, pct);
    if last.Some? {
      AboveWithout(GroupBy(Rows(trimmed), len, pct), GroupBy(Rows(ten), len, pct), Some(c), BucketEnd(last.value, len));
    }
  }

  lemma NewestIs(t: HostTable, m: int)
    requires Keyed(t) && m in t && forall k :: k in t ==> k <= m
    ensures NewestTs(t) == Some(m)
  {
    NewestIsGreatest(t);
  }

  lemma NewestAfterDelete(t: HostTable, cutoff: int)
    requires Keyed(t)
    ensures Keyed(Trimmed(t, cutoff))
    ensures NewestTs(Trimmed(t, cutoff)) == NewestTs(t) || Trimmed(t, cutoff) == map[]
  {
    if Trimmed(t, cutoff) != map[] {
      NewestIsGreatest(t);
      var k :| k in Trimmed(t, cutoff);
      assert k in t && cutoff <= k <= NewestTs(t).value;
      NewestIs(Trimmed(t, cutoff), NewestTs(t).value);
    }
  }

  lemma AboveOfTrimmed(t: HostTable, cutoff: int, c: int)
    requires cutoff <= c
    ensures Above(Trimmed(t, cutoff), Some(c)) == Above(t, Some(c))
  {
  }

  lemma AboveMore(a: HostTable, b: HostTable, c: Option<int>, cutoff: int)
    requires Above(a, c) == Above(b, c)
    ensures Above(a, Raised(c, cutoff)) == Above(b, Raised(c, cutoff))
  {
    assert Above(a, Raised(c, cutoff)) == Above(Above(a, c), Raised(c, cutoff));
    assert Above(b, Raised(c, cutoff)) == Above(Above(b, c), Raised(c, cutoff));
  }

  lemma DeleteKeepsTable(st: HostState, c: Option<int>, pct: nat, cutoff: int, done: nat, r: Resolution)
    requires MaterialisedAbove(st, c, pct) && r in COARSE && IsMonday(Raised(c, cutoff).value)
    ensures var tables, raised := Deleted(st.tables, cutoff, done), Raised(c, cutoff);
      Keyed(tables.tenSeconds) &&
      Above(tables.Of(r), raised) == Above(ClosedRows(tables.tenSeconds, st.lastTs, r, pct), raised)
  {
    var ten, raised := st.tables.tenSeconds, Raised(c, cutoff);
    AboveMore(st.tables.Of(r), ClosedRows(ten, st.lastTs, r, pct), c, cutoff);
    AboveOfTrimmed(st.tables.Of(r), cutoff, raised.value);
    MondayEndsBuckets(raised.value, r);
    DeleteKeepsBatch(ten, st.lastTs, r, pct, cutoff, raised.value);
  }

  lemma DeleteKeeps(st: HostState, c: Option<int>, pct: nat, cutoff: int, done: nat)
    requires MaterialisedAbove(st, c, pct) && IsMonday(Raised(c, cutoff).value)
    ensures MaterialisedAbove(HostState(Deleted(st.tables, cutoff, done), st.lastTs), Raised(c, cutoff), pct)
  {
    NewestAfterDelete(st.tables.tenSeconds, cutoff);
    forall r | r in COARSE
      ensures var tables, raised := Deleted(st.tables, cutoff, done), Raised(c, cutoff);
        Keyed(tables.tenSeconds) &&
        Above(tables.Of(r), raised) == Above(ClosedRows(tables.tenSeconds, st.lastTs, r, pct), raised)
    {
      DeleteKeepsTable(st, c, pct, cutoff, done, r);
    }
  }

  // ---------------------------------------------------------------- an insert

  lemma EmptyBatch(last: Option<int>, r: Resolution, pct: nat)
    ensures ClosedRows(map[], last, r, pct) == map[]
  {
    NewestIsGreatest(map[]);
    assert Ends([], BucketMs(r)) == {};
  }

  lemma AboveOfSum(a: HostTable, b: HostTable, row: HostTable, c: Option<int>)
    requires Above(a, c) == Above(b, c)
    ensures Above(a + row, c) == Above(b + row, c)
  {
    assert Above(a + row, c) == Above(a, c) + Above(row, c) && Above(b + row, c) == Above(b, c) + Above(row, c);
  }

  lemma OneRow(x: HostSample)
    ensures Keyed(map[x.ts := x]) && Rows(map[x.ts := x]) == [x]
  {
    var none: HostTable := map[];
    NewestIsGreatest(none);
    RowsExtended(none, x);
    assert Rows(none) == [] && none[x.ts := x] == map[x.ts := x];
  }

  lemma OutOfRange(x: HostSample, r: TimeRange, len: nat, pct: nat)
    requires r.to < x.ts && 0 < len
    ensures GroupBy(InRange([x], r), len, pct) == map[]
  {
    assert [x][..0] == [] && InRange([x], r) == [];
    assert Ends([], len) == {};
  }

  /** After a delete emptied the 10s table, the first bucket to close has nothing to store. */
  lemma NothingToRollUp(x: HostSample, previous: int, r: Resolution, pct: nat)
    requires previous < x.ts && ClosedEnd(previous, x.ts, r).Some?
    ensures Keyed(map[x.ts := x])
    ensures RolledBucket(map[x.ts := x], ClosedBucket(r, ClosedEnd(previous, x.ts, r).value), pct) == map[]
  {
    var end := BucketEnd(previous, BucketMs(r));
    OneRow(x);
    BucketEndRises(previous, x.ts, BucketMs(r));
    OutOfRange(x, SourceRange(end, r), BucketMs(r), pct);
  }

  lemma InsertIntoEmpty(st: HostState, c: Option<int>, x: HostSample, pct: nat, written: nat, r: Resolution)
    requires MaterialisedAbove(st, c, pct) && r in COARSE && (st.lastTs.Some? ==> st.lastTs.value < x.ts)
    requires st.tables.tenSeconds == map[]
    ensures Keyed(map[x.ts := x])
    ensures Above(Inserted(st, x, pct, written).tables.Of(r), c) ==
            Above(ClosedRows(map[x.ts := x], Some(x.ts), r, pct), c)
  {
    EmptyBatch(st.lastTs, r, pct);
    FirstInsertKeepsTable(x, pct, r);
    WithOf(st.tables, TenSeconds, map[x.ts := x], r);
    if st.lastTs.Some? {
      StepTable(st.tables.With(TenSeconds, map[x.ts := x]), map[x.ts := x], st.lastTs.value, x.ts, written, pct, r);
      if ClosedEnd(st.lastTs.value, x.ts, r).Some? { NothingToRollUp(x, st.lastTs.value, r, pct); }
    }
  }

  lemma StoredOrEmpty(a: HostTable, b: HostTable, row: HostTable, stored: bool, c: Option<int>)
    requires Above(a, c) == Above(b, c) && (stored || row == map[])
    ensures Above(if stored then a + row else a, c) == Above(b + row, c)
  {
    if stored { AboveOfSum(a, b, row, c); } else { assert b + row == b; }
  }

  /** What the roll-up of an insert does to a coarse table, and what the batch gains. */
  lemma InsertedTable(st: HostState, x: HostSample, pct: nat, written: nat, r: Resolution)
    requires Keyed(st.tables.tenSeconds) && st.lastTs.Some? && st.lastTs.value < x.ts && r in COARSE
    requires st.lastTs == NewestTs(st.tables.tenSeconds)
    ensures var ten, previous := st.tables.tenSeconds[x.ts := x], st.lastTs.value;
      var closed, batch := ClosedEnd(previous, x.ts, r), ClosedRows(st.tables.tenSeconds, st.lastTs, r, pct);
      var done := First(ResolutionsClosedBy(previous, x.ts), written);
      && Keyed(ten)
      && Inserted(st, x, pct, written).tables.Of(r) ==
         (if closed.Some? && ClosedBucket(r, closed.value) in done
          then st.tables.Of(r) + RolledBucket(ten, ClosedBucket(r, closed.value), pct) else st.tables.Of(r))
      && ClosedRows(ten, Some(x.ts), r, pct) ==
         (if closed.Some? then batch + RolledBucket(ten, ClosedBucket(r, closed.value), pct) else batch)
  {
    var ten, previous := st.tables.tenSeconds, st.lastTs.value;
    NewestIsGreatest(ten);
    WithOf(st.tables, TenSeconds, ten[x.ts := x], r);
    LaterInsertKeepsTable(ten, x, previous, pct, r);
    StepTable(st.tables.With(TenSeconds, ten[x.ts := x]), ten[x.ts := x], previous, x.ts, written, pct, r);
  }

  lemma InsertIntoRows(st: HostState, c: Option<int>, x: HostSample, pct: nat, written: nat, r: Resolution)
    requires MaterialisedAbove(st, c, pct) && r in COARSE && st.lastTs.Some? && st.lastTs.value < x.ts
    requires st.lastTs == NewestTs(st.tables.tenSeconds) && !Missed(st, x, pct, written, r)
    ensures Keyed(st.tables.tenSeconds[x.ts := x])
    ensures var ten := st.tables.tenSeconds[x.ts := x];
      Above(Inserted(st, x, pct, written).tables.Of(r), c) == Above(ClosedRows(ten, Some(x.ts), r, pct), c)
  {
    InsertedTable(st, x, pct, written, r);
    var ten, closed := st.tables.tenSeconds[x.ts := x], ClosedEnd(st.lastTs.value, x.ts, r);
    if closed.Some? {
      var stored := ClosedBucket(r, closed.value) in First(ResolutionsClosedBy(st.lastTs.value, x.ts), written);
      var row := RolledBucket(ten, ClosedBucket(r, closed.value), pct);
      StoredOrEmpty(st.tables.Of(r), ClosedRows(st.tables.tenSeconds, st.lastTs, r, pct), row, stored, c);
    }
  }

  lemma InsertKeeps(st: HostState, c: Option<int>, x: HostSample, pct: nat, written: nat)
    requires MaterialisedAbove(st, c, pct) && (st.lastTs.Some? ==> st.lastTs.value < x.ts)
    requires forall r :: r in COARSE ==> !Missed(st, x, pct, written, r)
    ensures MaterialisedAbove(Inserted(st, x, pct, written), c, pct)
  {
    var ten := st.tables.tenSeconds;
    NewestIsGreatest(ten);
    InsertedTen(st, x, pct, written);
    NewestAfterInsert(ten, x);
    forall r | r in COARSE
      ensures var tables := Inserted(st, x, pct, written).tables;
        Above(tables.Of(r), c) == Above(ClosedRows(tables.tenSeconds, Some(x.ts), r, pct), c)
    {
      if ten == map[] {
        InsertIntoEmpty(st, c, x, pct, written, r);
      } else {
        InsertIntoRows(st, c, x, pct, written, r);
      }
    }
  }

  // ---------------------------------------------------------------- a run

  lemma RestartKeeps(st: HostState, c: Option<int>, pct: nat)
    requires MaterialisedAbove(st, c, pct)
    ensures MaterialisedAbove(Reopened(st), c, pct)
  {
    if st.tables.tenSeconds == map[] {
      forall r | r in COARSE
        ensures ClosedRows(map[], NewestTs(map[]), r, pct) == ClosedRows(map[], st.lastTs, r, pct)
      {
        EmptyBatch(NewestTs(map[]), r, pct);
        EmptyBatch(st.lastTs, r, pct);
      }
    }
  }

  /** Over every such run the coarse tables equal batch downsampling of the 10s table in every bucket that ends after
      the greatest cutoff, in all of them before the first delete. */
  lemma {:induction false} IncrementalEqualsBatch(events: seq<Event>, st: HostState, pct: nat)
    requires ReachedBy(events, st, pct)
    ensures MaterialisedAbove(st, Cutoff(events), pct)
    ensures Cutoff(events).Some? ==> IsMonday(Cutoff(events).value)
  {
    if events == [] {
      assert EMPTY.tables.tenSeconds.Keys == {};
    } else {
      var earlier, e := events[..|events| - 1], events[|events| - 1];
      var before :| ReachedBy(earlier, before, pct) && StepsTo(before, e, st, pct);
      IncrementalEqualsBatch(earlier, before, pct);
      match e {
        case Insert(x, written) => InsertKeeps(before, Cutoff(earlier), x, pct, written);
        case Restart => RestartKeeps(before, Cutoff(earlier), pct);
        case Delete(cutoff, done) => DeleteKeeps(before, Cutoff(earlier), pct, cutoff, done);
      }
    }
  }
}
