/** The host tables: every insert of a 10s row materialises the coarse buckets it closes. */
module MetricsStore {
  import opened Prelude
  import opened HostMetrics
  import opened Downsampling
  import opened Rollup

  /** Rows by their primary key, the bucket end they are stamped with. */
  type HostTable = map<int, HostSample>

  predicate Keyed(t: HostTable) { forall k :: k in t ==> t[k].ts == k }

  /** The rows of the listed keys, in that order. */
  function RowsAt(t: HostTable, keys: seq<int>): seq<HostSample>
    requires forall i :: 0 <= i < |keys| ==> keys[i] in t
  {
    seq(|keys|, i requires 0 <= i < |keys| => t[keys[i]])
  }

  /** `SELECT * ORDER BY ts`. */
  function Rows(t: HostTable): (r: seq<HostSample>)
    requires Keyed(t)
    ensures Ordered(r)
  {
    var keys := SortedInts(t.Keys);
    assert forall i :: 0 <= i < |keys| ==> keys[i] in keys;
    RowsAt(t, keys)
  }

  function SelectHost(t: HostTable, r: TimeRange): seq<HostSample>
    requires Keyed(t)
  {
    InRange(Rows(t), r)
  }

  datatype HostTables = HostTables(
    tenSeconds: HostTable, oneMinute: HostTable, fiveMinutes: HostTable, oneHour: HostTable) {
    function Of(r: Resolution): HostTable {
      match r
      case TenSeconds => tenSeconds
      case OneMinute => oneMinute
      case FiveMinutes => fiveMinutes
      case OneHour => oneHour
    }

    function With(r: Resolution, t: HostTable): HostTables {
      match r
      case TenSeconds => this.(tenSeconds := t)
      case OneMinute => this.(oneMinute := t)
      case FiveMinutes => this.(fiveMinutes := t)
      case OneHour => this.(oneHour := t)
    }
  }

  /** The rows of the one bucket that closed, by a read of its own range. */
  function RolledBucket(ten: HostTable, c: ClosedBucket, pct: nat): HostTable
    requires Keyed(ten)
  {
    GroupBy(SelectHost(ten, SourceRange(c.end, c.resolution)), BucketMs(c.resolution), pct)
  }

  /** Every closed bucket inserted or replaced, one separate range read for each. */
  function RolledUp(tables: HostTables, ten: HostTable, closed: seq<ClosedBucket>, pct: nat): HostTables
    requires Keyed(ten)
  {
    if closed == [] then tables
    else
      var c, before := closed[|closed| - 1], RolledUp(tables, ten, closed[..|closed| - 1], pct);
      before.With(c.resolution, before.Of(c.resolution) + RolledBucket(ten, c, pct))
  }

  datatype HostState = HostState(tables: HostTables, lastTs: Option<int>)

  /** Records the newest bucket; the one before it, when time moved on. */
  function Advanced(last: Option<int>, newTs: int): Option<int> {
    if last.Some? && newTs > last.value then last else None
  }

  /** A duplicate instant is refused and changes nothing. The roll-up stops at the first write that fails,
      after `written` of the closed buckets; the insert succeeds all the same. */
  function Inserted(st: HostState, x: HostSample, pct: nat, written: nat): HostState
    requires Keyed(st.tables.tenSeconds)
  {
    if x.ts in st.tables.tenSeconds then st
    else
      var ten := st.tables.tenSeconds[x.ts := x];
      var tables := st.tables.With(TenSeconds, ten);
      var previous := Advanced(st.lastTs, x.ts);
      var closed := if previous.Some? then ResolutionsClosedBy(previous.value, x.ts) else [];
      HostState(RolledUp(tables, ten, First(closed, written), pct), Some(x.ts))
  }

  class SqliteMetricsStore {
    var tables: HostTables
    var lastHostTs: Option<int>
    const maxGapPct: nat

    ghost predicate Valid() reads this { Keyed(tables.tenSeconds) }

    ghost function State(): HostState reads this { HostState(tables, lastHostTs) }

    /** Opens the store over existing tables: the cursor restarts from the newest 10s row. */
    constructor (existing: HostTables, maxGapPct: nat)
      requires Keyed(existing.tenSeconds)
      ensures Valid() && tables == existing && this.maxGapPct == maxGapPct
      ensures lastHostTs == NewestTs(existing.tenSeconds)
    {
      tables, this.maxGapPct := existing, maxGapPct;
      lastHostTs := NewestTs(existing.tenSeconds);
    }

    /** Reads the 10s rows once, for the widest closed bucket, and cuts every finer bucket out of that read. */
    method RollUpHost(previousTs: int, newTs: int, written: nat) returns (ok: bool)
      requires Valid()
      modifies `tables
      ensures var closed := ResolutionsClosedBy(previousTs, newTs);
        && tables == RolledUp(old(tables), old(tables).tenSeconds, First(closed, written), maxGapPct)
        && (ok <==> |closed| <= written)
    {
      var closed := ResolutionsClosedBy(previousTs, newTs);
      var wide := WidestSourceRange(closed);
      if wide.None? {
        return true;
      }
      ghost var ten := tables.tenSeconds;
      var samples := SelectHost(tables.tenSeconds, wide.value);
      for i := 0 to |closed|
        invariant i <= written && tables == RolledUp(old(tables), ten, closed[..i], maxGapPct)
      {
        if i == written {
          return false;
        }
        var c := closed[i];
        ClosedBucketsNest(previousTs, newTs, c);
        var rows := RollOne(samples, c, maxGapPct, ten, wide.value);
        tables := tables.With(c.resolution, tables.Of(c.resolution) + AsTable(rows));
        assert closed[..i + 1][..i] == closed[..i];
      }
      assert closed[..|closed|] == closed;
      ok := true;
    }

    /** `written` is how many roll-up writes succeed before one fails. */
    method InsertHost(x: HostSample, written: nat) returns (ok: bool)
      requires Valid()
      modifies this
      ensures State() == Inserted(old(State()), x, maxGapPct, written)
      ensures ok <==> x.ts !in old(tables).tenSeconds
    {
      if x.ts in tables.tenSeconds {
        return false;
      }
      tables := tables.With(TenSeconds, tables.tenSeconds[x.ts := x]);
      var previous := Advanced(lastHostTs, x.ts);
      lastHostTs := Some(x.ts);
      if previous.Some? {
        var rolled := RollUpHost(previous.value, x.ts, written);
      }
      ok := true;
    }
  }

  function NewestTs(t: HostTable): Option<int> {
    var keys := SortedInts(t.Keys);
    if keys == [] then None else Some(keys[|keys| - 1])
  }

  /** The rows of one closed bucket, cut out of the wide read. */
  method RollOne(samples: seq<HostSample>, c: ClosedBucket, pct: nat, ghost ten: HostTable, ghost wide: TimeRange)
    returns (rows: seq<HostSample>)
    requires Keyed(ten) && samples == SelectHost(ten, wide)
    requires wide.from <= SourceRange(c.end, c.resolution).from && SourceRange(c.end, c.resolution).to <= wide.to
    ensures AsTable(rows) == RolledBucket(ten, c, pct)
  {
    InRangeIsOrdered(Rows(ten), wide);
    InRangeOfInRange(Rows(ten), wide, SourceRange(c.end, c.resolution));
    var slice := SliceByRange(samples, SourceRange(c.end, c.resolution));
    InRangeIsOrdered(Rows(ten), SourceRange(c.end, c.resolution));
    rows := DownsampleHost(slice, c.resolution, pct);
  }

  lemma {:induction false} InRangeIsOrdered(s: seq<HostSample>, r: TimeRange)
    requires Ordered(s)
    ensures Ordered(InRange(s, r)) && forall x :: x in InRange(s, r) ==> x in s
  {
    if s != [] {
      var init, last := s[..|s| - 1], s[|s| - 1];
      InRangeIsOrdered(init, r);
      assert s == init + [last];
      assert forall x :: x in init ==> x.ts < last.ts;
    }
  }
}
