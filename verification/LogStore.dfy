/** One service's log rows, sharded into one table per ISO week, and the paged query over them. */
module LogStore {
  import opened Prelude
  import opened Weeks

  datatype Stream = Stdout | Stderr
  datatype Level = Debug | Info | Warn | Error

  /** What a row stores besides its instant and key. */
  datatype Body = Body(cid: int, stream: Stream, level: Option<Level>, text: string)
  datatype LogLine = LogLine(ts: int, body: Body)

  /** A table row: its instant is kept relative to the start of the week. */
  datatype Row = Row(id: int, tsRel: int, body: Body)
  /** A decoded row together with the shard it came from. */
  datatype Entry = Entry(ts: int, week: int, id: int, body: Body)

  datatype Cursor = Cursor(ts: int, week: int, id: int)
  datatype Direction = Backward | Forward

  /** `text` stands for the full-text match, which is not interpreted here. */
  datatype Criteria = Criteria(
    from: Option<int>, to: Option<int>, levels: set<Level>, streams: set<Stream>, text: Body -> bool)

  datatype LogFilter = LogFilter(criteria: Criteria, limit: Option<nat>, before: Option<Cursor>, after: Option<Cursor>)

  datatype LogPage = LogPage(
    items: seq<Entry>, olderCursor: Option<Cursor>, newerCursor: Option<Cursor>, hasOlder: bool, hasNewer: bool)

  function CursorOf(e: Entry): Cursor { Cursor(e.ts, e.week, e.id) }

  function EmptyPage(newer: Option<Cursor>): LogPage { LogPage([], None, newer, false, false) }

  function PageLimit(f: LogFilter): (n: nat)
    ensures 1 <= n <= 100
  {
    match f.limit case None => 100 case Some(n) => Min(Max(n, 1), 100)
  }

  function ScanDirection(f: LogFilter): Direction { if f.after.Some? then Forward else Backward }

  function ScanCursor(f: LogFilter): Option<Cursor> { if f.after.Some? then f.after else f.before }

  // ---------------------------------------------------------------- the simple specification

  /** Strict order of the one global timeline. */
  predicate Before(a: Entry, b: Entry) { a.ts < b.ts || (a.ts == b.ts && a.id < b.id) }

  predicate Ordered(s: seq<Entry>) { forall i, j :: 0 <= i < j < |s| ==> Before(s[i], s[j]) }

  predicate InItsWeek(e: Entry) { e.week == MondayFloor(e.ts) }

  /** A timeline: rising by `(ts, id)`, and one instant never spans two weeks. */
  predicate Timeline(s: seq<Entry>) {
    Ordered(s) && forall a, b :: a in s && b in s && a.ts == b.ts ==> a.week == b.week
  }

  predicate BodyMatches(q: Criteria, b: Body) {
    && q.text(b)
    && (q.levels != {} ==> b.level.Some? && b.level.value in q.levels)
    && (q.streams != {} ==> b.stream in q.streams)
  }

  predicate Matches(q: Criteria, e: Entry) {
    && (q.from.Some? ==> q.from.value <= e.ts)
    && (q.to.Some? ==> e.ts <= q.to.value)
    && BodyMatches(q, e.body)
  }

  /** Rows past the cursor; an instant shared with a cursor of another week is never a tie. */
  predicate Past(c: Option<Cursor>, d: Direction, e: Entry) {
    c.None? ||
    match d
    case Backward => e.ts < c.value.ts || (e.ts == c.value.ts && (e.week != c.value.week || e.id < c.value.id))
    case Forward => e.ts > c.value.ts || (e.ts == c.value.ts && (e.week != c.value.week || e.id > c.value.id))
  }

  function Hits(s: seq<Entry>, q: Criteria, c: Option<Cursor>, d: Direction): seq<Entry> {
    if s == [] then []
    else (if Matches(q, s[0]) && Past(c, d, s[0]) then [s[0]] else []) + Hits(s[1..], q, c, d)
  }

  /** The nearest rows of a hit list, oldest first, with the cursors and flags of the page. */
  function PageFrom(hits: seq<Entry>, f: LogFilter): LogPage {
    var back, more := f.after.None?, |hits| > PageLimit(f);
    var items := if back then Last(hits, PageLimit(f)) else First(hits, PageLimit(f));
    if items == [] then EmptyPage(f.after)
    else
      LogPage(items, Some(CursorOf(items[0])), Some(CursorOf(items[|items| - 1])),
              if back then more else true, if back then f.before.Some? else more)
  }

  /** The specification of a query: filter the flat timeline, cut at the cursor, take the nearest rows. */
  function PageOf(timeline: seq<Entry>, f: LogFilter): LogPage {
    PageFrom(Hits(timeline, f.criteria, ScanCursor(f), ScanDirection(f)), f)
  }

  // ---------------------------------------------------------------- shards as sequences of rows

  predicate RowLess(a: Row, b: Row) { a.tsRel < b.tsRel || (a.tsRel == b.tsRel && a.id < b.id) }

  predicate RowsOrdered(s: seq<Row>) { forall i, j :: 0 <= i < j < |s| ==> RowLess(s[i], s[j]) }

  predicate RisingIds(rows: seq<Row>) { forall i, j :: 0 <= i < j < |rows| ==> rows[i].id < rows[j].id }

  predicate ValidShard(rows: seq<Row>) {
    RisingIds(rows) && forall i :: 0 <= i < |rows| ==> 0 <= rows[i].tsRel < WEEK_MS
  }

  predicate ValidShards(weeks: map<int, seq<Row>>) {
    forall w :: w in weeks ==> IsMonday(w) && ValidShard(weeks[w])
  }

  function InsertOrdered(row: Row, s: seq<Row>): (r: seq<Row>)
    requires RowsOrdered(s) && forall x :: x in s ==> x.id < row.id
    ensures RowsOrdered(r) && (forall x :: x in r <==> x == row || x in s)
  {
    if s == [] then [row]
    else if RowLess(row, s[0]) then [row] + s
    else
      var rest := InsertOrdered(row, s[1..]);
      assert s == [s[0]] + s[1..];
      assert forall x :: x in rest ==> RowLess(s[0], x);
      [s[0]] + rest
  }

  /** `ORDER BY ts_rel, id`, the order of the timestamp index. */
  function ByTime(rows: seq<Row>): (r: seq<Row>)
    requires RisingIds(rows)
    ensures RowsOrdered(r) && (forall x :: x in r <==> x in rows)
  {
    if rows == [] then []
    else
      var init := rows[..|rows| - 1];
      assert rows == init + [rows[|rows| - 1]];
      InsertOrdered(rows[|rows| - 1], ByTime(init))
  }

  function Decode(w: int, r: Row): Entry { Entry(w + r.tsRel, w, r.id, r.body) }

  function DecodeAll(w: int, rows: seq<Row>): seq<Entry> {
    seq(|rows|, i requires 0 <= i < |rows| => Decode(w, rows[i]))
  }

  function WeekTimeline(w: int, rows: seq<Row>): seq<Entry>
    requires RisingIds(rows)
  {
    DecodeAll(w, ByTime(rows))
  }

  /** The shards of the listed weeks read one after the other. */
  function Concat(weeks: map<int, seq<Row>>, ws: seq<int>): seq<Entry>
    requires ValidShards(weeks) && forall w :: w in ws ==> w in weeks
  {
    if ws == [] then [] else WeekTimeline(ws[0], weeks[ws[0]]) + Concat(weeks, ws[1..])
  }

  function FlatTimeline(weeks: map<int, seq<Row>>): seq<Entry>
    requires ValidShards(weeks)
  {
    Concat(weeks, SortedInts(weeks.Keys))
  }

  lemma WeekTimelineOrdered(w: int, rows: seq<Row>)
    requires IsMonday(w) && ValidShard(rows)
    ensures Ordered(WeekTimeline(w, rows))
    ensures forall e :: e in WeekTimeline(w, rows) ==> w <= e.ts < w + WEEK_MS && InItsWeek(e)
    ensures forall e :: e in WeekTimeline(w, rows) <==> exists r :: r in rows && e == Decode(w, r)
  {
    var sorted := ByTime(rows);
    var t := WeekTimeline(w, rows);
    forall e | e in t
      ensures w <= e.ts < w + WEEK_MS && InItsWeek(e) && exists r :: r in rows && e == Decode(w, r)
    {
      var i :| 0 <= i < |t| && t[i] == e;
      assert sorted[i] in sorted;
      MondayFloorIsOnlyMonday(e.ts, w);
    }
    forall r | r in rows ensures Decode(w, r) in t {
      var i :| 0 <= i < |sorted| && sorted[i] == r;
      assert t[i] == Decode(w, r);
    }
  }

  /** The shards concatenated by week form the one flat `(ts, id)` list of all stored rows. */
  lemma {:induction false} ConcatIsTimeline(weeks: map<int, seq<Row>>, ws: seq<int>)
    requires ValidShards(weeks) && Ascending(ws) && forall w :: w in ws ==> w in weeks
    ensures Ordered(Concat(weeks, ws)) && forall e :: e in Concat(weeks, ws) ==> InItsWeek(e)
    ensures forall e :: e in Concat(weeks, ws) <==> exists w, r :: w in ws && r in weeks[w] && e == Decode(w, r)
    ensures ws != [] ==> forall e :: e in Concat(weeks, ws) ==> ws[0] <= e.ts
  {
    if ws != [] {
      var head, rest := WeekTimeline(ws[0], weeks[ws[0]]), Concat(weeks, ws[1..]);
      WeekTimelineOrdered(ws[0], weeks[ws[0]]);
      ConcatIsTimeline(weeks, ws[1..]);
      if |ws| > 1 {
        assert ws[1] in ws && ws[0] in ws;
        MondaysAWeekApart(ws[0], ws[1]);
      }
      forall a, b | a in head && b in rest ensures Before(a, b) {}
      assert forall w :: w in ws <==> w == ws[0] || w in ws[1..];
    }
  }

  lemma FlatTimelineIsTheTimeline(weeks: map<int, seq<Row>>)
    requires ValidShards(weeks)
    ensures Timeline(FlatTimeline(weeks))
    ensures forall e :: e in FlatTimeline(weeks) <==> exists w, r :: w in weeks && r in weeks[w] && e == Decode(w, r)
  {
    ConcatIsTimeline(weeks, SortedInts(weeks.Keys));
  }

  /** Nothing else qualifies: the stored entries have exactly one ordered listing. */
  lemma {:induction false} TimelineIsUnique(a: seq<Entry>, b: seq<Entry>)
    requires Ordered(a) && Ordered(b) && forall e :: e in a <==> e in b
    ensures a == b
  {
    assert a != [] ==> a[0] in b;
    assert b != [] ==> b[0] in a;
    if a != [] && b != [] {
      assert a[0] == b[0];
      forall e ensures e in a[1..] <==> e in b[1..] {
        HeadOrTail(a, e);
        HeadOrTail(b, e);
        assert a[0] !in a[1..] && b[0] !in b[1..];
      }
      TimelineIsUnique(a[1..], b[1..]);
    }
  }

  // ---------------------------------------------------------------- what one shard read returns

  predicate WeekMatches(start: int, q: Criteria, c: Option<Cursor>, d: Direction) {
    var end := start + WEEK_MS;
    if (q.to.Some? && q.to.value < start) || (q.from.Some? && q.from.value >= end) then false
    else if c.None? then true
    else if d == Backward then start <= c.value.ts
    else end > c.value.ts
  }

  function Selected(ws: seq<int>, q: Criteria, c: Option<Cursor>, d: Direction): (r: seq<int>)
    ensures forall w :: w in r ==> w in ws
  {
    if ws == [] then []
    else (if WeekMatches(ws[0], q, c, d) then [ws[0]] else []) + Selected(ws[1..], q, c, d)
  }

  function OrderedCandidates(ws: seq<int>, q: Criteria, c: Option<Cursor>, d: Direction): (r: seq<int>)
    ensures forall w :: w in r ==> w in ws
  {
    if d == Backward then Reverse(Selected(ws, q, c, d)) else Selected(ws, q, c, d)
  }

  predicate RowMatches(q: Criteria, w: int, r: Row) {
    && (q.from.Some? ==> r.tsRel >= q.from.value - w)
    && (q.to.Some? ==> r.tsRel <= q.to.value - w)
    && BodyMatches(q, r.body)
  }

  /** Only the cursor's own week compares ids; every week compares instants relative to its start. */
  predicate RowPast(c: Option<Cursor>, w: int, d: Direction, r: Row) {
    c.None? ||
    var rel := c.value.ts - w;
    if w != c.value.week then
      if d == Backward then r.tsRel <= rel else r.tsRel >= rel
    else if d == Backward then r.tsRel < rel || (r.tsRel == rel && r.id < c.value.id)
    else r.tsRel > rel || (r.tsRel == rel && r.id > c.value.id)
  }

  function Where(rows: seq<Row>, w: int, q: Criteria, c: Option<Cursor>, d: Direction): seq<Row> {
    if rows == [] then []
    else
      var here := RowMatches(q, w, rows[0]) && RowPast(c, w, d, rows[0]);
      (if here then [rows[0]] else []) + Where(rows[1..], w, q, c, d)
  }

  /** `SELECT .. WHERE .. ORDER BY ts_rel, id LIMIT n`, descending when scanning backward. */
  function Select(rows: seq<Row>, w: int, q: Criteria, c: Option<Cursor>, d: Direction, n: nat): seq<Entry>
    requires RisingIds(rows)
  {
    var found := Where(ByTime(rows), w, q, c, d);
    DecodeAll(w, First(if d == Backward then Reverse(found) else found, n))
  }

  /** The same hits with the whole timeline in hand, in scan order. */
  function InScanOrder(hits: seq<Entry>, d: Direction): seq<Entry> {
    if d == Backward then Reverse(hits) else hits
  }

  function WeekScan(w: int, rows: seq<Row>, q: Criteria, c: Option<Cursor>, d: Direction): seq<Entry>
    requires RisingIds(rows)
  {
    InScanOrder(Hits(WeekTimeline(w, rows), q, c, d), d)
  }

  function Scan(weeks: map<int, seq<Row>>, ws: seq<int>, q: Criteria, c: Option<Cursor>, d: Direction): seq<Entry>
    requires ValidShards(weeks) && forall w :: w in ws ==> w in weeks
  {
    if ws == [] then [] else WeekScan(ws[0], weeks[ws[0]], q, c, d) + Scan(weeks, ws[1..], q, c, d)
  }

  lemma DecodeCons(w: int, r: Row, rest: seq<Row>)
    ensures DecodeAll(w, [r] + rest) == [Decode(w, r)] + DecodeAll(w, rest)
  {
  }

  lemma {:induction false} WhereIsHits(rows: seq<Row>, w: int, q: Criteria, c: Option<Cursor>, d: Direction)
    ensures DecodeAll(w, Where(rows, w, q, c, d)) == Hits(DecodeAll(w, rows), q, c, d)
  {
    if rows != [] {
      var first, rest := rows[0], rows[1..];
      assert rows == [first] + rest;
      WhereIsHits(rest, w, q, c, d);
      DecodeCons(w, first, rest);
      DecodeCons(w, first, Where(rest, w, q, c, d));
      assert DecodeAll(w, rows)[1..] == DecodeAll(w, rest);
      assert Matches(q, Decode(w, first)) <==> RowMatches(q, w, first);
      assert Past(c, d, Decode(w, first)) <==> RowPast(c, w, d, first);
      assert [] + Where(rest, w, q, c, d) == Where(rest, w, q, c, d);
    }
  }

  lemma DecodeCommutes(w: int, rows: seq<Row>, n: nat)
    ensures DecodeAll(w, Reverse(rows)) == Reverse(DecodeAll(w, rows))
    ensures DecodeAll(w, First(rows, n)) == First(DecodeAll(w, rows), n)
  {
  }

  lemma SelectIsWeekScan(rows: seq<Row>, w: int, q: Criteria, c: Option<Cursor>, d: Direction, n: nat)
    requires RisingIds(rows)
    ensures Select(rows, w, q, c, d, n) == First(WeekScan(w, rows, q, c, d), n)
  {
    var found := Where(ByTime(rows), w, q, c, d);
    WhereIsHits(ByTime(rows), w, q, c, d);
    DecodeCommutes(w, found, n);
    DecodeCommutes(w, Reverse(found), n);
  }

  lemma {:induction false} HitsConcat(a: seq<Entry>, b: seq<Entry>, q: Criteria, c: Option<Cursor>, d: Direction)
    ensures Hits(a + b, q, c, d) == Hits(a, q, c, d) + Hits(b, q, c, d)
  {
    if a == [] {
      assert a + b == b;
    } else {
      assert (a + b)[1..] == a[1..] + b;
      HitsConcat(a[1..], b, q, c, d);
    }
  }

  lemma {:induction false} HitsNone(s: seq<Entry>, q: Criteria, c: Option<Cursor>, d: Direction)
    requires forall e :: e in s ==> !Matches(q, e) || !Past(c, d, e)
    ensures Hits(s, q, c, d) == []
  {
    if s != [] { HitsNone(s[1..], q, c, d); }
  }

  /** A pruned week holds no row of the page. */
  lemma {:induction false} PruningLosesNothing(
    weeks: map<int, seq<Row>>, ws: seq<int>, q: Criteria, c: Option<Cursor>, d: Direction)
    requires ValidShards(weeks) && forall w :: w in ws ==> w in weeks
    ensures Hits(Concat(weeks, ws), q, c, d) == Hits(Concat(weeks, Selected(ws, q, c, d)), q, c, d)
  {
    if ws != [] {
      var head := WeekTimeline(ws[0], weeks[ws[0]]);
      HitsConcat(head, Concat(weeks, ws[1..]), q, c, d);
      PruningLosesNothing(weeks, ws[1..], q, c, d);
      var rest := Selected(ws[1..], q, c, d);
      if WeekMatches(ws[0], q, c, d) {
        assert ([ws[0]] + rest)[1..] == rest;
        HitsConcat(head, Concat(weeks, rest), q, c, d);
      } else {
        assert [] + rest == rest;
        WeekTimelineOrdered(ws[0], weeks[ws[0]]);
        HitsNone(head, q, c, d);
      }
    }
  }

  lemma ScanCons(weeks: map<int, seq<Row>>, w: int, rest: seq<int>, q: Criteria, c: Option<Cursor>, d: Direction)
    requires ValidShards(weeks) && w in weeks && forall v :: v in rest ==> v in weeks
    ensures Scan(weeks, [w] + rest, q, c, d) == WeekScan(w, weeks[w], q, c, d) + Scan(weeks, rest, q, c, d)
  {
    assert ([w] + rest)[1..] == rest;
  }

  lemma {:induction false} ScanConcat(
    weeks: map<int, seq<Row>>, a: seq<int>, b: seq<int>, q: Criteria, c: Option<Cursor>, d: Direction)
    requires ValidShards(weeks) && (forall w :: w in a ==> w in weeks) && forall w :: w in b ==> w in weeks
    ensures Scan(weeks, a + b, q, c, d) == Scan(weeks, a, q, c, d) + Scan(weeks, b, q, c, d)
  {
    if a == [] {
      assert a + b == b;
    } else {
      var w, rest := a[0], a[1..];
      assert a == [w] + rest && a + b == [w] + (rest + b);
      ScanConcat(weeks, rest, b, q, c, d);
      ScanCons(weeks, w, rest, q, c, d);
      ScanCons(weeks, w, rest + b, q, c, d);
      ConcatAssociates(WeekScan(w, weeks[w], q, c, d), Scan(weeks, rest, q, c, d), Scan(weeks, b, q, c, d));
    }
  }

  lemma ScanOfOne(weeks: map<int, seq<Row>>, w: int, q: Criteria, c: Option<Cursor>, d: Direction)
    requires ValidShards(weeks) && w in weeks
    ensures Scan(weeks, [w], q, c, d) == WeekScan(w, weeks[w], q, c, d)
  {
    assert [w][1..] == [];
  }

  lemma BackwardScanStep(
    weeks: map<int, seq<Row>>, w: int, rest: seq<int>, q: Criteria, c: Option<Cursor>, hits: seq<Entry>)
    requires ValidShards(weeks) && w in weeks && forall v :: v in rest ==> v in weeks
    requires Scan(weeks, Reverse(rest), q, c, Backward) == Reverse(hits)
    ensures Scan(weeks, Reverse(rest) + [w], q, c, Backward) ==
            Reverse(Hits(WeekTimeline(w, weeks[w]), q, c, Backward) + hits)
  {
    ReverseConcat(Hits(WeekTimeline(w, weeks[w]), q, c, Backward), hits);
    ScanConcat(weeks, Reverse(rest), [w], q, c, Backward);
    ScanOfOne(weeks, w, q, c, Backward);
  }

  /** Visiting the weeks in scan order lists the hits of the timeline in scan order. */
  lemma {:induction false} ScanIsHits(
    weeks: map<int, seq<Row>>, ws: seq<int>, q: Criteria, c: Option<Cursor>, d: Direction)
    requires ValidShards(weeks) && forall w :: w in ws ==> w in weeks
    ensures Scan(weeks, if d == Backward then Reverse(ws) else ws, q, c, d)
         == InScanOrder(Hits(Concat(weeks, ws), q, c, d), d)
  {
    if ws != [] {
      HitsConcat(WeekTimeline(ws[0], weeks[ws[0]]), Concat(weeks, ws[1..]), q, c, d);
      ScanIsHits(weeks, ws[1..], q, c, d);
      if d == Backward { BackwardScanStep(weeks, ws[0], ws[1..], q, c, Hits(Concat(weeks, ws[1..]), q, c, d)); }
    }
  }

  lemma CandidatesScanTheTimeline(weeks: map<int, seq<Row>>, q: Criteria, c: Option<Cursor>, d: Direction)
    requires ValidShards(weeks)
    ensures Scan(weeks, OrderedCandidates(SortedInts(weeks.Keys), q, c, d), q, c, d)
         == InScanOrder(Hits(FlatTimeline(weeks), q, c, d), d)
  {
    var ws := SortedInts(weeks.Keys);
    PruningLosesNothing(weeks, ws, q, c, d);
    ScanIsHits(weeks, Selected(ws, q, c, d), q, c, d);
  }
}
