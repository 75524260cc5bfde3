/** The mutable shards of one service: append, paged query and retention. */
module ShardedStore {
  import opened Prelude
  import opened Weeks
  import opened LogStore
  import opened LogAnswers

  /** The weeks a batch writes to; lines the calendar cannot name are skipped. */
  function WeeksTouched(lines: seq<LogLine>): (r: set<int>)
    ensures forall w :: w in r ==> IsMonday(w)
  {
    if lines == [] then {}
    else
      var rest := WeeksTouched(lines[..|lines| - 1]);
      var ts := lines[|lines| - 1].ts;
      MondayFloorIsOnlyMonday(ts, ts);
      if Supported(ts) then rest + {MondayFloor(ts)} else rest
  }

  /** The lines of a batch that fall into week `w`, in batch order. */
  function LinesOf(lines: seq<LogLine>, w: int): (r: seq<LogLine>)
    ensures forall l :: l in r ==> l in lines && Supported(l.ts) && MondayFloor(l.ts) == w
  {
    if lines == [] then []
    else
      var last := lines[|lines| - 1];
      LinesOf(lines[..|lines| - 1], w) + (if Supported(last.ts) && MondayFloor(last.ts) == w then [last] else [])
  }

  function NextId(rows: seq<Row>): int { if rows == [] then 1 else rows[|rows| - 1].id + 1 }

  /** New rows take the next ids and store their instants relative to the week. */
  function Inserted(rows: seq<Row>, w: int, lines: seq<LogLine>): (r: seq<Row>)
    requires ValidShard(rows) && forall l :: l in lines ==> MondayFloor(l.ts) == w
    ensures ValidShard(r) && rows <= r && |r| == |rows| + |lines|
    ensures forall i :: 0 <= i < |lines| ==>
      Decode(w, r[|rows| + i]).ts == lines[i].ts && Decode(w, r[|rows| + i]).body == lines[i].body
  {
    var added := seq(|lines|, i requires 0 <= i < |lines| => Row(NextId(rows) + i, lines[i].ts - w, lines[i].body));
    forall i | 0 <= i < |lines| ensures 0 <= added[i].tsRel < WEEK_MS {
      assert lines[i] in lines;
      assert added[i].tsRel == lines[i].ts - MondayFloor(lines[i].ts);
    }
    assert forall i :: 0 <= i < |rows| ==> rows[i].id < NextId(rows);
    rows + added
  }

  function Shard(weeks: map<int, seq<Row>>, w: int): seq<Row> { if w in weeks then weeks[w] else [] }

  /** The shards after the weeks in `committed` took their part of the batch. */
  function Appended(weeks: map<int, seq<Row>>, lines: seq<LogLine>, committed: set<int>): (r: map<int, seq<Row>>)
    requires ValidShards(weeks) && committed <= WeeksTouched(lines)
    ensures ValidShards(r)
  {
    map w | w in weeks.Keys + committed ::
      if w in committed then Inserted(Shard(weeks, w), w, LinesOf(lines, w)) else weeks[w]
  }

  /** The lines a table's rows stand for. */
  function LinesIn(rows: seq<Row>, w: int): (r: seq<LogLine>)
    ensures |r| == |rows| && forall i :: 0 <= i < |rows| ==> r[i] == LogLine(Decode(w, rows[i]).ts, rows[i].body)
  {
    seq(|rows|, i requires 0 <= i < |rows| => LogLine(Decode(w, rows[i]).ts, rows[i].body))
  }

  /** How often a batch holds a line that belongs to week `w`. */
  ghost predicate HoldsTheWeek(gained: seq<LogLine>, lines: seq<LogLine>, w: int) {
    forall l :: multiset(gained)[l] ==
      if Supported(l.ts) && w <= l.ts < w + WEEK_MS then multiset(lines)[l] else 0
  }

  /** Old rows stay where they are; a committed week gains each of its lines as often as the batch holds it,
      and any other week nothing. */
  ghost predicate Gains(was: map<int, seq<Row>>, now: map<int, seq<Row>>, lines: seq<LogLine>, committed: set<int>) {
    forall w :: Shard(was, w) <= Shard(now, w) &&
      var gained := LinesIn(Shard(now, w)[|Shard(was, w)|..], w);
      if w in committed then HoldsTheWeek(gained, lines, w) else gained == []
  }

  lemma InItsWeekOnly(ts: int, w: int)
    requires IsMonday(w)
    ensures MondayFloor(ts) == w <==> w <= ts < w + WEEK_MS
  {
    MondayFloorIsOnlyMonday(ts, w);
  }

  lemma {:induction false} LinesOfHoldTheWeek(lines: seq<LogLine>, w: int)
    requires IsMonday(w)
    ensures HoldsTheWeek(LinesOf(lines, w), lines, w)
  {
    if lines != [] {
      var init, last := lines[..|lines| - 1], lines[|lines| - 1];
      assert lines == init + [last];
      LinesOfHoldTheWeek(init, w);
      InItsWeekOnly(last.ts, w);
    }
  }

  lemma GainedLines(rows: seq<Row>, w: int, lines: seq<LogLine>)
    requires ValidShard(rows) && forall l :: l in lines ==> MondayFloor(l.ts) == w
    ensures rows <= Inserted(rows, w, lines) && LinesIn(Inserted(rows, w, lines)[|rows|..], w) == lines
  {
  }

  lemma AppendedGains(weeks: map<int, seq<Row>>, lines: seq<LogLine>, committed: set<int>)
    requires ValidShards(weeks) && committed <= WeeksTouched(lines)
    ensures Gains(weeks, Appended(weeks, lines, committed), lines, committed)
  {
    var now := Appended(weeks, lines, committed);
    forall w
      ensures Shard(weeks, w) <= Shard(now, w)
      ensures var gained := LinesIn(Shard(now, w)[|Shard(weeks, w)|..], w);
        if w in committed then HoldsTheWeek(gained, lines, w) else gained == []
    {
      if w in committed {
        GainedLines(Shard(weeks, w), w, LinesOf(lines, w));
        LinesOfHoldTheWeek(lines, w);
      }
    }
  }

  lemma CommitOneMore(weeks: map<int, seq<Row>>, lines: seq<LogLine>, committed: set<int>, w: int)
    requires ValidShards(weeks) && committed <= WeeksTouched(lines) && w in WeeksTouched(lines) && w !in committed
    ensures var now := Appended(weeks, lines, committed);
      Appended(weeks, lines, committed + {w}) == now[w := Inserted(Shard(now, w), w, LinesOf(lines, w))]
  {
  }

  ghost predicate Grouped(byWeek: map<int, seq<LogLine>>, lines: seq<LogLine>) {
    byWeek.Keys == WeeksTouched(lines) &&
    forall w :: LinesOf(lines, w) == if w in byWeek then byWeek[w] else []
  }

  /** A line goes behind those of its week; one the calendar cannot name goes nowhere. */
  function WithLine(byWeek: map<int, seq<LogLine>>, l: LogLine): map<int, seq<LogLine>> {
    var w := MondayFloor(l.ts);
    if Supported(l.ts) then byWeek[w := (if w in byWeek then byWeek[w] else []) + [l]] else byWeek
  }

  lemma LinesOfNext(init: seq<LogLine>, l: LogLine, w: int)
    ensures LinesOf(init + [l], w) ==
            LinesOf(init, w) + if Supported(l.ts) && MondayFloor(l.ts) == w then [l] else []
  {
    assert (init + [l])[..|init|] == init;
  }

  lemma GroupedNext(byWeek: map<int, seq<LogLine>>, init: seq<LogLine>, l: LogLine)
    requires Grouped(byWeek, init)
    ensures Grouped(WithLine(byWeek, l), init + [l])
  {
    assert (init + [l])[..|init|] == init;
    var next := WithLine(byWeek, l);
    forall w ensures LinesOf(init + [l], w) == if w in next then next[w] else [] { LinesOfNext(init, l, w); }
  }

  /** `by_week.entry(week).or_default().push(line)` over the batch. */
  method GroupByWeek(lines: seq<LogLine>) returns (byWeek: map<int, seq<LogLine>>)
    ensures byWeek.Keys == WeeksTouched(lines)
    ensures forall w :: w in byWeek ==> byWeek[w] == LinesOf(lines, w)
  {
    byWeek := map[];
    for i := 0 to |lines|
      invariant Grouped(byWeek, lines[..i])
    {
      assert lines[..i + 1] == lines[..i] + [lines[i]];
      GroupedNext(byWeek, lines[..i], lines[i]);
      byWeek := WithLine(byWeek, lines[i]);
    }
    assert lines[..|lines|] == lines;
  }

  lemma ScanOneMore(weeks: map<int, seq<Row>>, ws: seq<int>, i: nat, q: Criteria, c: Option<Cursor>, d: Direction)
    requires ValidShards(weeks) && i < |ws| && forall w :: w in ws ==> w in weeks
    ensures ws[i] in weeks
    ensures Scan(weeks, ws[..i + 1], q, c, d) ==
            Scan(weeks, ws[..i], q, c, d) + WeekScan(ws[i], weeks[ws[i]], q, c, d)
  {
    assert ws[..i + 1] == ws[..i] + [ws[i]];
    ScanConcat(weeks, ws[..i], [ws[i]], q, c, d);
    ScanOfOne(weeks, ws[i], q, c, d);
  }

  /** One more shard read extends the hits fetched so far. */
  lemma ReadOneMore(found: seq<Entry>, weeks: map<int, seq<Row>>, ws: seq<int>, i: nat,
                    q: Criteria, c: Option<Cursor>, d: Direction, target: nat)
    requires ValidShards(weeks) && i < |ws| && forall w :: w in ws ==> w in weeks
    requires found == First(Scan(weeks, ws[..i], q, c, d), target)
    ensures |found| <= target && ws[i] in weeks
    ensures found + Select(weeks[ws[i]], ws[i], q, c, d, target - |found|) ==
            First(Scan(weeks, ws[..i + 1], q, c, d), target)
  {
    ScanOneMore(weeks, ws, i, q, c, d);
    var here := WeekScan(ws[i], weeks[ws[i]], q, c, d);
    FirstOfConcat(Scan(weeks, ws[..i], q, c, d), here, target);
    SelectIsWeekScan(weeks[ws[i]], ws[i], q, c, d, target - |found|);
  }

  /** A full page makes the weeks still unread irrelevant. */
  lemma StopEarly(weeks: map<int, seq<Row>>, ws: seq<int>, i: nat, q: Criteria, c: Option<Cursor>, d: Direction,
                  target: nat)
    requires ValidShards(weeks) && i <= |ws| && forall w :: w in ws ==> w in weeks
    requires i == |ws| || |First(Scan(weeks, ws[..i], q, c, d), target)| >= target
    ensures First(Scan(weeks, ws[..i], q, c, d), target) == First(Scan(weeks, ws, q, c, d), target)
  {
    assert ws == ws[..i] + ws[i..];
    ScanConcat(weeks, ws[..i], ws[i..], q, c, d);
    FirstOfConcat(Scan(weeks, ws[..i], q, c, d), Scan(weeks, ws[i..], q, c, d), target);
    if i == |ws| {
      assert Scan(weeks, ws[i..], q, c, d) == [];
    }
  }

  /** The page out of the rows fetched in scan order, the surplus row included. */
  function Assemble(found: seq<Entry>, f: LogFilter): LogPage {
    var d, limit := ScanDirection(f), PageLimit(f);
    var beyond := |found| > limit;
    var cut := First(found, limit);
    var items := if d == Backward then Reverse(cut) else cut;
    if items == [] then EmptyPage(f.after)
    else
      LogPage(items, Some(CursorOf(items[0])), Some(CursorOf(items[|items| - 1])),
              if d == Backward then beyond else f.after.Some?,
              if d == Backward then f.before.Some? else beyond)
  }

  lemma AssembleIsPageOf(timeline: seq<Entry>, f: LogFilter)
    ensures var d := ScanDirection(f);
      var hits := Hits(timeline, f.criteria, ScanCursor(f), d);
      Assemble(First(InScanOrder(hits, d), PageLimit(f) + 1), f) == PageOf(timeline, f)
  {
    var d := ScanDirection(f);
    var hits := Hits(timeline, f.criteria, ScanCursor(f), d);
    FirstOfFirst(InScanOrder(hits, d), PageLimit(f));
    ReverseFirst(hits, PageLimit(f));
  }

  /** Reads the listed shards one after the other until `target` rows are in hand. */
  method Fetch(weeks: map<int, seq<Row>>, ws: seq<int>, q: Criteria, c: Option<Cursor>, d: Direction, target: nat)
    returns (found: seq<Entry>)
    requires ValidShards(weeks) && forall w :: w in ws ==> w in weeks
    ensures found == First(Scan(weeks, ws, q, c, d), target)
  {
    found := [];
    var i := 0;
    while i < |ws| && |found| < target
      invariant 0 <= i <= |ws|
      invariant found == First(Scan(weeks, ws[..i], q, c, d), target)
    {
      ReadOneMore(found, weeks, ws, i, q, c, d, target);
      found, i := found + Select(weeks[ws[i]], ws[i], q, c, d, target - |found|), i + 1;
    }
    StopEarly(weeks, ws, i, q, c, d, target);
  }

  class ServiceShards {
    /** Whether the service directory exists. */
    var present: bool
    /** Week start to the rows of that week's table, in insertion order. */
    var weeks: map<int, seq<Row>>

    ghost predicate Valid() reads this { ValidShards(weeks) }

    constructor ()
      ensures Valid() && !present && weeks == map[]
    {
      present, weeks := false, map[];
    }

    /** One transaction per week: a failing week stops the batch after the weeks already committed. */
    method Append(lines: seq<LogLine>, failing: set<int>) returns (ok: bool, committed: set<int>)
      requires Valid()
      modifies this
      ensures Valid()
      ensures committed <= WeeksTouched(lines) && committed !! failing
      ensures ok <==> committed == WeeksTouched(lines)
      ensures ok <==> WeeksTouched(lines) !! failing
      ensures present == (old(present) || WeeksTouched(lines) != {})
      ensures weeks == Appended(old(weeks), lines, committed) && Gains(old(weeks), weeks, lines, committed)
    {
      var byWeek := GroupByWeek(lines);
      committed := {};
      AppendedGains(weeks, lines, {});
      if byWeek.Keys == {} {
        return true, {};
      }
      present := true;
      var pending := byWeek.Keys;
      while pending != {}
        invariant pending <= byWeek.Keys && committed == byWeek.Keys - pending
        invariant committed !! failing && present
        invariant Valid() && weeks == Appended(old(weeks), lines, committed)
      {
        var w := Pick(pending);
        if w in failing {
          AppendedGains(old(weeks), lines, committed);
          return false, committed;
        }
        CommitOneMore(old(weeks), lines, committed, w);
        weeks := weeks[w := Inserted(Shard(weeks, w), w, byWeek[w])];
        committed, pending := committed + {w}, pending - {w};
      }
      AppendedGains(old(weeks), lines, committed);
      ok := true;
    }

    /** Walks pruned weeks in one direction, stops early and fetches one row past the page. */
    method Query(f: LogFilter) returns (page: LogPage)
      requires Valid()
      ensures page == if present then PageOf(FlatTimeline(weeks), f) else EmptyPage(None)
      ensures if present then Answers(weeks, f, page) else page == LogPage([], None, None, false, false)
    {
      if !present {
        return EmptyPage(None);
      }
      // The row past the page answers whether there is more without a second scan.
      var d, c := ScanDirection(f), ScanCursor(f);
      var candidates := OrderedCandidates(SortedInts(weeks.Keys), f.criteria, c, d);
      var found := Fetch(weeks, candidates, f.criteria, c, d, PageLimit(f) + 1);
      CandidatesScanTheTimeline(weeks, f.criteria, c, d);
      AssembleIsPageOf(FlatTimeline(weeks), f);
      PageAnswers(weeks, f);
      page := Assemble(found, f);
    }

    /** Unlinks every week table that starts before the cutoff. */
    method DeleteBefore(cutoff: int) returns (removed: set<int>)
      requires Valid()
      modifies this
      ensures Valid() && present == old(present)
      ensures removed == set w | w in old(weeks) && w < cutoff
      ensures weeks == old(weeks) - removed
    {
      removed := {};
      var pending := weeks.Keys;
      while pending != {}
        invariant pending <= old(weeks).Keys && Valid() && present == old(present)
        invariant removed == set w | w in old(weeks) && w !in pending && w < cutoff
        invariant weeks == old(weeks) - removed
      {
        var w := Pick(pending);
        pending := pending - {w};
        if w < cutoff {
          weeks := weeks - {w};
          removed := removed + {w};
        }
      }
    }
  }
}
