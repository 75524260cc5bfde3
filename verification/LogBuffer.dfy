/** The mutable log buffer of one service and its flush, shown to take exactly the steps of the ingestion machine. */
module LogBuffer {
  import opened Prelude
  import opened Weeks
  import opened LogStore
  import opened ShardedStore
  import opened LogIngest

  // ---------------------------------------------------------------- week tables hold the durable lines

  /** Every week table lists, in insertion order, the durable lines of its week. */
  ghost predicate Stored(weeks: map<int, seq<Row>>, durable: seq<LogLine>) {
    ValidShards(weeks) && forall w :: LinesIn(Shard(weeks, w), w) == LinesOf(durable, w)
  }

  lemma {:induction false} LinesOfConcat(a: seq<LogLine>, b: seq<LogLine>, w: int)
    ensures LinesOf(a + b, w) == LinesOf(a, w) + LinesOf(b, w)
  {
    if b == [] {
      assert a + b == a;
    } else {
      assert (a + b)[..|a + b| - 1] == a + b[..|b| - 1];
      LinesOfConcat(a, b[..|b| - 1], w);
    }
  }

  function Here(l: LogLine, w: int): seq<LogLine> { if Supported(l.ts) && MondayFloor(l.ts) == w then [l] else [] }

  lemma LinesOfOneMore(a: seq<LogLine>, l: LogLine, w: int)
    ensures LinesOf(a + [l], w) == LinesOf(a, w) + Here(l, w)
  {
    assert (a + [l])[..|a|] == a;
  }

  lemma LandedOneMore(a: seq<LogLine>, l: LogLine, weeks: set<int>)
    ensures var lands := Supported(l.ts) && MondayFloor(l.ts) in weeks;
      Landed(a + [l], weeks) == if lands then Landed(a, weeks) + [l] else Landed(a, weeks)
  {
    assert (a + [l])[..|a|] == a;
  }

  lemma KeptOneMore(a: seq<LogLine>, l: LogLine, cutoff: int)
    ensures KeptFrom(a + [l], cutoff) == if cutoff <= l.ts then KeptFrom(a, cutoff) + [l] else KeptFrom(a, cutoff)
  {
    assert (a + [l])[..|a|] == a;
  }

  lemma {:induction false} LinesOfLanded(lines: seq<LogLine>, weeks: set<int>, w: int)
    ensures LinesOf(Landed(lines, weeks), w) == if w in weeks then LinesOf(lines, w) else []
  {
    if lines != [] {
      var rest, last := lines[..|lines| - 1], lines[|lines| - 1];
      assert lines == rest + [last];
      LinesOfLanded(rest, weeks, w);
      LandedOneMore(rest, last, weeks);
      LinesOfOneMore(rest, last, w);
      LinesOfOneMore(Landed(rest, weeks), last, w);
    }
  }

  lemma DroppedWhole(ts: int, cutoff: int)
    requires IsMonday(cutoff)
    ensures ts < cutoff <==> MondayFloor(ts) < cutoff
  {
    MondayFloorIsOnlyMonday(ts, ts);
    if MondayFloor(ts) < cutoff { MondaysAWeekApart(MondayFloor(ts), cutoff); }
  }

  /** A kept line belongs to no week before the cutoff, and a dropped one to none after it. */
  lemma HereOrGone(l: LogLine, cutoff: int, w: int)
    requires IsMonday(cutoff)
    ensures w < cutoff && cutoff <= l.ts ==> Here(l, w) == []
    ensures cutoff <= w && l.ts < cutoff ==> Here(l, w) == []
  {
    DroppedWhole(l.ts, cutoff);
  }

  lemma {:induction false} LinesOfKept(lines: seq<LogLine>, cutoff: int, w: int)
    requires IsMonday(cutoff)
    ensures LinesOf(KeptFrom(lines, cutoff), w) == if w < cutoff then [] else LinesOf(lines, w)
  {
    if lines != [] {
      var rest, last := lines[..|lines| - 1], lines[|lines| - 1];
      assert lines == rest + [last];
      LinesOfKept(rest, cutoff, w);
      KeptOneMore(rest, last, cutoff);
      LinesOfOneMore(rest, last, w);
      LinesOfOneMore(KeptFrom(rest, cutoff), last, w);
      HereOrGone(last, cutoff, w);
    }
  }

  lemma InsertedLines(rows: seq<Row>, w: int, lines: seq<LogLine>)
    requires ValidShard(rows) && forall l :: l in lines ==> MondayFloor(l.ts) == w
    ensures LinesIn(Inserted(rows, w, lines), w) == LinesIn(rows, w) + lines
  {
  }

  /** Committing some weeks of a batch stores exactly its lines of those weeks. */
  lemma AppendStores(weeks: map<int, seq<Row>>, durable: seq<LogLine>, lines: seq<LogLine>, committed: set<int>)
    requires Stored(weeks, durable) && committed <= WeeksTouched(lines)
    ensures Stored(Appended(weeks, lines, committed), durable + Landed(lines, committed))
  {
    forall w
      ensures LinesIn(Shard(Appended(weeks, lines, committed), w), w) == LinesOf(durable + Landed(lines, committed), w)
    {
      LinesOfConcat(durable, Landed(lines, committed), w);
      LinesOfLanded(lines, committed, w);
      if w in committed { InsertedLines(Shard(weeks, w), w, LinesOf(lines, w)); }
    }
  }

  /** Unlinking the weeks before a Monday keeps exactly the lines from it on. */
  lemma DeleteKeeps(weeks: map<int, seq<Row>>, durable: seq<LogLine>, cutoff: int)
    requires Stored(weeks, durable) && IsMonday(cutoff)
    ensures Stored(weeks - (set w | w in weeks && w < cutoff), KeptFrom(durable, cutoff))
  {
    var kept := weeks - (set w | w in weeks && w < cutoff);
    forall w ensures LinesIn(Shard(kept, w), w) == LinesOf(KeptFrom(durable, cutoff), w) {
      LinesOfKept(durable, cutoff, w);
    }
  }

  // ---------------------------------------------------------------- a sequential flush as a run of the machine

  function AdvanceAll(h: Host, s: State, cids: seq<int>): State {
    if cids == [] then s
    else After(h, AdvanceAll(h, s, cids[..|cids| - 1]), Advance(0, cids[|cids| - 1]))
  }

  /** Take, append, persist the listed marks, finish. */
  function FlushRun(h: Host, s: State, committed: set<int>, cids: seq<int>): State {
    After(h, AdvanceAll(h, After(h, After(h, s, Take), Append(0, committed)), cids), Finish(0))
  }

  /** A flush is a run without overlap, so it keeps what a checkpoint promises. */
  lemma {:induction false} AdvanceAllKeeps(h: Host, s: State, cids: seq<int>)
    requires ValidHost(h) && Inv(h, s) && SerialInv(h, s)
    ensures Inv(h, AdvanceAll(h, s, cids)) && SerialInv(h, AdvanceAll(h, s, cids))
  {
    if cids != [] {
      AdvanceAllKeeps(h, s, cids[..|cids| - 1]);
      SerialStep(h, AdvanceAll(h, s, cids[..|cids| - 1]), Advance(0, cids[|cids| - 1]));
    }
  }

  lemma FlushKeepsPromises(h: Host, s: State, committed: set<int>, cids: seq<int>)
    requires ValidHost(h) && Inv(h, s) && SerialInv(h, s) && s.flights == []
    ensures Inv(h, FlushRun(h, s, committed, cids)) && SerialInv(h, FlushRun(h, s, committed, cids))
  {
    SerialStep(h, s, Take);
    SerialStep(h, After(h, s, Take), Append(0, committed));
    var landed := After(h, After(h, s, Take), Append(0, committed));
    AdvanceAllKeeps(h, landed, cids);
    SerialStep(h, AdvanceAll(h, landed, cids), Finish(0));
  }

  function SavedAfter(saved: map<int, Mark>, marks: map<int, Mark>, cids: seq<int>): map<int, Mark> {
    if cids == [] then saved
    else
      var c, before := cids[|cids| - 1], SavedAfter(saved, marks, cids[..|cids| - 1]);
      if c in marks then Advanced(before, c, marks[c]) else before
  }

  lemma {:induction false} AdvanceAllSaves(h: Host, s: State, cids: seq<int>)
    requires |s.flights| == 1 && s.flights[0].landed
    ensures AdvanceAll(h, s, cids) == s.(saved := SavedAfter(s.saved, s.flights[0].marks, cids))
  {
    if cids != [] { AdvanceAllSaves(h, s, cids[..|cids| - 1]); }
  }

  lemma {:induction false} AdvanceAllIdles(h: Host, s: State, cids: seq<int>)
    requires s.flights == []
    ensures AdvanceAll(h, s, cids) == s
  {
    if cids != [] { AdvanceAllIdles(h, s, cids[..|cids| - 1]); }
  }

  /** The three ways a flush ends. */
  lemma FlushOutcome(h: Host, s: State, committed: set<int>, cids: seq<int>)
    requires s.flights == [] && committed <= WeeksTouched(s.lines)
    ensures var t := FlushRun(h, s, committed, cids);
      t == if s.lines == [] then s
           else if committed == WeeksTouched(s.lines) then
             s.(lines := [], durable := s.durable + Landed(s.lines, committed),
                saved := SavedAfter(s.saved, MarksFor(s.mem, s.lines), cids))
           else s.(durable := s.durable + Landed(s.lines, committed))
  {
    if s.lines == [] {
      AdvanceAllIdles(h, s, cids);
    } else {
      var u := After(h, Taken(s), Append(0, committed));
      if committed == WeeksTouched(s.lines) {
        assert u.flights == [Flight([], MarksFor(s.mem, s.lines), true)];
        AdvanceAllSaves(h, u, cids);
        assert Without(u.flights, 0) == [];
      } else {
        assert u.flights == [] && u.lines == s.lines;
        AdvanceAllIdles(h, u, cids);
      }
    }
  }

  // ---------------------------------------------------------------- what a flush does, told over its lines

  /** A week some line of the batch belongs to. */
  ghost predicate IsTouched(lines: seq<LogLine>, w: int) {
    IsMonday(w) && exists l :: l in lines && Supported(l.ts) && w <= l.ts < w + WEEK_MS
  }

  lemma {:induction false} TouchedTold(lines: seq<LogLine>, w: int)
    ensures w in WeeksTouched(lines) <==> IsTouched(lines, w)
  {
    if lines != [] {
      var init, last := lines[..|lines| - 1], lines[|lines| - 1];
      assert lines == init + [last] && last in lines;
      TouchedTold(init, w);
      if IsMonday(w) { InItsWeekOnly(last.ts, w); }
      MondayFloorIsOnlyMonday(last.ts, last.ts);
      assert forall l :: l in lines <==> l in init || l == last;
    }
  }

  function MarkAt(marks: map<int, Mark>, c: int): Option<Mark> { if c in marks then Some(marks[c]) else None }

  /** A stored mark gives way to the container's last accepted line unless it is newer. */
  predicate MarkMoved(was: Option<Mark>, now: Option<Mark>, m: Mark) {
    if was.Some? && m.ts < was.value.ts then now == was else now == Some(m)
  }

  lemma {:induction false} SavedAfterTold(saved: map<int, Mark>, marks: map<int, Mark>, cids: seq<int>, c: int)
    ensures var now := SavedAfter(saved, marks, cids);
      if c in cids && c in marks then MarkMoved(MarkAt(saved, c), MarkAt(now, c), marks[c])
      else MarkAt(now, c) == MarkAt(saved, c)
  {
    if cids != [] {
      SavedAfterTold(saved, marks, cids[..|cids| - 1], c);
      assert c in cids <==> c in cids[..|cids| - 1] || c == cids[|cids| - 1];
    }
  }

  /** Every mark of the batch is saved if the service has its id and the write is not refused. */
  ghost predicate MarksMoved(was: map<int, Mark>, now: map<int, Mark>, marks: map<int, Mark>, sidOk: bool,
                             refused: set<int>) {
    forall c ::
      if sidOk && c in marks && c !in refused then MarkMoved(MarkAt(was, c), MarkAt(now, c), marks[c])
      else MarkAt(now, c) == MarkAt(was, c)
  }

  lemma MarksAreMoved(was: map<int, Mark>, marks: map<int, Mark>, sidOk: bool, refused: set<int>, cids: seq<int>)
    requires forall c :: c in cids <==> sidOk && c in marks && c !in refused
    ensures MarksMoved(was, SavedAfter(was, marks, cids), marks, sidOk, refused)
  {
    forall c
      ensures var now := SavedAfter(was, marks, cids);
        if sidOk && c in marks && c !in refused then MarkMoved(MarkAt(was, c), MarkAt(now, c), marks[c])
        else MarkAt(now, c) == MarkAt(was, c)
    {
      SavedAfterTold(was, marks, cids, c);
    }
  }

  lemma SavedOneMore(saved: map<int, Mark>, marks: map<int, Mark>, cids: seq<int>, c: int)
    requires c in marks
    ensures SavedAfter(saved, marks, cids + [c]) == Advanced(SavedAfter(saved, marks, cids), c, marks[c])
  {
    assert (cids + [c])[..|cids|] == cids;
  }

  lemma MemberOneMore(cids: seq<int>, i: nat)
    requires i < |cids|
    ensures cids[i] in cids && cids[..i + 1] == cids[..i] + [cids[i]]
    ensures forall c :: c in cids[..i + 1] <==> c in cids[..i] || c == cids[i]
  {
  }

  /** The containers with a line in the batch and a mark. */
  predicate HasMark(lines: seq<LogLine>, mem: map<int, Mark>, c: int) {
    c in mem && exists l :: l in lines && l.body.cid == c
  }

  /** Their last accepted lines are what a landed batch saves. */
  ghost predicate MarksSaved(was: map<int, Mark>, now: map<int, Mark>, lines: seq<LogLine>, mem: map<int, Mark>,
                             sidOk: bool, refused: set<int>) {
    forall c ::
      if sidOk && HasMark(lines, mem, c) && c !in refused then MarkMoved(MarkAt(was, c), MarkAt(now, c), mem[c])
      else MarkAt(now, c) == MarkAt(was, c)
  }

  /** Either no touched week fails: every one is committed, the buffer is empty and the marks are saved;
      or one does: the buffer and the saved marks are as before. */
  ghost predicate FlushTold(lines: seq<LogLine>, buffered: seq<LogLine>, mem: map<int, Mark>, saved: map<int, Mark>,
                            savedNow: map<int, Mark>, failing: set<int>, sidOk: bool, refused: set<int>,
                            committed: set<int>) {
    && committed !! failing && (forall w :: w in committed ==> IsTouched(lines, w))
    && if NoneFails(lines, failing)
       then buffered == [] && (forall w :: IsTouched(lines, w) ==> w in committed)
         && MarksSaved(saved, savedNow, lines, mem, sidOk, refused)
       else buffered == lines && savedNow == saved
  }

  ghost predicate NoneFails(lines: seq<LogLine>, failing: set<int>) {
    forall w :: w in failing ==> !IsTouched(lines, w)
  }

  lemma TouchedAre(lines: seq<LogLine>)
    ensures forall w :: w in WeeksTouched(lines) <==> IsTouched(lines, w)
  {
    forall w ensures w in WeeksTouched(lines) <==> IsTouched(lines, w) { TouchedTold(lines, w); }
  }

  lemma FlushFailed(lines: seq<LogLine>, mem: map<int, Mark>, saved: map<int, Mark>, failing: set<int>, sidOk: bool,
                    refused: set<int>, committed: set<int>)
    requires committed !! failing && committed <= WeeksTouched(lines) && !(WeeksTouched(lines) !! failing)
    ensures FlushTold(lines, lines, mem, saved, saved, failing, sidOk, refused, committed)
  {
    TouchedAre(lines);
    var w := CommonMember(WeeksTouched(lines), failing);
    assert IsTouched(lines, w);
  }

  lemma FlushLanded(lines: seq<LogLine>, mem: map<int, Mark>, saved: map<int, Mark>, savedNow: map<int, Mark>,
                    failing: set<int>, sidOk: bool, refused: set<int>)
    requires WeeksTouched(lines) !! failing && MarksMoved(saved, savedNow, MarksFor(mem, lines), sidOk, refused)
    ensures FlushTold(lines, [], mem, saved, savedNow, failing, sidOk, refused, WeeksTouched(lines))
  {
    TouchedAre(lines);
  }

  // ---------------------------------------------------------------- the objects

  /** Lines awaiting a flush and the last accepted mark per container. */
  class ServiceState {
    var lines: seq<LogLine>
    var checkpoints: map<int, Mark>

    constructor (seeded: map<int, Mark>)
      ensures lines == [] && checkpoints == seeded
    {
      lines, checkpoints := [], seeded;
    }

    /** The number of buffered lines, or nothing for a line the dedup drops. */
    method Push(line: LogLine) returns (buffered: Option<nat>)
      modifies this
      ensures buffered == if Repeats(old(checkpoints), line) then None else Some(|lines|)
      ensures line.body.cid !in old(checkpoints) ==> buffered.Some?
      ensures line.body.cid in old(checkpoints) ==>
        var m := old(checkpoints)[line.body.cid];
        (buffered.None? <==> line.ts < m.ts || (line.ts == m.ts && line.body == m.content))
      ensures lines == if buffered.None? then old(lines) else old(lines) + [line]
      ensures checkpoints ==
        if buffered.None? then old(checkpoints) else old(checkpoints)[line.body.cid := MarkOf(line)]
    {
      var cid := line.body.cid;
      if cid in checkpoints {
        var last := checkpoints[cid];
        if line.ts < last.ts || (line.ts == last.ts && line.body == last.content) {
          return None;
        }
      }
      checkpoints := checkpoints[cid := MarkOf(line)];
      lines := lines + [line];
      buffered := Some(|lines|);
    }

    method Take() returns (taken: seq<LogLine>, marks: map<int, Mark>)
      modifies this
      ensures taken == old(lines) && lines == [] && checkpoints == old(checkpoints)
      ensures marks == MarksFor(checkpoints, taken)
      ensures forall c :: c in marks <==> c in checkpoints && exists l :: l in taken && l.body.cid == c
      ensures forall c :: c in marks ==> marks[c] == checkpoints[c]
    {
      taken, lines := lines, [];
      var cids: set<int> := {};
      for i := 0 to |taken|
        invariant cids == CidsOf(taken[..i])
      {
        assert taken[..i + 1] == taken[..i] + [taken[i]];
        assert forall l :: l in taken[..i + 1] <==> l in taken[..i] || l == taken[i];
        cids := cids + {taken[i].body.cid};
      }
      assert taken[..|taken|] == taken;
      marks := map c | c in cids && c in checkpoints :: checkpoints[c];
    }

    /** Failed lines go back ahead of whatever has been buffered since. */
    method Restore(failed: seq<LogLine>)
      modifies this
      ensures lines == failed + old(lines) && checkpoints == old(checkpoints)
    {
      if lines != [] {
        lines := failed + lines;
      } else {
        lines := failed;
      }
    }
  }

  class CheckpointTable {
    var rows: map<int, Mark>

    constructor ()
      ensures rows == map[]
    {
      rows := map[];
    }

    method Advance(cid: int, m: Mark)
      modifies this
      ensures rows == Advanced(old(rows), cid, m)
    {
      if cid !in rows || rows[cid].ts <= m.ts {
        rows := rows[cid := m];
      }
    }

    method DeleteBefore(cutoff: int)
      modifies this
      ensures rows == PrunedMarks(old(rows), cutoff)
      ensures forall c :: c in rows <==> c in old(rows) && cutoff <= old(rows)[c].ts
      ensures forall c :: c in rows ==> rows[c] == old(rows)[c]
    {
      rows := map c | c in rows && cutoff <= rows[c].ts :: rows[c];
    }
  }

  /** One service's buffer in front of its week tables and checkpoints. */
  class Ingestor {
    var state: ServiceState
    const shards: ServiceShards
    const table: CheckpointTable

    /** The objects stand for machine state `s`, with no flush under way. */
    ghost predicate Shows(s: State) reads this, state, shards, table {
      && s.flights == [] && state.lines == s.lines && state.checkpoints == s.mem
      && Stored(shards.weeks, s.durable) && table.rows == s.saved
    }

    constructor (shards: ServiceShards, table: CheckpointTable)
      requires shards.Valid()
      ensures this.shards == shards && this.table == table && fresh(state)
      ensures state.lines == [] && state.checkpoints == table.rows
    {
      this.shards, this.table := shards, table;
      state := new ServiceState(table.rows);
    }

    method Push(line: LogLine, ghost s: State) returns (buffered: Option<nat>)
      requires Shows(s)
      modifies state
      ensures Shows(Delivered(s, line))
    {
      buffered := state.Push(line);
    }

    /** Persists the marks of a landed batch container by container, once the service has its id;
        a refused write is skipped. */
    method SaveMarks(marks: map<int, Mark>, sidOk: bool, refused: set<int>) returns (saved: seq<int>)
      modifies table
      ensures forall c :: c in saved <==> sidOk && c in marks && c !in refused
      ensures table.rows == SavedAfter(old(table.rows), marks, saved)
      ensures MarksMoved(old(table.rows), table.rows, marks, sidOk, refused)
    {
      saved := [];
      if !sidOk {
        return;
      }
      var cids := SortedInts(marks.Keys);
      for i := 0 to |cids|
        invariant forall c :: c in saved <==> c in cids[..i] && c !in refused
        invariant table.rows == SavedAfter(old(table.rows), marks, saved)
      {
        var c := cids[i];
        MemberOneMore(cids, i);
        if c !in refused {
          table.Advance(c, marks[c]);
          SavedOneMore(old(table.rows), marks, saved, c);
          saved := saved + [c];
        }
      }
      assert cids[..|cids|] == cids;
      MarksAreMoved(old(table.rows), marks, sidOk, refused, saved);
    }

    /** `failing` are the weeks whose transaction fails, `sidOk` whether the service id could be interned,
        `refused` the containers whose checkpoint write fails. */
    method FlushService(failing: set<int>, sidOk: bool, refused: set<int>, ghost h: Host, ghost s: State)
      returns (committed: set<int>, saved: seq<int>)
      requires Shows(s)
      modifies state, shards, table
      ensures committed <= WeeksTouched(s.lines) && committed !! failing
      ensures committed == WeeksTouched(s.lines) <==> WeeksTouched(s.lines) !! failing
      ensures Shows(FlushRun(h, s, committed, saved))
      ensures committed == WeeksTouched(s.lines) && sidOk ==>
        forall c :: c in saved <==> c in MarksFor(s.mem, s.lines) && c !in refused
      ensures state.checkpoints == old(state.checkpoints)
      ensures Gains(old(shards.weeks), shards.weeks, old(state.lines), committed)
      ensures FlushTold(old(state.lines), state.lines, old(state.checkpoints), old(table.rows), table.rows,
                        failing, sidOk, refused, committed)
    {
      committed, saved := {}, [];
      if state.lines == [] {
        FlushOutcome(h, s, {}, []);
        AppendedGains(shards.weeks, [], {});
        FlushLanded([], state.checkpoints, table.rows, table.rows, failing, sidOk, refused);
        return;
      }
      var lines, marks := state.Take();
      var ok;
      ok, committed := shards.Append(lines, failing);
      AppendStores(old(shards.weeks), s.durable, lines, committed);
      if !ok {
        state.Restore(lines);
        FlushOutcome(h, s, committed, []);
        FlushFailed(lines, state.checkpoints, table.rows, failing, sidOk, refused, committed);
        return;
      }
      saved := SaveMarks(marks, sidOk, refused);
      FlushOutcome(h, s, committed, saved);
      FlushLanded(lines, state.checkpoints, old(table.rows), table.rows, failing, sidOk, refused);
    }

    /** Retention on this service: week tables first, checkpoints once they are gone. */
    method DeleteBefore(cutoff: int, metadataOk: bool, ghost s: State) returns (removed: set<int>)
      requires Shows(s) && IsMonday(cutoff)
      modifies shards, table
      ensures Shows(CleanedUp(s, cutoff, metadataOk))
      ensures shards.weeks == old(shards.weeks) - removed && removed == set w | w in old(shards.weeks) && w < cutoff
      ensures forall c :: c in table.rows <==> c in old(table.rows) && (metadataOk ==> cutoff <= old(table.rows)[c].ts)
      ensures forall c :: c in table.rows ==> table.rows[c] == old(table.rows)[c]
    {
      DeleteKeeps(shards.weeks, s.durable, cutoff);
      removed := shards.DeleteBefore(cutoff);
      if metadataOk {
        table.DeleteBefore(cutoff);
      }
    }

    /** A new process: the buffer is gone and the dedup is seeded from the table, if the service is still known. */
    method Restart(known: bool, ghost s: State)
      requires Shows(s)
      modifies this
      ensures fresh(state) && Shows(Restarted(s, known))
      ensures state.lines == [] && state.checkpoints == if known then table.rows else map[]
    {
      state := new ServiceState(if known then table.rows else map[]);
    }
  }
}
