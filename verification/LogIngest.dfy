/** Log ingestion of one service as a step machine: dedup, flush, checkpoint, crash and replay. */
module LogIngest {
  import opened Prelude
  import opened Weeks
  import opened LogStore
  import opened ShardedStore
  import opened Retention

  /** The dedup mark of a line; its content hash is taken to be injective, so the content stands for it. */
  datatype Mark = Mark(ts: int, content: Body)

  function MarkOf(l: LogLine): Mark { Mark(l.ts, l.body) }

  /** A batch out of the buffer, with the marks to persist once its append has landed. */
  datatype Flight = Flight(lines: seq<LogLine>, marks: map<int, Mark>, landed: bool)

  /** `mem` and `saved` are the dedup marks per container in memory and in the metadata store. */
  datatype State = State(
    lines: seq<LogLine>, mem: map<int, Mark>, flights: seq<Flight>,
    durable: seq<LogLine>, saved: map<int, Mark>, position: map<int, nat>, now: int)

  /** Everything each container ever writes, in order, and the weeks to keep. */
  datatype Host = Host(written: map<int, seq<LogLine>>, weeks: nat)

  ghost predicate Rising(s: seq<LogLine>) { forall i, j :: 0 <= i < j < |s| ==> s[i].ts <= s[j].ts }

  ghost predicate ValidHost(h: Host) {
    forall c :: c in h.written ==>
      Rising(h.written[c]) && forall l :: l in h.written[c] ==> l.body.cid == c && Supported(l.ts)
  }

  datatype Step =
    | Deliver(cid: int)
    | Take
    | Append(flight: nat, committed: set<int>)
    | Advance(flight: nat, cid: int)
    | Finish(flight: nat)
    | Reconnect(cid: int, from: nat)
    | Crash(known: bool)
    | Tick(to: int)
    | Cleanup(at: int, metadataOk: bool)

  // ---------------------------------------------------------------- the operations

  /** Two-level dedup: older lines and exact repeats at the boundary instant are dropped. */
  predicate Repeats(mem: map<int, Mark>, l: LogLine) {
    l.body.cid in mem && (l.ts < mem[l.body.cid].ts || mem[l.body.cid] == MarkOf(l))
  }

  function CidsOf(lines: seq<LogLine>): set<int> { set l | l in lines :: l.body.cid }

  function MarksFor(mem: map<int, Mark>, lines: seq<LogLine>): map<int, Mark> {
    map c | c in mem && c in CidsOf(lines) :: mem[c]
  }

  /** The part of a batch whose weeks were committed. */
  function Landed(lines: seq<LogLine>, weeks: set<int>): (r: seq<LogLine>)
    ensures forall l :: l in r <==> l in lines && Supported(l.ts) && MondayFloor(l.ts) in weeks
  {
    if lines == [] then []
    else
      var last := lines[|lines| - 1];
      Landed(lines[..|lines| - 1], weeks) + (if Supported(last.ts) && MondayFloor(last.ts) in weeks then [last] else [])
  }

  function KeptFrom(lines: seq<LogLine>, cutoff: int): (r: seq<LogLine>)
    ensures forall l :: l in r <==> l in lines && cutoff <= l.ts
  {
    if lines == [] then []
    else KeptFrom(lines[..|lines| - 1], cutoff) + (if cutoff <= lines[|lines| - 1].ts then [lines[|lines| - 1]] else [])
  }

  /** The guarded upsert of a checkpoint. */
  function Advanced(saved: map<int, Mark>, c: int, m: Mark): map<int, Mark> {
    if c in saved && m.ts < saved[c].ts then saved else saved[c := m]
  }

  function PrunedMarks(saved: map<int, Mark>, cutoff: int): map<int, Mark> {
    map c | c in saved && cutoff <= saved[c].ts :: saved[c]
  }

  function FirstAtOrAfter(lines: seq<LogLine>, ts: int): (n: nat)
    ensures n <= |lines|
    ensures forall i :: 0 <= i < n ==> lines[i].ts < ts
    ensures n < |lines| ==> ts <= lines[n].ts
  {
    if lines == [] || ts <= lines[0].ts then 0 else 1 + FirstAtOrAfter(lines[1..], ts)
  }

  function SavedTs(saved: map<int, Mark>, c: int): Option<int> { if c in saved then Some(saved[c].ts) else None }

  /** Where Docker resumes a container's log: the first line at or after the floored second. */
  function ReplayStart(h: Host, s: State, c: int): (n: nat)
    requires c in h.written
    ensures n <= |h.written[c]|
  {
    FirstAtOrAfter(h.written[c], LogSinceSecs(SavedTs(s.saved, c), s.now, h.weeks) * 1000)
  }

  function Without(flights: seq<Flight>, k: nat): seq<Flight>
    requires k < |flights|
  {
    flights[..k] + flights[k + 1..]
  }

  predicate Enabled(h: Host, s: State, step: Step) {
    match step
    case Deliver(c) => c in h.written && c in s.position && s.position[c] < |h.written[c]|
    case Take => s.lines != []
    case Append(k, committed) =>
      k < |s.flights| && !s.flights[k].landed && committed <= WeeksTouched(s.flights[k].lines)
    case Advance(k, c) => k < |s.flights| && s.flights[k].landed && c in s.flights[k].marks
    case Finish(k) => k < |s.flights| && s.flights[k].landed
    // A checkpoint read earlier than the switch to the new stream can only ask for more.
    case Reconnect(c, from) => c in h.written && from <= ReplayStart(h, s, c)
    case Crash(known) => true
    case Tick(to) => s.now <= to
    case Cleanup(at, ok) => at <= s.now
  }

  function Delivered(s: State, l: LogLine): State {
    if Repeats(s.mem, l) then s else s.(lines := s.lines + [l], mem := s.mem[l.body.cid := MarkOf(l)])
  }

  function Taken(s: State): State {
    s.(lines := [], flights := s.flights + [Flight(s.lines, MarksFor(s.mem, s.lines), false)])
  }

  /** Failed lines go back ahead of newer ones; the weeks already committed stay committed. */
  function AppendEnded(s: State, k: nat, committed: set<int>): State
    requires k < |s.flights|
  {
    var f := s.flights[k];
    var stored := s.(durable := s.durable + Landed(f.lines, committed));
    if committed == WeeksTouched(f.lines) then stored.(flights := s.flights[k := Flight([], f.marks, true)])
    else stored.(flights := Without(s.flights, k), lines := f.lines + s.lines)
  }

  /** A process that starts over knows the saved marks, unless its service id is gone. */
  function Restarted(s: State, known: bool): State {
    State([], if known then s.saved else map[], [], s.durable, s.saved, map[], s.now)
  }

  function CleanedUp(s: State, cutoff: int, metadataOk: bool): State {
    s.(durable := KeptFrom(s.durable, cutoff), saved := if metadataOk then PrunedMarks(s.saved, cutoff) else s.saved)
  }

  /** One step; a step that is not enabled changes nothing. */
  function After(h: Host, s: State, step: Step): State {
    if !Enabled(h, s, step) then s
    else
      match step
      case Deliver(c) => Delivered(s.(position := s.position[c := s.position[c] + 1]), h.written[c][s.position[c]])
      case Take => Taken(s)
      case Append(k, committed) => AppendEnded(s, k, committed)
      case Advance(k, c) => s.(saved := Advanced(s.saved, c, s.flights[k].marks[c]))
      case Finish(k) => s.(flights := Without(s.flights, k))
      case Reconnect(c, from) => s.(position := s.position[c := from])
      case Crash(known) => Restarted(s, known)
      case Tick(to) => s.(now := to)
      case Cleanup(at, ok) => CleanedUp(s, RetentionCutoffMs(at, h.weeks), ok)
  }

  function Start(now: int): State { State([], map[], [], [], map[], map[], now) }

  function Run(h: Host, now: int, steps: seq<Step>): State {
    if steps == [] then Start(now) else After(h, Run(h, now, steps[..|steps| - 1]), steps[|steps| - 1])
  }

  /** No flush of the service begins while another is under way. */
  predicate Serial(h: Host, now: int, steps: seq<Step>) {
    steps == [] ||
    (var earlier := steps[..|steps| - 1];
     Serial(h, now, earlier) && (steps[|steps| - 1].Take? ==> Run(h, now, earlier).flights == []))
  }

  // ---------------------------------------------------------------- what is held where

  function Elems(s: seq<LogLine>): set<LogLine> { set l | l in s }

  function FlightLines(flights: seq<Flight>): seq<LogLine> {
    if flights == [] then [] else FlightLines(flights[..|flights| - 1]) + flights[|flights| - 1].lines
  }

  function InFlight(flights: seq<Flight>): set<LogLine> { set f, l | f in flights && l in f.lines :: l }

  function Held(s: State): set<LogLine> { Elems(s.durable) + InFlight(s.flights) + Elems(s.lines) }

  /** The earliest instant retention and the resume clamp still ask for. */
  function Horizon(h: Host, now: int): int { Max(RetentionCutoffMs(now, h.weeks), I32_MIN * 1000) }

  /** The first `n` lines of a container, as far as they are still wanted, are in `held`. */
  ghost predicate Covered(lines: seq<LogLine>, n: nat, horizon: int, held: set<LogLine>) {
    n <= |lines| && forall i :: 0 <= i < n && horizon <= lines[i].ts ==> lines[i] in held
  }

  ghost predicate MarkCovered(lines: seq<LogLine>, m: Mark, horizon: int, held: set<LogLine>) {
    exists p :: 0 <= p < |lines| && MarkOf(lines[p]) == m && Covered(lines, p + 1, horizon, held)
  }

  ghost predicate MarksCovered(h: Host, marks: map<int, Mark>, horizon: int, held: set<LogLine>) {
    forall c :: c in marks ==> c in h.written && MarkCovered(h.written[c], marks[c], horizon, held)
  }

  ghost predicate PositionsCovered(h: Host, s: State) {
    forall c :: c in s.position ==> c in h.written && Covered(h.written[c], s.position[c], Horizon(h, s.now), Held(s))
  }

  ghost predicate Written(h: Host, held: set<LogLine>) {
    forall l :: l in held ==> Supported(l.ts) && l.body.cid in h.written && l in h.written[l.body.cid]
  }

  /** Every mark and every position answers for all lines up to it being held somewhere. */
  ghost predicate Inv(h: Host, s: State) {
    && Written(h, Held(s))
    && (forall f :: f in s.flights && f.landed ==> f.lines == [])
    && PositionsCovered(h, s)
    && MarksCovered(h, s.mem, Horizon(h, s.now), Held(s))
    && MarksCovered(h, s.saved, Horizon(h, s.now), Held(s))
    && forall f :: f in s.flights ==> MarksCovered(h, f.marks, Horizon(h, s.now), Held(s))
  }

  /** Without overlap, saved marks answer for durable lines, and a batch's marks for it and the durable lines. */
  ghost predicate SerialInv(h: Host, s: State) {
    && |s.flights| <= 1
    && MarksCovered(h, s.saved, Horizon(h, s.now), Elems(s.durable))
    && forall f :: f in s.flights ==> MarksCovered(h, f.marks, Horizon(h, s.now), Elems(s.durable) + Elems(f.lines))
  }

  // ---------------------------------------------------------------- coverage under change

  /** Nothing at or after the horizon went missing. */
  ghost predicate Retained(held: set<LogLine>, horizon: int, now: set<LogLine>) {
    forall l :: l in held && horizon <= l.ts ==> l in now
  }

  lemma CoverageStays(lines: seq<LogLine>, n: nat, was: int, held: set<LogLine>, horizon: int, now: set<LogLine>)
    requires Covered(lines, n, was, held) && was <= horizon && Retained(held, horizon, now)
    ensures Covered(lines, n, horizon, now)
  {
  }

  lemma MarksStay(h: Host, marks: map<int, Mark>, was: int, held: set<LogLine>, horizon: int, now: set<LogLine>)
    requires MarksCovered(h, marks, was, held) && was <= horizon && Retained(held, horizon, now)
    ensures MarksCovered(h, marks, horizon, now)
  {
    forall c | c in marks ensures MarkCovered(h.written[c], marks[c], horizon, now) {
      var lines := h.written[c];
      var p :| 0 <= p < |lines| && MarkOf(lines[p]) == marks[c] && Covered(lines, p + 1, was, held);
      CoverageStays(lines, p + 1, was, held, horizon, now);
    }
  }

  lemma HorizonRises(h: Host, now: int, later: int)
    requires now <= later
    ensures Horizon(h, now) <= Horizon(h, later)
  {
    CutoffRises(now, later, h.weeks);
  }

  /** A line the dedup drops is held already. */
  lemma DroppedIsHeld(lines: seq<LogLine>, i: nat, mem: map<int, Mark>, horizon: int, held: set<LogLine>)
    requires Rising(lines) && i < |lines| && Repeats(mem, lines[i])
    requires MarkCovered(lines, mem[lines[i].body.cid], horizon, held)
    ensures horizon <= lines[i].ts ==> lines[i] in held
  {
    var m := mem[lines[i].body.cid];
    var p :| 0 <= p < |lines| && MarkOf(lines[p]) == m && Covered(lines, p + 1, horizon, held);
    if m == MarkOf(lines[i]) {
      assert lines[p] == lines[i];
    } else {
      assert i < p;
    }
  }

  /** Everything before the replay start is covered by what the saved mark answers for. */
  lemma ReplaySkipsOnlyCovered(h: Host, s: State, c: int, held: set<LogLine>)
    requires ValidHost(h) && c in h.written && MarksCovered(h, s.saved, Horizon(h, s.now), held)
    ensures Covered(h.written[c], ReplayStart(h, s, c), Horizon(h, s.now), held)
  {
    var lines, start, horizon := h.written[c], ReplayStart(h, s, c), Horizon(h, s.now);
    var cutoff := RetentionCutoffMs(s.now, h.weeks);
    assert cutoff / 1000 * 1000 <= cutoff;
    forall i | 0 <= i < start && horizon <= lines[i].ts ensures lines[i] in held {
      assert lines[i].ts < LogSinceSecs(SavedTs(s.saved, c), s.now, h.weeks) * 1000;
      assert c in s.saved && lines[i].ts < s.saved[c].ts / 1000 * 1000 <= s.saved[c].ts;
      var p :| 0 <= p < |lines| && MarkOf(lines[p]) == s.saved[c] && Covered(lines, p + 1, horizon, held);
      assert lines[p].ts == s.saved[c].ts && i < p;
    }
  }

  // ---------------------------------------------------------------- every step keeps the invariant

  lemma RetainedKeepsMarks(h: Host, s: State, t: State)
    requires Inv(h, s) && s.now <= t.now && Retained(Held(s), Horizon(h, t.now), Held(t))
    ensures MarksCovered(h, s.mem, Horizon(h, t.now), Held(t))
    ensures MarksCovered(h, s.saved, Horizon(h, t.now), Held(t))
    ensures forall f :: f in s.flights ==> MarksCovered(h, f.marks, Horizon(h, t.now), Held(t))
    ensures PositionsCovered(h, s.(now := t.now, durable := t.durable, flights := t.flights, lines := t.lines))
  {
    HorizonRises(h, s.now, t.now);
    var was, horizon := Horizon(h, s.now), Horizon(h, t.now);
    MarksStay(h, s.mem, was, Held(s), horizon, Held(t));
    MarksStay(h, s.saved, was, Held(s), horizon, Held(t));
    forall f | f in s.flights ensures MarksCovered(h, f.marks, horizon, Held(t)) {
      MarksStay(h, f.marks, was, Held(s), horizon, Held(t));
    }
    var v := s.(now := t.now, durable := t.durable, flights := t.flights, lines := t.lines);
    assert Held(v) == Held(t);
    forall c | c in v.position
      ensures c in h.written && Covered(h.written[c], v.position[c], Horizon(h, v.now), Held(v))
    {
      CoverageStays(h.written[c], s.position[c], was, Held(s), horizon, Held(t));
    }
  }

  lemma DeliveredIsHeld(s: State, l: LogLine)
    ensures Held(Delivered(s, l)) == Held(s) + if Repeats(s.mem, l) then {} else {l}
  {
    ElemsOfConcat(s.lines, [l]);
    assert Elems([l]) == {l};
  }

  lemma CoveredOneMore(lines: seq<LogLine>, i: nat, horizon: int, held: set<LogLine>, now: set<LogLine>)
    requires i < |lines| && Covered(lines, i, horizon, held) && held <= now
    requires horizon <= lines[i].ts ==> lines[i] in now
    ensures Covered(lines, i + 1, horizon, now)
  {
  }

  lemma DeliverKeepsInv(h: Host, s: State, c: int)
    requires ValidHost(h) && Inv(h, s) && Enabled(h, s, Deliver(c))
    ensures Inv(h, After(h, s, Deliver(c)))
  {
    var lines, i := h.written[c], s.position[c];
    var l, t, horizon := lines[i], After(h, s, Deliver(c)), Horizon(h, s.now);
    assert l in lines && l.body.cid == c;
    DeliveredIsHeld(s.(position := s.position[c := i + 1]), l);
    RetainedKeepsMarks(h, s, t);
    if Repeats(s.mem, l) { DroppedIsHeld(lines, i, s.mem, horizon, Held(s)); }
    CoveredOneMore(lines, i, horizon, Held(s), Held(t));
    assert MarkOf(lines[i]) == MarkOf(l);
  }

  lemma TakeKeepsInv(h: Host, s: State)
    requires Inv(h, s) && s.lines != []
    ensures Inv(h, Taken(s)) && Held(Taken(s)) == Held(s)
  {
    var t := Taken(s);
    var f := t.flights[|s.flights|];
    assert t.flights == s.flights + [f];
    forall l ensures l in InFlight(t.flights) <==> l in InFlight(s.flights) || l in s.lines {
      if l in s.lines { assert f in t.flights && l in f.lines; }
    }
    assert Held(t) == Held(s);
    RetainedKeepsMarks(h, s, t);
  }

  lemma WithoutOne(flights: seq<Flight>, k: nat)
    requires k < |flights|
    ensures InFlight(Without(flights, k)) + Elems(flights[k].lines) == InFlight(flights)
    ensures forall f :: f in Without(flights, k) ==> f in flights
  {
    forall f ensures f in flights <==> f in Without(flights, k) || f == flights[k] {
      assert flights == flights[..k] + [flights[k]] + flights[k + 1..];
    }
  }

  lemma WithOneLanded(flights: seq<Flight>, k: nat)
    requires k < |flights|
    ensures var t := flights[k := Flight([], flights[k].marks, true)];
      && InFlight(t) + Elems(flights[k].lines) == InFlight(flights)
      && forall f :: f in t ==> f in flights || f == Flight([], flights[k].marks, true)
  {
    var t := flights[k := Flight([], flights[k].marks, true)];
    forall l ensures l in InFlight(t) || l in flights[k].lines <==> l in InFlight(flights) {
      if l in InFlight(flights) {
        var f :| f in flights && l in f.lines;
        var j :| 0 <= j < |flights| && flights[j] == f;
        if j != k { assert t[j] in t; }
      }
    }
  }

  lemma LandedOneMore(rest: seq<LogLine>, l: LogLine, weeks: set<int>)
    requires Supported(l.ts) && MondayFloor(l.ts) in weeks
    ensures Landed(rest + [l], weeks) == Landed(rest, weeks) + [l]
  {
    assert (rest + [l])[..|rest|] == rest;
  }

  lemma TouchedOneMore(rest: seq<LogLine>, l: LogLine)
    requires Supported(l.ts)
    ensures WeeksTouched(rest + [l]) == WeeksTouched(rest) + {MondayFloor(l.ts)}
  {
    assert (rest + [l])[..|rest|] == rest;
  }

  /** With every week committed, a batch of supported lines has landed whole. */
  lemma {:induction false} AllLanded(lines: seq<LogLine>, weeks: set<int>)
    requires (forall l :: l in lines ==> Supported(l.ts)) && WeeksTouched(lines) <= weeks
    ensures Landed(lines, weeks) == lines
  {
    if lines != [] {
      var rest, last := lines[..|lines| - 1], lines[|lines| - 1];
      assert lines == rest + [last] && last in lines && forall l :: l in rest ==> l in lines;
      TouchedOneMore(rest, last);
      AllLanded(rest, weeks);
      LandedOneMore(rest, last, weeks);
    }
  }

  lemma ElemsOfConcat(a: seq<LogLine>, b: seq<LogLine>)
    ensures Elems(a + b) == Elems(a) + Elems(b)
  {
  }

  lemma LandingKeepsHeld(s: State, k: nat)
    requires k < |s.flights| && forall l :: l in Held(s) ==> Supported(l.ts)
    ensures Held(AppendEnded(s, k, WeeksTouched(s.flights[k].lines))) == Held(s)
  {
    var f := s.flights[k];
    var t := AppendEnded(s, k, WeeksTouched(f.lines));
    assert f in s.flights && forall l :: l in f.lines ==> l in Held(s);
    AllLanded(f.lines, WeeksTouched(f.lines));
    WithOneLanded(s.flights, k);
    ElemsOfConcat(s.durable, f.lines);
    var d, b, rest, l := Elems(s.durable), Elems(f.lines), InFlight(t.flights), Elems(s.lines);
    assert d + b + rest + l == d + (rest + b) + l;
  }

  lemma RestoringKeepsHeld(s: State, k: nat, committed: set<int>)
    requires k < |s.flights| && committed != WeeksTouched(s.flights[k].lines)
    ensures Held(AppendEnded(s, k, committed)) == Held(s)
  {
    var f := s.flights[k];
    var part := Landed(f.lines, committed);
    WithoutOne(s.flights, k);
    ElemsOfConcat(s.durable, part);
    ElemsOfConcat(f.lines, s.lines);
    assert Elems(part) <= Elems(f.lines);
  }

  lemma AppendKeepsHeld(s: State, k: nat, committed: set<int>)
    requires k < |s.flights| && forall l :: l in Held(s) ==> Supported(l.ts)
    ensures Held(AppendEnded(s, k, committed)) == Held(s)
    ensures Elems(s.durable) <= Elems(AppendEnded(s, k, committed).durable)
  {
    if committed == WeeksTouched(s.flights[k].lines) {
      LandingKeepsHeld(s, k);
    } else {
      RestoringKeepsHeld(s, k, committed);
    }
    ElemsOfConcat(s.durable, Landed(s.flights[k].lines, committed));
  }

  lemma AppendKeepsInv(h: Host, s: State, k: nat, committed: set<int>)
    requires Inv(h, s) && Enabled(h, s, Append(k, committed))
    ensures Inv(h, AppendEnded(s, k, committed))
  {
    var f, t := s.flights[k], AppendEnded(s, k, committed);
    AppendKeepsHeld(s, k, committed);
    RetainedKeepsMarks(h, s, t);
    assert f in s.flights;
    if committed == WeeksTouched(f.lines) {
      WithOneLanded(s.flights, k);
    } else {
      WithoutOne(s.flights, k);
    }
  }

  lemma FinishKeepsInv(h: Host, s: State, k: nat)
    requires Inv(h, s) && Enabled(h, s, Finish(k))
    ensures Inv(h, After(h, s, Finish(k)))
  {
    var t := After(h, s, Finish(k));
    assert s.flights[k] in s.flights;
    WithoutOne(s.flights, k);
    assert Held(t) == Held(s);
    RetainedKeepsMarks(h, s, t);
  }

  lemma AdvanceKeepsInv(h: Host, s: State, k: nat, c: int)
    requires Inv(h, s) && Enabled(h, s, Advance(k, c))
    ensures Inv(h, After(h, s, Advance(k, c)))
  {
    var t := After(h, s, Advance(k, c));
    assert s.flights[k] in s.flights && Held(t) == Held(s);
    RetainedKeepsMarks(h, s, t);
  }

  lemma CleanupKeepsHeld(h: Host, s: State, at: int, ok: bool)
    requires at <= s.now
    ensures var t := CleanedUp(s, RetentionCutoffMs(at, h.weeks), ok);
      && Retained(Held(s), Horizon(h, s.now), Held(t)) && Held(t) <= Held(s)
      && Retained(Elems(s.durable), Horizon(h, s.now), Elems(t.durable))
  {
    CutoffRises(at, s.now, h.weeks);
  }

  lemma CleanupKeepsInv(h: Host, s: State, at: int, ok: bool)
    requires Inv(h, s) && at <= s.now
    ensures Inv(h, CleanedUp(s, RetentionCutoffMs(at, h.weeks), ok))
  {
    CleanupKeepsHeld(h, s, at, ok);
    RetainedKeepsMarks(h, s, CleanedUp(s, RetentionCutoffMs(at, h.weeks), ok));
  }

  /** Short of a crash, no interleaving loses a line: overlapping flushes and partial appends included. */
  lemma ReconnectKeepsInv(h: Host, s: State, c: int, from: nat)
    requires ValidHost(h) && Inv(h, s) && Enabled(h, s, Reconnect(c, from))
    ensures Inv(h, After(h, s, Reconnect(c, from)))
  {
    ReplaySkipsOnlyCovered(h, s, c, Held(s));
    assert Held(After(h, s, Reconnect(c, from))) == Held(s);
  }

  lemma StepKeepsInv(h: Host, s: State, step: Step)
    requires ValidHost(h) && Inv(h, s) && !step.Crash?
    ensures Inv(h, After(h, s, step))
  {
    if Enabled(h, s, step) {
      match step
      case Deliver(c) => DeliverKeepsInv(h, s, c);
      case Take => TakeKeepsInv(h, s);
      case Append(k, committed) => AppendKeepsInv(h, s, k, committed);
      case Advance(k, c) => AdvanceKeepsInv(h, s, k, c);
      case Finish(k) => FinishKeepsInv(h, s, k);
      case Reconnect(c, from) => ReconnectKeepsInv(h, s, c, from);
      case Tick(to) => RetainedKeepsMarks(h, s, s.(now := to));
      case Cleanup(at, ok) => CleanupKeepsInv(h, s, at, ok);
    }
  }

  /** What survives a crash answers for itself. */
  lemma CrashKeepsInv(h: Host, s: State, known: bool)
    requires Inv(h, s) && SerialInv(h, s)
    ensures Inv(h, Restarted(s, known)) && SerialInv(h, Restarted(s, known))
  {
    var t := Restarted(s, known);
    assert Held(t) == Elems(s.durable) && Held(t) <= Held(s);
  }

  lemma SerialTake(h: Host, s: State)
    requires Inv(h, s) && SerialInv(h, s) && s.lines != [] && s.flights == []
    ensures SerialInv(h, Taken(s))
  {
    assert Held(s) == Elems(s.durable) + Elems(s.lines);
  }

  lemma SerialLanding(h: Host, s: State, f: Flight)
    requires Inv(h, s) && SerialInv(h, s) && s.flights == [f] && !f.landed
    ensures SerialInv(h, AppendEnded(s, 0, WeeksTouched(f.lines)))
  {
    var horizon := Horizon(h, s.now);
    assert f in s.flights && forall l :: l in f.lines ==> l in Held(s);
    AllLanded(f.lines, WeeksTouched(f.lines));
    ElemsOfConcat(s.durable, f.lines);
    var stored := Elems(s.durable + f.lines);
    MarksStay(h, s.saved, horizon, Elems(s.durable), horizon, stored);
    assert stored + Elems([]) == stored;
  }

  lemma SerialAppend(h: Host, s: State, k: nat, committed: set<int>)
    requires Inv(h, s) && SerialInv(h, s) && Enabled(h, s, Append(k, committed))
    ensures SerialInv(h, AppendEnded(s, k, committed))
  {
    var f := s.flights[k];
    assert k == 0 && s.flights == [f];
    if committed == WeeksTouched(f.lines) {
      SerialLanding(h, s, f);
    } else {
      ElemsOfConcat(s.durable, Landed(f.lines, committed));
      var horizon := Horizon(h, s.now);
      MarksStay(h, s.saved, horizon, Elems(s.durable), horizon, Elems(s.durable + Landed(f.lines, committed)));
    }
  }

  lemma SerialCleanup(h: Host, s: State, at: int, ok: bool)
    requires SerialInv(h, s) && at <= s.now
    ensures SerialInv(h, CleanedUp(s, RetentionCutoffMs(at, h.weeks), ok))
  {
    var t, horizon := CleanedUp(s, RetentionCutoffMs(at, h.weeks), ok), Horizon(h, s.now);
    CleanupKeepsHeld(h, s, at, ok);
    MarksStay(h, s.saved, horizon, Elems(s.durable), horizon, Elems(t.durable));
    forall f | f in s.flights ensures MarksCovered(h, f.marks, horizon, Elems(t.durable) + Elems(f.lines)) {
      MarksStay(h, f.marks, horizon, Elems(s.durable) + Elems(f.lines), horizon, Elems(t.durable) + Elems(f.lines));
    }
  }

  lemma SerialTick(h: Host, s: State, to: int)
    requires SerialInv(h, s) && s.now <= to
    ensures SerialInv(h, s.(now := to))
  {
    HorizonRises(h, s.now, to);
    var was, horizon := Horizon(h, s.now), Horizon(h, to);
    MarksStay(h, s.saved, was, Elems(s.durable), horizon, Elems(s.durable));
    forall f | f in s.flights ensures MarksCovered(h, f.marks, horizon, Elems(s.durable) + Elems(f.lines)) {
      MarksStay(h, f.marks, was, Elems(s.durable) + Elems(f.lines), horizon, Elems(s.durable) + Elems(f.lines));
    }
  }

  lemma SerialAdvance(h: Host, s: State, k: nat, c: int)
    requires Inv(h, s) && SerialInv(h, s) && Enabled(h, s, Advance(k, c))
    ensures SerialInv(h, After(h, s, Advance(k, c)))
  {
    assert s.flights[k] in s.flights;
    assert Elems(s.durable) + Elems([]) == Elems(s.durable);
  }

  lemma SerialFinish(h: Host, s: State, k: nat)
    requires SerialInv(h, s) && Enabled(h, s, Finish(k))
    ensures SerialInv(h, After(h, s, Finish(k)))
  {
    WithoutOne(s.flights, k);
  }

  lemma SerialDeliver(h: Host, s: State, c: int)
    requires SerialInv(h, s) && Enabled(h, s, Deliver(c))
    ensures SerialInv(h, After(h, s, Deliver(c)))
  {
  }

  lemma SerialUp(h: Host, s: State, step: Step)
    requires Inv(h, s) && SerialInv(h, s) && Enabled(h, s, step) && !step.Crash? && (step.Take? ==> s.flights == [])
    ensures SerialInv(h, After(h, s, step))
  {
    match step
    case Deliver(c) => SerialDeliver(h, s, c);
    case Take => SerialTake(h, s);
    case Append(k, committed) => SerialAppend(h, s, k, committed);
    case Advance(k, c) => SerialAdvance(h, s, k, c);
    case Finish(k) => SerialFinish(h, s, k);
    case Reconnect(c, from) =>
    case Tick(to) => SerialTick(h, s, to);
    case Cleanup(at, ok) => SerialCleanup(h, s, at, ok);
  }

  lemma SerialStep(h: Host, s: State, step: Step)
    requires ValidHost(h) && Inv(h, s) && SerialInv(h, s) && (step.Take? ==> s.flights == [])
    ensures Inv(h, After(h, s, step)) && SerialInv(h, After(h, s, step))
  {
    if step.Crash? {
      CrashKeepsInv(h, s, step.known);
    } else {
      StepKeepsInv(h, s, step);
      if Enabled(h, s, step) { SerialUp(h, s, step); }
    }
  }

  // ---------------------------------------------------------------- whole runs

  lemma StartIsSound(h: Host, now: int)
    ensures Inv(h, Start(now)) && SerialInv(h, Start(now))
  {
    assert Held(Start(now)) == {};
  }

  /** At least once: at every moment of every run without overlapping flushes, crashes anywhere, a saved
      checkpoint has every wanted line up to it durable, and everything delivered since is held. */
  lemma {:induction false} AtLeastOnce(h: Host, now: int, steps: seq<Step>)
    requires ValidHost(h) && Serial(h, now, steps)
    ensures Inv(h, Run(h, now, steps)) && SerialInv(h, Run(h, now, steps))
  {
    if steps == [] {
      StartIsSound(h, now);
    } else {
      var earlier := steps[..|steps| - 1];
      AtLeastOnce(h, now, earlier);
      SerialStep(h, Run(h, now, earlier), steps[|steps| - 1]);
    }
  }

  /** Even with overlapping flushes, nothing is lost as long as the process stays up. */
  lemma {:induction false} NothingLostWhileUp(h: Host, now: int, steps: seq<Step>)
    requires ValidHost(h) && forall step :: step in steps ==> !step.Crash?
    ensures Inv(h, Run(h, now, steps))
  {
    if steps == [] {
      StartIsSound(h, now);
    } else {
      var earlier := steps[..|steps| - 1];
      NothingLostWhileUp(h, now, earlier);
      StepKeepsInv(h, Run(h, now, earlier), steps[|steps| - 1]);
    }
  }
}
