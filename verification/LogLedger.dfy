/** Where every accepted line is: conservation over all interleavings, and the exact sequence without overlap. */
module LogLedger {
  import opened Prelude
  import opened Weeks
  import opened LogStore
  import opened ShardedStore
  import opened LogIngest

  /** The history of a run: lines accepted by the dedup, stored by a partial append and again restored,
      lost with the process, and expired. */
  datatype Ledger = Ledger(
    accepted: seq<LogLine>, again: multiset<LogLine>, lost: multiset<LogLine>, expired: multiset<LogLine>)

  function Recorded(h: Host, s: State, step: Step, g: Ledger): Ledger {
    if !Enabled(h, s, step) then g
    else
      match step
      case Deliver(c) =>
        var l := h.written[c][s.position[c]];
        if Repeats(s.mem, l) then g else g.(accepted := g.accepted + [l])
      case Append(k, committed) =>
        var lines := s.flights[k].lines;
        if committed == WeeksTouched(lines) then g else g.(again := g.again + multiset(Landed(lines, committed)))
      case Crash(_) => g.(lost := g.lost + multiset(FlightLines(s.flights)) + multiset(s.lines))
      case Cleanup(at, _) =>
        var kept := KeptFrom(s.durable, Retention.RetentionCutoffMs(at, h.weeks));
        g.(expired := g.expired + (multiset(s.durable) - multiset(kept)))
      case _ => g
  }

  function History(h: Host, now: int, steps: seq<Step>): Ledger {
    if steps == [] then Ledger([], multiset{}, multiset{}, multiset{})
    else
      var earlier, step := steps[..|steps| - 1], steps[|steps| - 1];
      Recorded(h, Run(h, now, earlier), step, History(h, now, earlier))
  }

  // ---------------------------------------------------------------- lines of the batches under way

  lemma {:induction false} FlightLinesConcat(a: seq<Flight>, b: seq<Flight>)
    ensures FlightLines(a + b) == FlightLines(a) + FlightLines(b)
  {
    if b == [] {
      assert a + b == a;
    } else {
      assert (a + b)[..|a + b| - 1] == a + b[..|b| - 1];
      FlightLinesConcat(a, b[..|b| - 1]);
    }
  }

  lemma FlightLinesOfOne(f: Flight)
    ensures FlightLines([f]) == f.lines
  {
    assert [f][..0] == [];
  }

  lemma FlightLinesAround(a: seq<Flight>, f: Flight, b: seq<Flight>)
    ensures FlightLines(a + [f] + b) == FlightLines(a) + f.lines + FlightLines(b)
  {
    FlightLinesConcat(a + [f], b);
    FlightLinesConcat(a, [f]);
    FlightLinesOfOne(f);
  }

  lemma SplitAt(flights: seq<Flight>, k: nat)
    requires k < |flights|
    ensures flights == flights[..k] + [flights[k]] + flights[k + 1..]
  {
  }

  lemma FlightLinesSplit(flights: seq<Flight>, k: nat)
    requires k < |flights|
    ensures FlightLines(flights) == FlightLines(flights[..k]) + flights[k].lines + FlightLines(flights[k + 1..])
  {
    SplitAt(flights, k);
    FlightLinesAround(flights[..k], flights[k], flights[k + 1..]);
  }

  function Count(s: seq<LogLine>, l: LogLine): nat { multiset(s)[l] }

  lemma CountConcat(a: seq<LogLine>, b: seq<LogLine>, l: LogLine)
    ensures Count(a + b, l) == Count(a, l) + Count(b, l)
  {
  }

  lemma CountAround(a: seq<LogLine>, m: seq<LogLine>, b: seq<LogLine>, l: LogLine)
    ensures Count(a + m + b, l) == Count(a + b, l) + Count(m, l)
  {
    CountConcat(a + m, b, l);
    CountConcat(a, m, l);
    CountConcat(a, b, l);
  }

  lemma FlightLinesWithout(flights: seq<Flight>, k: nat, l: LogLine)
    requires k < |flights|
    ensures Count(FlightLines(flights), l) == Count(FlightLines(Without(flights, k)), l) + Count(flights[k].lines, l)
  {
    FlightLinesSplit(flights, k);
    CountAround(FlightLines(flights[..k]), flights[k].lines, FlightLines(flights[k + 1..]), l);
    FlightLinesConcat(flights[..k], flights[k + 1..]);
  }

  lemma FlightLinesLanded(flights: seq<Flight>, k: nat, marks: map<int, Mark>, l: LogLine)
    requires k < |flights|
    ensures Count(FlightLines(flights), l) ==
            Count(FlightLines(flights[k := Flight([], marks, true)]), l) + Count(flights[k].lines, l)
  {
    var t := flights[k := Flight([], marks, true)];
    FlightLinesSplit(flights, k);
    FlightLinesSplit(t, k);
    assert t[..k] == flights[..k] && t[k + 1..] == flights[k + 1..];
    CountAround(FlightLines(flights[..k]), flights[k].lines, FlightLines(flights[k + 1..]), l);
  }

  // ---------------------------------------------------------------- conservation

  function Total(s: State, l: LogLine): nat {
    Count(s.durable, l) + Count(FlightLines(s.flights), l) + Count(s.lines, l)
  }

  predicate Balanced(s: State, g: Ledger, l: LogLine) {
    Total(s, l) + g.lost[l] + g.expired[l] == Count(g.accepted, l) + g.again[l]
  }

  ghost predicate Tidy(s: State) {
    && (forall f :: f in s.flights ==> (f.landed ==> f.lines == []) && forall l :: l in f.lines ==> Supported(l.ts))
    && forall l :: l in s.lines ==> Supported(l.ts)
  }

  lemma LandingBalances(s: State, k: nat, g: Ledger, l: LogLine)
    requires Tidy(s) && Balanced(s, g, l) && k < |s.flights|
    ensures var t := AppendEnded(s, k, WeeksTouched(s.flights[k].lines)); Tidy(t) && Balanced(t, g, l)
  {
    var f := s.flights[k];
    assert f in s.flights;
    AllLanded(f.lines, WeeksTouched(f.lines));
    FlightLinesLanded(s.flights, k, f.marks, l);
    WithOneLanded(s.flights, k);
    CountConcat(s.durable, f.lines, l);
  }

  lemma RestoringBalances(s: State, k: nat, committed: set<int>, g: Ledger, l: LogLine)
    requires Tidy(s) && Balanced(s, g, l) && k < |s.flights| && committed != WeeksTouched(s.flights[k].lines)
    ensures var t := AppendEnded(s, k, committed);
      Tidy(t) && Balanced(t, g.(again := g.again + multiset(Landed(s.flights[k].lines, committed))), l)
  {
    var f := s.flights[k];
    assert f in s.flights;
    FlightLinesWithout(s.flights, k, l);
    WithoutOne(s.flights, k);
    CountConcat(s.durable, Landed(f.lines, committed), l);
    CountConcat(f.lines, s.lines, l);
  }

  lemma {:induction false} KeptIsPart(lines: seq<LogLine>, cutoff: int, l: LogLine)
    ensures Count(KeptFrom(lines, cutoff), l) <= Count(lines, l)
  {
    if lines != [] {
      var rest, last := lines[..|lines| - 1], lines[|lines| - 1];
      KeptIsPart(rest, cutoff, l);
      assert lines == rest + [last];
      CountConcat(rest, [last], l);
      CountConcat(KeptFrom(rest, cutoff), [last], l);
    }
  }

  lemma ExpiryBalances(s: State, t: State, g: Ledger, l: LogLine)
    requires Balanced(s, g, l) && t.lines == s.lines && t.flights == s.flights
    requires Count(t.durable, l) <= Count(s.durable, l)
    ensures Balanced(t, g.(expired := g.expired + (multiset(s.durable) - multiset(t.durable))), l)
  {
  }

  lemma CleanupBalances(h: Host, s: State, at: int, ok: bool, g: Ledger, l: LogLine)
    requires Tidy(s) && Balanced(s, g, l) && at <= s.now
    ensures Balanced(After(h, s, Cleanup(at, ok)), Recorded(h, s, Cleanup(at, ok), g), l)
  {
    KeptIsPart(s.durable, Retention.RetentionCutoffMs(at, h.weeks), l);
    ExpiryBalances(s, After(h, s, Cleanup(at, ok)), g, l);
  }

  lemma DeliverBalances(h: Host, s: State, c: int, g: Ledger, l: LogLine)
    requires ValidHost(h) && Tidy(s) && Balanced(s, g, l) && Enabled(h, s, Deliver(c))
    ensures Tidy(After(h, s, Deliver(c))) && Balanced(After(h, s, Deliver(c)), Recorded(h, s, Deliver(c), g), l)
  {
    var line := h.written[c][s.position[c]];
    assert line in h.written[c];
    CountConcat(s.lines, [line], l);
    CountConcat(g.accepted, [line], l);
  }

  lemma TakeBalances(s: State, g: Ledger, l: LogLine)
    requires Tidy(s) && Balanced(s, g, l)
    ensures Tidy(Taken(s)) && Balanced(Taken(s), g, l)
  {
    var f := Flight(s.lines, MarksFor(s.mem, s.lines), false);
    FlightLinesConcat(s.flights, [f]);
    FlightLinesOfOne(f);
    CountConcat(FlightLines(s.flights), s.lines, l);
  }

  lemma FinishBalances(h: Host, s: State, k: nat, g: Ledger, l: LogLine)
    requires Tidy(s) && Balanced(s, g, l) && Enabled(h, s, Finish(k))
    ensures Tidy(After(h, s, Finish(k))) && Balanced(After(h, s, Finish(k)), g, l)
  {
    FlightLinesWithout(s.flights, k, l);
    WithoutOne(s.flights, k);
    assert s.flights[k] in s.flights;
  }

  lemma StepBalances(h: Host, s: State, step: Step, g: Ledger, l: LogLine)
    requires ValidHost(h) && Tidy(s) && Balanced(s, g, l)
    ensures Tidy(After(h, s, step)) && Balanced(After(h, s, step), Recorded(h, s, step, g), l)
  {
    if Enabled(h, s, step) {
      match step {
        case Deliver(c) => DeliverBalances(h, s, c, g, l);
        case Take => TakeBalances(s, g, l);
        case Append(k, committed) =>
          if committed == WeeksTouched(s.flights[k].lines) {
            LandingBalances(s, k, g, l);
          } else {
            RestoringBalances(s, k, committed, g, l);
          }
        case Finish(k) => FinishBalances(h, s, k, g, l);
        case Cleanup(at, ok) => CleanupBalances(h, s, at, ok, g, l);
        case _ =>
      }
    }
  }

  /** In every interleaving, every accepted line is durable, in flight, buffered, lost in a crash or expired,
      and nothing else is anywhere but for what partial appends stored twice. */
  lemma {:induction false} Conserved(h: Host, now: int, steps: seq<Step>, l: LogLine)
    requires ValidHost(h)
    ensures Tidy(Run(h, now, steps)) && Balanced(Run(h, now, steps), History(h, now, steps), l)
  {
    if steps != [] {
      var earlier := steps[..|steps| - 1];
      Conserved(h, now, earlier, l);
      StepBalances(h, Run(h, now, earlier), steps[|steps| - 1], History(h, now, earlier), l);
    }
  }

  // ---------------------------------------------------------------- the exact sequence

  predicate AtomicAppend(s: State, step: Step) {
    step.Append? && step.flight < |s.flights| ==>
      step.committed == {} || step.committed == WeeksTouched(s.flights[step.flight].lines)
  }

  /** Appends land whole or not at all. */
  predicate Atomic(h: Host, now: int, steps: seq<Step>) {
    steps == [] ||
    (var earlier := steps[..|steps| - 1];
     Atomic(h, now, earlier) && AtomicAppend(Run(h, now, earlier), steps[|steps| - 1]))
  }

  predicate InSequence(s: State, g: Ledger) {
    |s.flights| <= 1 && g.accepted == s.durable + FlightLines(s.flights) + s.lines
  }

  lemma {:induction false} NothingLanded(lines: seq<LogLine>)
    ensures Landed(lines, {}) == []
  {
    if lines != [] { NothingLanded(lines[..|lines| - 1]); }
  }

  lemma SequenceOf(s: State, f: Flight, g: Ledger)
    requires s.flights == [f]
    ensures InSequence(s, g) <==> g.accepted == s.durable + f.lines + s.lines
  {
    FlightLinesOfOne(f);
  }

  lemma LandedAlone(s: State, f: Flight)
    requires s.flights == [f] && Landed(f.lines, WeeksTouched(f.lines)) == f.lines
    ensures AppendEnded(s, 0, WeeksTouched(f.lines)) ==
            s.(durable := s.durable + f.lines, flights := [Flight([], f.marks, true)])
  {
    assert [f][0 := Flight([], f.marks, true)] == [Flight([], f.marks, true)];
  }

  lemma LandingKeepsSequence(s: State, f: Flight, g: Ledger)
    requires Tidy(s) && InSequence(s, g) && s.flights == [f]
    ensures InSequence(AppendEnded(s, 0, WeeksTouched(f.lines)), g)
  {
    assert f in s.flights;
    AllLanded(f.lines, WeeksTouched(f.lines));
    LandedAlone(s, f);
    SequenceOf(s, f, g);
    SequenceOf(AppendEnded(s, 0, WeeksTouched(f.lines)), Flight([], f.marks, true), g);
  }

  lemma RestoringKeepsSequence(s: State, f: Flight, g: Ledger)
    requires InSequence(s, g) && s.flights == [f] && WeeksTouched(f.lines) != {}
    ensures InSequence(AppendEnded(s, 0, {}), g)
  {
    NothingLanded(f.lines);
    assert Without(s.flights, 0) == [] && FlightLines([]) == [];
    FlightLinesOfOne(f);
  }

  lemma AppendKeepsSequence(s: State, f: Flight, committed: set<int>, g: Ledger)
    requires Tidy(s) && InSequence(s, g) && s.flights == [f]
    requires committed == {} || committed == WeeksTouched(f.lines)
    ensures InSequence(AppendEnded(s, 0, committed), g)
  {
    if committed == WeeksTouched(f.lines) {
      LandingKeepsSequence(s, f, g);
    } else {
      RestoringKeepsSequence(s, f, g);
    }
  }

  lemma TakeKeepsSequence(s: State, g: Ledger)
    requires InSequence(s, g) && s.flights == []
    ensures InSequence(Taken(s), g)
  {
    FlightLinesOfOne(Flight(s.lines, MarksFor(s.mem, s.lines), false));
  }

  lemma FinishKeepsSequence(s: State, f: Flight, g: Ledger)
    requires InSequence(s, g) && s.flights == [f] && f.lines == []
    ensures InSequence(s.(flights := Without(s.flights, 0)), g)
  {
    FlightLinesOfOne(f);
    assert Without(s.flights, 0) == [];
  }

  lemma AppendStepKeepsSequence(h: Host, s: State, k: nat, committed: set<int>, g: Ledger)
    requires Tidy(s) && InSequence(s, g) && AtomicAppend(s, Append(k, committed)) && Enabled(h, s, Append(k, committed))
    ensures InSequence(AppendEnded(s, k, committed), Recorded(h, s, Append(k, committed), g))
  {
    var f := s.flights[0];
    assert k == 0 && s.flights == [f];
    AppendKeepsSequence(s, f, committed, g);
    NothingLanded(f.lines);
  }

  lemma FinishStepKeepsSequence(h: Host, s: State, k: nat, g: Ledger)
    requires Tidy(s) && InSequence(s, g) && Enabled(h, s, Finish(k))
    ensures InSequence(After(h, s, Finish(k)), g)
  {
    var f := s.flights[0];
    assert k == 0 && s.flights == [f] && f in s.flights;
    FinishKeepsSequence(s, f, g);
  }

  lemma StepKeepsSequence(h: Host, s: State, step: Step, g: Ledger)
    requires Tidy(s) && InSequence(s, g) && !step.Crash? && !step.Cleanup?
    requires (step.Take? ==> s.flights == []) && AtomicAppend(s, step)
    ensures InSequence(After(h, s, step), Recorded(h, s, step, g))
  {
    if Enabled(h, s, step) {
      match step {
        case Take => TakeKeepsSequence(s, g);
        case Append(k, committed) => AppendStepKeepsSequence(h, s, k, committed, g);
        case Finish(k) => FinishStepKeepsSequence(h, s, k, g);
        case _ =>
      }
    }
  }

  /** Without overlap, partial appends, crash or cleanup, the accepted lines are, in order,
      the durable ones, then the batch under way, then the buffer: failed batches go back in front. */
  lemma {:induction false} SequenceKept(h: Host, now: int, steps: seq<Step>)
    requires ValidHost(h) && Serial(h, now, steps) && Atomic(h, now, steps)
    requires forall step :: step in steps ==> !step.Crash? && !step.Cleanup?
    ensures InSequence(Run(h, now, steps), History(h, now, steps))
  {
    if steps != [] {
      var earlier := steps[..|steps| - 1];
      SequenceKept(h, now, earlier);
      Conserved(h, now, earlier, LogLine(0, Body(0, Stdout, None, "")));
      StepKeepsSequence(h, Run(h, now, earlier), steps[|steps| - 1], History(h, now, earlier));
    }
  }

  lemma {:induction false} AtomicStoresNothingAgain(h: Host, now: int, steps: seq<Step>)
    requires Atomic(h, now, steps)
    ensures History(h, now, steps).again == multiset{}
  {
    if steps != [] {
      var earlier, step := steps[..|steps| - 1], steps[|steps| - 1];
      AtomicStoresNothingAgain(h, now, earlier);
      var s := Run(h, now, earlier);
      if step.Append? && step.flight < |s.flights| { NothingLanded(s.flights[step.flight].lines); }
    }
  }
}
