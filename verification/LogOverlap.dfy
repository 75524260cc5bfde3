/** Overlapping flushes: exactly which steps put a saved checkpoint ahead of what is durable. */
module LogOverlap {
  import opened LogStore
  import opened LogIngest

  /** Every saved mark answers for durable lines. */
  ghost predicate SavedSound(h: Host, s: State) {
    MarksCovered(h, s.saved, Horizon(h, s.now), Elems(s.durable))
  }

  /** Lines not yet durable. */
  function Waiting(s: State): set<LogLine> { InFlight(s.flights) + Elems(s.lines) - Elems(s.durable) }

  /** Some wanted line of the container up to the first one carrying the mark, that one included, still waits.
      Lines sharing the mark's instant count by their place in the log. */
  ghost predicate WaitsUpTo(lines: seq<LogLine>, waiting: set<LogLine>, horizon: int, m: Mark) {
    exists i :: 0 <= i < |lines| && horizon <= lines[i].ts && lines[i] in waiting && NotMarkedBefore(lines, i, m)
  }

  predicate NotMarkedBefore(lines: seq<LogLine>, n: nat, m: Mark)
    requires n <= |lines|
  {
    forall j :: 0 <= j < n ==> MarkOf(lines[j]) != m
  }

  lemma {:induction false} FirstMarked(lines: seq<LogLine>, m: Mark, p: nat) returns (first: nat)
    requires p < |lines| && MarkOf(lines[p]) == m
    ensures first <= p && MarkOf(lines[first]) == m && NotMarkedBefore(lines, first, m)
    decreases p
  {
    if j :| 0 <= j < p && MarkOf(lines[j]) == m {
      first := FirstMarked(lines, m, j);
    } else {
      first := p;
    }
  }

  lemma WaitingBreaksCoverage(lines: seq<LogLine>, m: Mark, horizon: int, waiting: set<LogLine>, durable: set<LogLine>)
    requires WaitsUpTo(lines, waiting, horizon, m) && waiting !! durable
    ensures !MarkCovered(lines, m, horizon, durable)
  {
    var i :| 0 <= i < |lines| && horizon <= lines[i].ts && lines[i] in waiting && NotMarkedBefore(lines, i, m);
    forall p | 0 <= p < |lines| && MarkOf(lines[p]) == m ensures !Covered(lines, p + 1, horizon, durable) {
      assert i <= p && lines[i] !in durable;
    }
  }

  lemma NothingWaitingKeepsCoverage(
    lines: seq<LogLine>, m: Mark, horizon: int, held: set<LogLine>, waiting: set<LogLine>, durable: set<LogLine>)
    requires MarkCovered(lines, m, horizon, held) && held <= waiting + durable
    requires !WaitsUpTo(lines, waiting, horizon, m)
    ensures MarkCovered(lines, m, horizon, durable)
  {
    var p :| 0 <= p < |lines| && MarkOf(lines[p]) == m && Covered(lines, p + 1, horizon, held);
    var first := FirstMarked(lines, m, p);
    forall i | 0 <= i < first + 1 && horizon <= lines[i].ts ensures lines[i] in durable {
      assert lines[i] in held && NotMarkedBefore(lines, i, m);
    }
    assert Covered(lines, first + 1, horizon, durable);
  }

  /** A mark is covered by durable lines exactly when no line up to it is still waiting. */
  lemma DurableIffNothingWaits(h: Host, s: State, k: nat, c: int)
    requires Inv(h, s) && Enabled(h, s, Advance(k, c))
    ensures c in h.written
    ensures MarkCovered(h.written[c], s.flights[k].marks[c], Horizon(h, s.now), Elems(s.durable))
            <==> !WaitsUpTo(h.written[c], Waiting(s), Horizon(h, s.now), s.flights[k].marks[c])
  {
    assert s.flights[k] in s.flights;
    var lines, m, horizon := h.written[c], s.flights[k].marks[c], Horizon(h, s.now);
    if WaitsUpTo(lines, Waiting(s), horizon, m) {
      WaitingBreaksCoverage(lines, m, horizon, Waiting(s), Elems(s.durable));
    } else {
      NothingWaitingKeepsCoverage(lines, m, horizon, Held(s), Waiting(s), Elems(s.durable));
    }
  }

  // ---------------------------------------------------------------- the one step that can break a promise

  /** Saving this mark leaves the table as it is. */
  predicate Outdated(s: State, k: nat, c: int)
    requires k < |s.flights| && c in s.flights[k].marks
  {
    c in s.saved && s.flights[k].marks[c].ts < s.saved[c].ts
  }

  /** A mark is about to be saved while a line of its container up to it waits in another batch or in the buffer. */
  ghost predicate Risky(h: Host, s: State, step: Step) {
    && step.Advance? && Enabled(h, s, step) && !Outdated(s, step.flight, step.cid) && step.cid in h.written
    && WaitsUpTo(h.written[step.cid], Waiting(s), Horizon(h, s.now), s.flights[step.flight].marks[step.cid])
  }

  lemma CrashKeepsSound(h: Host, s: State, known: bool)
    requires Inv(h, s) && SavedSound(h, s)
    ensures Inv(h, Restarted(s, known)) && SavedSound(h, Restarted(s, known))
  {
    var t := Restarted(s, known);
    assert Held(t) == Elems(s.durable) && Held(t) <= Held(s);
  }

  lemma AdvanceKeepsSound(h: Host, s: State, k: nat, c: int)
    requires Inv(h, s) && SavedSound(h, s)
    requires Enabled(h, s, Advance(k, c)) && !Risky(h, s, Advance(k, c))
    ensures SavedSound(h, After(h, s, Advance(k, c)))
  {
    DurableIffNothingWaits(h, s, k, c);
  }

  lemma AppendKeepsSound(h: Host, s: State, k: nat, committed: set<int>)
    requires SavedSound(h, s) && k < |s.flights|
    ensures SavedSound(h, AppendEnded(s, k, committed))
  {
    var part, horizon := Landed(s.flights[k].lines, committed), Horizon(h, s.now);
    ElemsOfConcat(s.durable, part);
    MarksStay(h, s.saved, horizon, Elems(s.durable), horizon, Elems(s.durable + part));
  }

  lemma CleanupKeepsSound(h: Host, s: State, at: int, ok: bool)
    requires SavedSound(h, s) && at <= s.now
    ensures SavedSound(h, CleanedUp(s, Retention.RetentionCutoffMs(at, h.weeks), ok))
  {
    var t, horizon := CleanedUp(s, Retention.RetentionCutoffMs(at, h.weeks), ok), Horizon(h, s.now);
    CleanupKeepsHeld(h, s, at, ok);
    MarksStay(h, s.saved, horizon, Elems(s.durable), horizon, Elems(t.durable));
  }

  lemma TickKeepsSound(h: Host, s: State, to: int)
    requires SavedSound(h, s) && s.now <= to
    ensures SavedSound(h, s.(now := to))
  {
    HorizonRises(h, s.now, to);
    MarksStay(h, s.saved, Horizon(h, s.now), Elems(s.durable), Horizon(h, to), Elems(s.durable));
  }

  /** Every other step, a crash and an overlapping flush included, keeps all promises. */
  lemma StepKeepsSound(h: Host, s: State, step: Step)
    requires ValidHost(h) && Inv(h, s) && SavedSound(h, s) && !Risky(h, s, step)
    ensures Inv(h, After(h, s, step)) && SavedSound(h, After(h, s, step))
  {
    if step.Crash? {
      CrashKeepsSound(h, s, step.known);
    } else {
      StepKeepsInv(h, s, step);
      if Enabled(h, s, step) {
        match step {
          case Append(k, committed) => AppendKeepsSound(h, s, k, committed);
          case Advance(k, c) => AdvanceKeepsSound(h, s, k, c);
          case Tick(to) => TickKeepsSound(h, s, to);
          case Cleanup(at, ok) => CleanupKeepsSound(h, s, at, ok);
          case _ =>
        }
      }
    }
  }

  /** Saving a mark keeps the promises of the table exactly when the table already holds a newer one,
      or no line of the container up to the mark is still waiting. */
  lemma AdvanceIsSafeIffNothingOlderWaits(h: Host, s: State, k: nat, c: int)
    requires Inv(h, s) && SavedSound(h, s) && Enabled(h, s, Advance(k, c))
    ensures c in h.written
    ensures SavedSound(h, After(h, s, Advance(k, c))) <==>
      Outdated(s, k, c) || !WaitsUpTo(h.written[c], Waiting(s), Horizon(h, s.now), s.flights[k].marks[c])
  {
    var t := After(h, s, Advance(k, c));
    DurableIffNothingWaits(h, s, k, c);
    if !Risky(h, s, Advance(k, c)) {
      AdvanceKeepsSound(h, s, k, c);
    } else {
      assert t.saved[c] == s.flights[k].marks[c] && t.durable == s.durable;
    }
  }

  /** A step of any interleaving keeps every promise exactly when it does not save a mark
      over a line up to it that is still waiting. */
  lemma StepKeepsSoundIff(h: Host, s: State, step: Step)
    requires ValidHost(h) && Inv(h, s) && SavedSound(h, s)
    ensures Inv(h, After(h, s, step)) && SavedSound(h, After(h, s, step)) <==> !Risky(h, s, step)
  {
    if !Risky(h, s, step) {
      StepKeepsSound(h, s, step);
    } else {
      AdvanceIsSafeIffNothingOlderWaits(h, s, step.flight, step.cid);
    }
  }

  // ---------------------------------------------------------------- whole runs

  ghost predicate NeverRisky(h: Host, now: int, steps: seq<Step>) {
    steps == [] ||
    (var earlier := steps[..|steps| - 1];
     NeverRisky(h, now, earlier) && !Risky(h, Run(h, now, earlier), steps[|steps| - 1]))
  }

  /** At least once, whatever overlaps: a run that never saves a mark over a waiting line loses nothing. */
  lemma {:induction false} SafeRunIsSound(h: Host, now: int, steps: seq<Step>)
    requires ValidHost(h) && NeverRisky(h, now, steps)
    ensures Inv(h, Run(h, now, steps)) && SavedSound(h, Run(h, now, steps))
  {
    if steps == [] {
      StartIsSound(h, now);
    } else {
      var earlier := steps[..|steps| - 1];
      SafeRunIsSound(h, now, earlier);
      StepKeepsSound(h, Run(h, now, earlier), steps[|steps| - 1]);
    }
  }

  lemma SerialStepIsNotRisky(h: Host, s: State, step: Step)
    requires Inv(h, s) && SerialInv(h, s)
    ensures !Risky(h, s, step)
  {
    if step.Advance? && Enabled(h, s, step) {
      var f := s.flights[step.flight];
      assert f in s.flights && Elems(s.durable) + Elems(f.lines) == Elems(s.durable);
      DurableIffNothingWaits(h, s, step.flight, step.cid);
    }
  }

  /** Flushing one batch at a time is one way never to take the risk. */
  lemma {:induction false} SerialIsNeverRisky(h: Host, now: int, steps: seq<Step>)
    requires ValidHost(h) && Serial(h, now, steps)
    ensures NeverRisky(h, now, steps)
  {
    if steps != [] {
      var earlier := steps[..|steps| - 1];
      SerialIsNeverRisky(h, now, earlier);
      AtLeastOnce(h, now, earlier);
      SerialStepIsNotRisky(h, Run(h, now, earlier), steps[|steps| - 1]);
    }
  }
}
