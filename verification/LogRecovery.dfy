/** What the ingestion invariants mean for a reader of the checkpoint table. */
module LogRecovery {
  import opened ShardedStore
  import opened LogIngest
  import opened LogOverlap

  // ---------------------------------------------------------------- resuming

  /** A line older than the saved mark, or the marked line itself, is durable unless retention let it go. */
  lemma CheckpointAnswers(h: Host, now: int, steps: seq<Step>, c: int, i: nat)
    requires ValidHost(h) && NeverRisky(h, now, steps)
    requires var s := Run(h, now, steps);
      && c in s.saved && c in h.written && i < |h.written[c]| && Horizon(h, s.now) <= h.written[c][i].ts
      && (h.written[c][i].ts < s.saved[c].ts || MarkOf(h.written[c][i]) == s.saved[c])
    ensures h.written[c][i] in Run(h, now, steps).durable
  {
    var s := Run(h, now, steps);
    SafeRunIsSound(h, now, steps);
    assert MarkCovered(h.written[c], s.saved[c], Horizon(h, s.now), Elems(s.durable));
    DroppedIsHeld(h.written[c], i, map[h.written[c][i].body.cid := s.saved[c]], Horizon(h, s.now), Elems(s.durable));
  }

  /** No wanted line falls between the durable rows and the point a restarted stream reads from. */
  lemma ReplayLeavesNoGap(h: Host, now: int, steps: seq<Step>, c: int, i: nat)
    requires ValidHost(h) && NeverRisky(h, now, steps) && c in h.written && i < |h.written[c]|
    requires var s := Run(h, now, steps); Horizon(h, s.now) <= h.written[c][i].ts && i < ReplayStart(h, s, c)
    ensures h.written[c][i] in Run(h, now, steps).durable
  {
    SafeRunIsSound(h, now, steps);
    ReplaySkipsOnlyCovered(h, Run(h, now, steps), c, Elems(Run(h, now, steps).durable));
  }

  /** The second a stream would resume from never goes back, so a checkpoint read early is only cautious. */
  lemma ResumePointNeverGoesBack(h: Host, s: State, step: Step, c: int)
    ensures var t := After(h, s, step);
      Retention.LogSinceSecs(SavedTs(s.saved, c), s.now, h.weeks)
      <= Retention.LogSinceSecs(SavedTs(t.saved, c), t.now, h.weeks)
  {
    if Enabled(h, s, step) {
      match step {
        case Tick(to) => Retention.CutoffRises(s.now, to, h.weeks);
        case Cleanup(at, ok) => Retention.CutoffRises(at, s.now, h.weeks);
        case _ =>
      }
    }
  }

  // ---------------------------------------------------------------- recovery

  function DeliverRest(h: Host, s: State, c: int): State
    requires c in h.written && c in s.position
    decreases |h.written[c]| - s.position[c]
  {
    if s.position[c] < |h.written[c]| then DeliverRest(h, After(h, s, Deliver(c)), c) else s
  }

  /** Take what is buffered and append it whole. */
  function Flushed(h: Host, s: State): State {
    var t := After(h, s, Take);
    if t.flights == [] then t else After(h, t, Append(0, WeeksTouched(t.flights[0].lines)))
  }

  /** A crash, then the container's log read again to its end and flushed. */
  function Recovered(h: Host, s: State, c: int, known: bool): State
    requires c in h.written
  {
    var up := After(h, s, Crash(known));
    Flushed(h, DeliverRest(h, After(h, up, Reconnect(c, ReplayStart(h, up, c))), c))
  }

  lemma {:induction false} DeliverRestKeeps(h: Host, s: State, c: int)
    requires ValidHost(h) && Inv(h, s) && SerialInv(h, s) && c in h.written && c in s.position
    ensures var t := DeliverRest(h, s, c);
      && Inv(h, t) && SerialInv(h, t) && t.flights == s.flights && t.now == s.now
      && c in t.position && t.position[c] == |h.written[c]|
    decreases |h.written[c]| - s.position[c]
  {
    if s.position[c] < |h.written[c]| {
      SerialStep(h, s, Deliver(c));
      DeliverRestKeeps(h, After(h, s, Deliver(c)), c);
    }
  }

  lemma NothingInFlight(s: State, marks: map<int, Mark>)
    requires s.lines == [] && (s.flights == [] || s.flights == [Flight([], marks, true)])
    ensures Held(s) == Elems(s.durable)
  {
    assert InFlight(s.flights) == {};
  }

  lemma FlushedIsDurable(h: Host, s: State)
    requires ValidHost(h) && Inv(h, s) && SerialInv(h, s) && s.flights == []
    ensures var t := Flushed(h, s);
      Inv(h, t) && Held(t) == Elems(t.durable) && t.position == s.position && t.now == s.now
  {
    if s.lines == [] {
      NothingInFlight(s, map[]);
    } else {
      var u := Taken(s);
      SerialStep(h, s, Take);
      StepKeepsInv(h, u, Append(0, WeeksTouched(u.flights[0].lines)));
      NothingInFlight(AppendEnded(u, 0, WeeksTouched(u.flights[0].lines)), u.flights[0].marks);
    }
  }

  lemma RecoveredIsDurable(h: Host, up: State, c: int)
    requires ValidHost(h) && Inv(h, up) && SerialInv(h, up) && up.flights == [] && c in h.written
    ensures var t := Flushed(h, DeliverRest(h, After(h, up, Reconnect(c, ReplayStart(h, up, c))), c));
      Covered(h.written[c], |h.written[c]|, Horizon(h, up.now), Elems(t.durable))
  {
    var reconnect := Reconnect(c, ReplayStart(h, up, c));
    SerialStep(h, up, reconnect);
    DeliverRestKeeps(h, After(h, up, reconnect), c);
    FlushedIsDurable(h, DeliverRest(h, After(h, up, reconnect), c));
  }

  /** Wherever a run stops, a crash followed by one replay and one flush leaves every wanted line durable. */
  lemma CrashReplayFlushRecovers(h: Host, now: int, steps: seq<Step>, c: int, known: bool, i: nat)
    requires ValidHost(h) && NeverRisky(h, now, steps) && c in h.written && i < |h.written[c]|
    requires Horizon(h, Run(h, now, steps).now) <= h.written[c][i].ts
    ensures h.written[c][i] in Recovered(h, Run(h, now, steps), c, known).durable
  {
    var s := Run(h, now, steps);
    SafeRunIsSound(h, now, steps);
    CrashKeepsSound(h, s, known);
    RecoveredIsDurable(h, After(h, s, Crash(known)), c);
  }
}
