/** A run with overlapping flushes that loses a line for good. */
module LogLoss {
  import opened Prelude
  import opened Weeks
  import opened LogStore
  import opened ShardedStore
  import opened LogIngest
  import opened LogOverlap
  import opened LogRecovery

  lemma OneMore(h: Host, now: int, steps: seq<Step>, step: Step, s: State, t: State)
    requires Run(h, now, steps) == s && After(h, s, step) == t
    ensures Run(h, now, steps + [step]) == t
    ensures Serial(h, now, steps + [step]) <==> Serial(h, now, steps) && (step.Take? ==> s.flights == [])
  {
    assert (steps + [step])[..|steps|] == steps;
  }

  lemma OneLine(l: LogLine)
    requires Supported(l.ts)
    ensures WeeksTouched([l]) == {MondayFloor(l.ts)} && Landed([l], {MondayFloor(l.ts)}) == [l]
  {
    assert [l][..0] == [];
  }

  lemma DeliverAndTake(h: Host, now: int, steps: seq<Step>, s: State, l: LogLine)
    requires Run(h, now, steps) == s && s.lines == [] && (l.body.cid in s.mem ==> s.mem[l.body.cid].ts < l.ts)
    requires Enabled(h, s, Deliver(l.body.cid)) && h.written[l.body.cid][s.position[l.body.cid]] == l
    ensures var c := l.body.cid;
      var t := s.(position := s.position[c := s.position[c] + 1], mem := s.mem[c := MarkOf(l)],
                  flights := s.flights + [Flight([l], map[c := MarkOf(l)], false)]);
      Run(h, now, steps + [Deliver(c), Take]) == t
    ensures Serial(h, now, steps + [Deliver(l.body.cid), Take]) ==> s.flights == []
  {
    var c := l.body.cid;
    var u := s.(position := s.position[c := s.position[c] + 1], mem := s.mem[c := MarkOf(l)], lines := [l]);
    assert CidsOf([l]) == {c} by { assert l in [l]; }
    assert MarksFor(u.mem, [l]) == map[c := MarkOf(l)];
    OneMore(h, now, steps, Deliver(c), s, u);
    OneMore(h, now, steps + [Deliver(c)], Take, u, Taken(u));
    assert steps + [Deliver(c), Take] == steps + [Deliver(c)] + [Take];
  }

  /** Two lines of one container, taken into two overlapping batches. */
  lemma TwoFlights(h: Host, now: int, c: int, a: LogLine, b: LogLine) returns (steps: seq<Step>, s: State)
    requires h.written == map[c := [a, b]] && a.body.cid == b.body.cid == c && a.ts < b.ts
    ensures Run(h, now, steps) == s && !Serial(h, now, steps)
    ensures s == State([], map[c := MarkOf(b)],
                       [Flight([a], map[c := MarkOf(a)], false), Flight([b], map[c := MarkOf(b)], false)],
                       [], map[], map[c := 2], now)
  {
    var begin := Start(now).(position := map[c := 0]);
    OneMore(h, now, [], Reconnect(c, 0), Start(now), begin);
    DeliverAndTake(h, now, [] + [Reconnect(c, 0)], begin, a);
    steps := [] + [Reconnect(c, 0)] + [Deliver(c), Take];
    s := Run(h, now, steps);
    DeliverAndTake(h, now, steps, s, b);
    steps := steps + [Deliver(c), Take];
    s := Run(h, now, steps);
  }

  /** The second batch lands and saves its mark, then the process dies with the first still in flight. */
  lemma OvertakenRun(h: Host, now: int, c: int, a: LogLine, b: LogLine, known: bool) returns (steps: seq<Step>)
    requires h.written == map[c := [a, b]] && a.body.cid == b.body.cid == c && a.ts < b.ts && Supported(b.ts)
    ensures !Serial(h, now, steps)
    ensures var saved := map[c := MarkOf(b)];
      Run(h, now, steps) == State([], if known then saved else map[], [], [b], saved, map[], now)
  {
    var week := MondayFloor(b.ts);
    OneLine(b);
    var s;
    steps, s := TwoFlights(h, now, c, a, b);
    var t := AppendEnded(s, 1, {week});
    OneMore(h, now, steps, Append(1, {week}), s, t);
    steps := steps + [Append(1, {week})];
    var u := t.(saved := map[c := MarkOf(b)]);
    OneMore(h, now, steps, Advance(1, c), t, u);
    steps := steps + [Advance(1, c)];
    OneMore(h, now, steps, Crash(known), u, Restarted(u, known));
    steps := steps + [Crash(known)];
    assert t.durable == [b];
  }

  lemma SecondLineIsFirst(a: LogLine, b: LogLine, ts: int)
    requires a.ts < ts <= b.ts
    ensures FirstAtOrAfter([a, b], ts) == 1
  {
    assert [a, b][1..] == [b] && [a, b][0] == a && [b][0] == b;
  }

  lemma ResumesAtTheSecondLine(h: Host, s: State, c: int, a: LogLine, b: LogLine)
    requires c in h.written && h.written[c] == [a, b] && s.saved == map[c := MarkOf(b)]
    requires Horizon(h, s.now) <= a.ts && a.ts / 1000 < b.ts / 1000 <= Retention.I32_MAX
    ensures ReplayStart(h, s, c) == 1
  {
    SecondLineIsFirst(a, b, b.ts / 1000 * 1000);
    assert SavedTs(s.saved, c) == Some(b.ts);
    assert Retention.LogSinceSecs(Some(b.ts), s.now, h.weeks) == b.ts / 1000;
  }

  /** What replay will never take up again: a line older than the mark in memory, or one not read again. */
  ghost predicate OutOfReach(h: Host, s: State, c: int, l: LogLine)
    requires c in h.written && c in s.position && s.position[c] <= |h.written[c]|
  {
    l !in s.lines && l !in s.durable && s.flights == [] &&
    ((c in s.mem && l.ts < s.mem[c].ts) || forall i :: s.position[c] <= i < |h.written[c]| ==> h.written[c][i] != l)
  }

  lemma DeliverKeepsOutOfReach(h: Host, s: State, c: int, l: LogLine)
    requires ValidHost(h) && c in h.written && c in s.position && s.position[c] < |h.written[c]|
    requires OutOfReach(h, s, c, l)
    ensures OutOfReach(h, After(h, s, Deliver(c)), c, l)
  {
    assert h.written[c][s.position[c]] in h.written[c];
  }

  lemma {:induction false} RestKeepsOutOfReach(h: Host, s: State, c: int, l: LogLine)
    requires ValidHost(h) && c in h.written && c in s.position && s.position[c] <= |h.written[c]|
    requires OutOfReach(h, s, c, l)
    ensures l !in Flushed(h, DeliverRest(h, s, c)).durable
    decreases |h.written[c]| - s.position[c]
  {
    if s.position[c] < |h.written[c]| {
      DeliverKeepsOutOfReach(h, s, c, l);
      RestKeepsOutOfReach(h, After(h, s, Deliver(c)), c, l);
    }
  }

  /** An inline flush overtaking the worker's: its checkpoint answers for a line that a crash then takes with it, and
      no replay brings back. Any two lines of a container within retention will do; if the restarted process no longer
      knows the service's marks, they have to be a second apart. */
  lemma OverlapLoses(now: int, weeks: nat, a: LogLine, b: LogLine, known: bool) returns (h: Host, steps: seq<Step>)
    requires a.body.cid == b.body.cid && Supported(a.ts) && Supported(b.ts)
    requires Horizon(Host(map[], weeks), now) <= a.ts < b.ts <= now
    requires known || a.ts / 1000 < b.ts / 1000 <= Retention.I32_MAX
    ensures h == Host(map[a.body.cid := [a, b]], weeks) && ValidHost(h) && !NeverRisky(h, now, steps)
    ensures var s := Run(h, now, steps);
      && s.now == now && Horizon(h, now) <= a.ts && a !in s.durable
      && a !in Recovered(h, s, a.body.cid, known).durable
  {
    var c := a.body.cid;
    h := Host(map[c := [a, b]], weeks);
    steps := OvertakenRun(h, now, c, a, b, known);
    var s := Run(h, now, steps);
    var up := After(h, s, Crash(known));
    var start := ReplayStart(h, up, c);
    if !known { ResumesAtTheSecondLine(h, up, c, a, b); }
    RestKeepsOutOfReach(h, After(h, up, Reconnect(c, start)), c, a);
    if NeverRisky(h, now, steps) {
      CrashReplayFlushRecovers(h, now, steps, c, known, 0);
    }
  }
}
