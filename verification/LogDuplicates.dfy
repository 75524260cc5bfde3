/** Which lines can be accepted twice while the process stays up. */
module LogDuplicates {
  import opened LogStore
  import opened LogIngest
  import opened LogLedger

  ghost predicate CrashFree(steps: seq<Step>) { forall step :: step in steps ==> !step.Crash? }

  /** No other line of the container shares this line's instant. */
  ghost predicate Untied(h: Host, l: LogLine) {
    l.body.cid in h.written ==> forall k :: k in h.written[l.body.cid] && k.ts == l.ts ==> k == l
  }

  // ---------------------------------------------------------------- an untied line is accepted once

  ghost predicate AcceptedOnce(s: State, g: Ledger, l: LogLine) {
    && (l in g.accepted ==> l.body.cid in s.mem && l.ts <= s.mem[l.body.cid].ts)
    && Count(g.accepted, l) <= 1
  }

  /** An untied line that is accepted is newer than everything accepted before it. */
  lemma UntiedIsNewer(h: Host, i: nat, c: int, mem: map<int, Mark>, horizon: int, held: set<LogLine>)
    requires ValidHost(h) && c in h.written && i < |h.written[c]| && Untied(h, h.written[c][i])
    requires c in mem && !Repeats(mem, h.written[c][i]) && MarkCovered(h.written[c], mem[c], horizon, held)
    ensures mem[c].ts < h.written[c][i].ts
  {
    var lines := h.written[c];
    assert lines[i] in lines;
    var p :| 0 <= p < |lines| && MarkOf(lines[p]) == mem[c];
    assert lines[p] in lines;
  }

  lemma StepAcceptsOnce(h: Host, s: State, step: Step, g: Ledger, l: LogLine)
    requires ValidHost(h) && Untied(h, l) && Inv(h, s) && AcceptedOnce(s, g, l) && !step.Crash?
    ensures AcceptedOnce(After(h, s, step), Recorded(h, s, step, g), l)
  {
    if step.Deliver? && Enabled(h, s, step) {
      var c, i := step.cid, s.position[step.cid];
      var x := h.written[c][i];
      assert x in h.written[c];
      if !Repeats(s.mem, x) {
        if x == l && c in s.mem { UntiedIsNewer(h, i, c, s.mem, Horizon(h, s.now), Held(s)); }
        CountConcat(g.accepted, [x], l);
      }
    }
  }

  lemma {:induction false} UntiedIsAcceptedOnce(h: Host, now: int, steps: seq<Step>, l: LogLine)
    requires ValidHost(h) && Untied(h, l) && CrashFree(steps)
    ensures AcceptedOnce(Run(h, now, steps), History(h, now, steps), l)
  {
    if steps != [] {
      var earlier := steps[..|steps| - 1];
      UntiedIsAcceptedOnce(h, now, earlier, l);
      NothingLostWhileUp(h, now, earlier);
      StepAcceptsOnce(h, Run(h, now, earlier), steps[|steps| - 1], History(h, now, earlier), l);
    }
  }

  /** Short of a crash, reconnects notwithstanding, a line alone on its instant is accepted at most once;
      with whole appends it is stored at most once too. */
  lemma ExactlyOnceWhileUp(h: Host, now: int, steps: seq<Step>, l: LogLine)
    requires ValidHost(h) && Untied(h, l) && CrashFree(steps)
    ensures Count(History(h, now, steps).accepted, l) <= 1
    ensures Atomic(h, now, steps) ==> Total(Run(h, now, steps), l) <= 1
  {
    UntiedIsAcceptedOnce(h, now, steps, l);
    Conserved(h, now, steps, l);
    if Atomic(h, now, steps) {
      AtomicStoresNothingAgain(h, now, steps);
    }
  }

  // ---------------------------------------------------------------- a tied line can be accepted twice

  /** What one delivery does: an older line changes nothing, any other leaves its own mark. */
  lemma DeliverOne(h: Host, now: int, steps: seq<Step>, c: int) returns (more: seq<Step>)
    requires ValidHost(h) && CrashFree(steps) && Enabled(h, Run(h, now, steps), Deliver(c))
    ensures more == steps + [Deliver(c)] && CrashFree(more)
    ensures var s, t, x := Run(h, now, steps), Run(h, now, more), h.written[c][Run(h, now, steps).position[c]];
      var was, now' := History(h, now, steps).accepted, History(h, now, more).accepted;
      && t.position == s.position[c := s.position[c] + 1]
      && t.mem == (if c in s.mem && x.ts < s.mem[c].ts then s.mem else s.mem[c := MarkOf(x)])
      && now' == if c in s.mem && (x.ts < s.mem[c].ts || s.mem[c] == MarkOf(x)) then was else was + [x]
  {
    var s := Run(h, now, steps);
    var x := h.written[c][s.position[c]];
    assert x in h.written[c];
    more := steps + [Deliver(c)];
    assert more[..|steps|] == steps;
  }

  lemma ReconnectOne(h: Host, now: int, steps: seq<Step>, c: int) returns (more: seq<Step>)
    requires CrashFree(steps) && c in h.written
    ensures CrashFree(more)
    ensures var s, t := Run(h, now, steps), Run(h, now, more); t == s.(position := s.position[c := 0])
    ensures History(h, now, more).accepted == History(h, now, steps).accepted
  {
    more := steps + [Reconnect(c, 0)];
    assert more[..|steps|] == steps;
  }

  /** A first reading accepts every distinct line and ends on the mark of the last. */
  lemma {:induction false} FirstPass(h: Host, now: int, c: int, n: nat) returns (steps: seq<Step>)
    requires ValidHost(h) && c in h.written && n <= |h.written[c]|
    ensures CrashFree(steps)
    ensures var s, lines := Run(h, now, steps), h.written[c];
      && c in s.position && s.position[c] == n
      && s.mem == (if n == 0 then map[] else map[c := MarkOf(lines[n - 1])])
      && forall i :: 0 <= i < n ==> lines[i] in History(h, now, steps).accepted
  {
    if n == 0 {
      steps := ReconnectOne(h, now, [], c);
    } else {
      var lines := h.written[c];
      var before := FirstPass(h, now, c, n - 1);
      steps := DeliverOne(h, now, before, c);
      assert n > 1 ==> lines[n - 2].ts <= lines[n - 1].ts;
    }
  }

  /** Reading again below `ts`, the mark stays; at `ts`, it follows the lines. */
  lemma {:induction false} SecondPass(h: Host, now: int, before: seq<Step>, c: int, n: nat, l: LogLine)
    returns (steps: seq<Step>)
    requires ValidHost(h) && CrashFree(before) && c in h.written && n <= |h.written[c]|
    requires forall i :: 0 <= i < n ==> h.written[c][i].ts <= l.ts
    requires var s := Run(h, now, before); c in s.position && s.position[c] == 0 && c in s.mem && s.mem[c].ts == l.ts
    ensures CrashFree(steps)
    ensures Count(History(h, now, before).accepted, l) <= Count(History(h, now, steps).accepted, l)
    ensures var s, m, lines := Run(h, now, steps), Run(h, now, before).mem[c], h.written[c];
      && c in s.position && s.position[c] == n && c in s.mem && s.mem[c].ts == l.ts
      && s.mem[c] == if n == 0 || lines[n - 1].ts < l.ts then m else MarkOf(lines[n - 1])
  {
    if n == 0 {
      steps := before;
    } else {
      var lines := h.written[c];
      var middle := SecondPass(h, now, before, c, n - 1, l);
      steps := DeliverOne(h, now, middle, c);
      CountConcat(History(h, now, middle).accepted, [lines[n - 1]], l);
      assert n > 1 ==> lines[n - 2].ts <= lines[n - 1].ts;
    }
  }

  lemma FirstIndex(lines: seq<LogLine>, l: LogLine) returns (i: nat)
    requires l in lines
    ensures i < |lines| && lines[i] == l && forall j :: 0 <= j < i ==> lines[j] != l
  {
    i := 0;
    while lines[i] != l
      invariant i < |lines| && l in lines[i..] && forall j :: 0 <= j < i ==> lines[j] != l
      decreases |lines| - i
    {
      i := i + 1;
    }
  }

  /** Two different lines on one instant, read up to the later of them, read again: the first is accepted again. */
  lemma TiedIsAcceptedTwice(h: Host, now: int, l: LogLine, k: LogLine) returns (steps: seq<Step>)
    requires ValidHost(h) && l.body.cid in h.written && l in h.written[l.body.cid] && k in h.written[l.body.cid]
    requires k != l && k.ts == l.ts
    ensures CrashFree(steps) && Count(History(h, now, steps).accepted, l) >= 2
  {
    var c := l.body.cid;
    var lines := h.written[c];
    var i := FirstIndex(lines, l);
    var j := FirstIndex(lines, k);
    var last := if i < j then j else i;
    steps := FirstPass(h, now, c, last + 1);
    assert lines[i] in History(h, now, steps).accepted;
    var again := ReconnectOne(h, now, steps, c);
    var middle := SecondPass(h, now, again, c, i, l);
    assert j < i ==> lines[j].ts <= lines[i - 1].ts;
    steps := DeliverOne(h, now, middle, c);
    CountConcat(History(h, now, middle).accepted, [l], l);
  }

  /** A line can be accepted twice without a crash exactly when another line of its container shares its instant. */
  lemma AcceptedTwiceIffTied(h: Host, now: int, l: LogLine)
    requires ValidHost(h) && l.body.cid in h.written && l in h.written[l.body.cid]
    ensures (exists steps :: CrashFree(steps) && Count(History(h, now, steps).accepted, l) >= 2) <==> !Untied(h, l)
  {
    if Untied(h, l) {
      forall steps | CrashFree(steps) ensures Count(History(h, now, steps).accepted, l) <= 1 {
        ExactlyOnceWhileUp(h, now, steps, l);
      }
    } else {
      var k :| k in h.written[l.body.cid] && k.ts == l.ts && k != l;
      var steps := TiedIsAcceptedTwice(h, now, l, k);
    }
  }
}
