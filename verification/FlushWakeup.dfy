/** Who wakes whom: one service's pusher and its flush worker, interleaved step by step. */
module FlushWakeup {

  datatype Worker =
    | Gone
    | Waiting
    | Debouncing                // received a request, sleeping
    | Ready                     // drained the channel, about to take
    | Flushing(taken: nat)
    | Retrying                  // restored a failed batch, about to request another flush
    | TimedOut                  // keep-alive over, not yet looked at the buffer
    | Leaving                   // saw the buffer empty and still holds the service entry

  datatype Pusher =
    | Idle
    | Accepted(inline: bool)
    | Sending                   // holds a clone of the sender
    | Inline(taken: nat)        // flushing in place of the worker
    | Restored                  // its inline append failed, about to request a flush

  /** `sender` is the service's channel end, `token` the one request the channel can hold. */
  datatype State = State(buffered: nat, sender: bool, token: bool, worker: Worker, pusher: Pusher)

  datatype Step =
    | Accept | Schedule | Send | InlineTake | InlineLand(ok: bool) | InlineRequest
    | Receive | Drain | WorkerTake | WorkerLand(ok: bool) | WorkerRequest | TimeOut | Look | Leave

  predicate IsWorkerStep(step: Step) {
    || step.Receive? || step.Drain? || step.WorkerTake? || step.WorkerLand? || step.WorkerRequest?
    || step.TimeOut? || step.Look? || step.Leave?
  }

  predicate Enabled(s: State, step: Step) {
    match step
    case Accept => s.pusher == Idle
    // The worker holds the service entry while it leaves.
    case Schedule => s.pusher == Accepted(false) && s.worker != Leaving
    case Send => s.pusher == Sending
    case InlineTake => s.pusher == Accepted(true)
    case InlineLand(_) => s.pusher.Inline?
    case InlineRequest => s.pusher == Restored && s.worker != Leaving
    case Receive => s.worker == Waiting && s.token
    case Drain => s.worker == Debouncing
    case WorkerTake => s.worker == Ready
    case WorkerLand(_) => s.worker.Flushing?
    case WorkerRequest => s.worker == Retrying
    case TimeOut => s.worker == Waiting
    // Nobody else holds the service entry across a step.
    case Look => s.worker == TimedOut
    case Leave => s.worker == Leaving
  }

  /** A worker that still serves its channel. */
  predicate Alive(w: Worker) { w != Gone && w != Leaving }

  /** `try_send`: a full channel or a dropped receiver changes nothing. */
  function Sent(s: State): State { s.(token := s.token || Alive(s.worker)) }

  /** One step, for a backlog limit `max`; a step that is not enabled changes nothing. */
  function After(max: nat, s: State, step: Step): State {
    if !Enabled(s, step) then s
    else
      match step
      case Accept => s.(buffered := s.buffered + 1, pusher := Accepted(s.buffered + 1 >= max))
      case Schedule =>
        if s.sender then s.(pusher := Sending)
        else s.(sender := true, token := false, worker := Waiting, pusher := Sending)
      case Send => Sent(s).(pusher := Idle)
      case InlineTake => if s.buffered == 0 then s.(pusher := Idle) else s.(buffered := 0, pusher := Inline(s.buffered))
      case InlineLand(ok) =>
        if ok then s.(pusher := Idle) else s.(buffered := s.buffered + s.pusher.taken, pusher := Restored)
      case InlineRequest => s.(pusher := if s.sender then Sending else Idle)
      case Receive => s.(token := false, worker := Debouncing)
      case Drain => s.(token := false, worker := Ready)
      case WorkerTake =>
        if s.buffered == 0 then s.(worker := Waiting) else s.(buffered := 0, worker := Flushing(s.buffered))
      case WorkerLand(ok) =>
        if ok then s.(worker := Waiting) else s.(buffered := s.buffered + s.worker.taken, worker := Retrying)
      case WorkerRequest => Sent(s).(worker := Waiting)
      case TimeOut => s.(worker := TimedOut)
      case Look => s.(worker := if s.buffered == 0 then Leaving else Waiting)
      case Leave => s.(sender := false, token := false, worker := Gone)
  }

  const START: State := State(0, false, false, Gone, Idle)

  function Run(max: nat, steps: seq<Step>): State {
    if steps == [] then START else After(max, Run(max, steps[..|steps| - 1]), steps[|steps| - 1])
  }

  // ---------------------------------------------------------------- the invariant

  /** A flush is on its way without anybody having to ask again. */
  predicate FlushPending(s: State) {
    (s.token && Alive(s.worker)) || s.worker == Debouncing || s.worker == Ready || s.worker == Retrying
  }

  predicate Inv(s: State) {
    && (s.sender <==> s.worker != Gone)
    && (s.pusher == Sending && s.buffered > 0 ==> Alive(s.worker))
    && (s.buffered > 0 ==> FlushPending(s) || s.pusher.Accepted? || s.pusher == Sending || s.pusher == Restored)
  }

  /** The one branch that drops a request: a failed inline flush finds no channel. */
  predicate DropsRequest(s: State, step: Step) { step == InlineRequest && Enabled(s, step) && !s.sender }

  /** A step keeps the invariant exactly when it is not a dropped request for lines still buffered. */
  lemma StepKeepsInvIff(max: nat, s: State, step: Step)
    requires Inv(s)
    ensures Inv(After(max, s, step)) <==> !(DropsRequest(s, step) && s.buffered > 0)
  {
  }

  /** No step of the run drops a request while lines are buffered. */
  predicate AlwaysHeard(max: nat, steps: seq<Step>) {
    steps == [] ||
    (var earlier, s := steps[..|steps| - 1], Run(max, steps[..|steps| - 1]);
     AlwaysHeard(max, earlier) && !(DropsRequest(s, steps[|steps| - 1]) && s.buffered > 0))
  }

  /** No lost wake-up: whenever no push is in progress, buffered lines have a flush on its way. */
  lemma {:induction false} NoLostWakeup(max: nat, steps: seq<Step>)
    requires AlwaysHeard(max, steps)
    ensures Inv(Run(max, steps))
    ensures var s := Run(max, steps); s.pusher == Idle && s.buffered > 0 ==> FlushPending(s)
  {
    if steps != [] {
      NoLostWakeup(max, steps[..|steps| - 1]);
      StepKeepsInvIff(max, Run(max, steps[..|steps| - 1]), steps[|steps| - 1]);
    }
  }

  /** Without failed inline appends every run is heard. */
  lemma {:induction false} InlineSuccessIsAlwaysHeard(max: nat, steps: seq<Step>)
    requires InlineLand(false) !in steps
    ensures AlwaysHeard(max, steps) && Run(max, steps).pusher != Restored
  {
    if steps != [] { InlineSuccessIsAlwaysHeard(max, steps[..|steps| - 1]); }
  }

  // ---------------------------------------------------------------- no line is lost

  /** How many lines the run's pushes have buffered. */
  function LinesAccepted(max: nat, steps: seq<Step>): nat {
    if steps == [] then 0
    else
      var earlier, step := steps[..|steps| - 1], steps[|steps| - 1];
      LinesAccepted(max, earlier) + if step == Accept && Enabled(Run(max, earlier), step) then 1 else 0
  }

  /** How many its successful appends have stored. */
  function LinesStored(max: nat, steps: seq<Step>): nat {
    if steps == [] then 0
    else
      var earlier, step := steps[..|steps| - 1], steps[|steps| - 1];
      LinesStored(max, earlier) + StepStores(Run(max, earlier), step)
  }

  /** Lines a flush has in hand. */
  function InHand(s: State): nat {
    (if s.pusher.Inline? then s.pusher.taken else 0) + if s.worker.Flushing? then s.worker.taken else 0
  }

  /** What one step stores. */
  function StepStores(s: State, step: Step): nat {
    if !Enabled(s, step) then 0
    else if step == InlineLand(true) then s.pusher.taken
    else if step == WorkerLand(true) then s.worker.taken
    else 0
  }

  lemma StepAccounts(max: nat, s: State, step: Step)
    requires s.sender <==> s.worker != Gone
    ensures var t := After(max, s, step);
      && (t.sender <==> t.worker != Gone)
      && t.buffered + InHand(t) + StepStores(s, step) ==
         s.buffered + InHand(s) + if step == Accept && Enabled(s, step) then 1 else 0
  {
  }

  /** Whoever takes, lands or fails: every accepted line is stored, in hand or back in the buffer. */
  lemma {:induction false} EveryLineAccounted(max: nat, steps: seq<Step>)
    ensures Run(max, steps).sender <==> Run(max, steps).worker != Gone
    ensures LinesAccepted(max, steps) == LinesStored(max, steps) + Run(max, steps).buffered + InHand(Run(max, steps))
  {
    if steps != [] {
      var earlier := steps[..|steps| - 1];
      EveryLineAccounted(max, earlier);
      StepAccounts(max, Run(max, earlier), steps[|steps| - 1]);
    }
  }

  /** A take empties the buffer, and a failed append puts its batch back. */
  lemma FailedAppendRestores(max: nat, s: State)
    ensures s.worker.Flushing? ==>
      var t := After(max, s, WorkerLand(false)); t.buffered == s.buffered + s.worker.taken && t.worker == Retrying
    ensures s.pusher.Inline? ==>
      var t := After(max, s, InlineLand(false)); t.buffered == s.buffered + s.pusher.taken && t.pusher == Restored
  {
  }

  // ---------------------------------------------------------------- the lost wake-up

  lemma Then(max: nat, steps: seq<Step>, s: State, step: Step) returns (more: seq<Step>, t: State)
    requires Run(max, steps) == s
    ensures more == steps + [step] && t == After(max, s, step) && Run(max, more) == t
  {
    more, t := steps + [step], After(max, s, step);
    assert more[..|steps|] == steps;
  }

  /** Pushes below the limit: the worker waits with one request for all of them. */
  lemma {:induction false} Backlog(max: nat, n: nat) returns (steps: seq<Step>, s: State)
    requires n == 0 || n < max
    ensures Run(max, steps) == s && s == if n == 0 then START else State(n, true, true, Waiting, Idle)
  {
    steps, s := [], START;
    if n > 0 {
      steps, s := Backlog(max, n - 1);
      steps, s := Then(max, steps, s, Accept);
      steps, s := Then(max, steps, s, Schedule);
      steps, s := Then(max, steps, s, Send);
    }
  }

  /** While the pusher flushes inline, the worker finds nothing to do and leaves. */
  lemma WorkerLeaves(max: nat, before: seq<Step>, s: State) returns (steps: seq<Step>, t: State)
    requires Run(max, before) == s && s.buffered == 0 && s.pusher.Inline?
    requires s.worker == (if s.sender then Waiting else Gone) && s.token == s.sender
    ensures Run(max, steps) == t == State(0, false, false, Gone, s.pusher)
  {
    steps, t := Then(max, before, s, Receive);
    steps, t := Then(max, steps, t, Drain);
    steps, t := Then(max, steps, t, WorkerTake);
    steps, t := Then(max, steps, t, TimeOut);
    steps, t := Then(max, steps, t, Look);
    steps, t := Then(max, steps, t, Leave);
  }

  /** The push that reaches the limit finds the whole backlog and takes it inline. */
  lemma InlineTakesBacklog(max: nat) returns (steps: seq<Step>, s: State)
    ensures Run(max, steps) == s && s.buffered == 0 && s.pusher.Inline? && s.pusher.taken > 0 && s.pusher.taken >= max
    ensures s.worker == (if s.sender then Waiting else Gone) && s.token == s.sender
  {
    steps, s := Backlog(max, if max == 0 then 0 else max - 1);
    steps, s := Then(max, steps, s, Accept);
    steps, s := Then(max, steps, s, InlineTake);
  }

  lemma GoneWorkerIdles(max: nat, s: State, step: Step)
    requires s.worker == Gone && IsWorkerStep(step)
    ensures After(max, s, step) == s
  {
  }

  /** For every limit: the push that reaches it flushes inline, the worker leaves meanwhile,
      the append fails, and no step of any worker will ever flush the restored lines. */
  lemma FailedInlineFlushIsForgotten(max: nat) returns (steps: seq<Step>)
    ensures var s := Run(max, steps); s.pusher == Idle && s.buffered > 0 && s.buffered >= max && !FlushPending(s)
    ensures forall step :: IsWorkerStep(step) ==> After(max, Run(max, steps), step) == Run(max, steps)
  {
    var s;
    steps, s := InlineTakesBacklog(max);
    steps, s := WorkerLeaves(max, steps, s);
    steps, s := Then(max, steps, s, InlineLand(false));
    steps, s := Then(max, steps, s, InlineRequest);
    forall step | IsWorkerStep(step) ensures After(max, s, step) == s { GoneWorkerIdles(max, s, step); }
  }

  // ---------------------------------------------------------------- the promise is kept

  /** What the worker does next, up to and including its next take. */
  function UntilTaken(s: State): seq<Step> {
    match s.worker
    case Ready => [WorkerTake]
    case Debouncing => [Drain, WorkerTake]
    case Waiting => [Receive, Drain, WorkerTake]
    case Retrying => [WorkerRequest, Receive, Drain, WorkerTake]
    case TimedOut => [Look, Receive, Drain, WorkerTake]
    case Flushing(_) => [WorkerLand(true), Receive, Drain, WorkerTake]
    case _ => []
  }

  predicate AllEnabled(max: nat, s: State, steps: seq<Step>)
    decreases |steps|
  {
    steps == [] || (Enabled(s, steps[0]) && AllEnabled(max, After(max, s, steps[0]), steps[1..]))
  }

  function RunFrom(max: nat, s: State, steps: seq<Step>): State
    decreases |steps|
  {
    if steps == [] then s else RunFrom(max, After(max, s, steps[0]), steps[1..])
  }

  lemma Cons(max: nat, s: State, step: Step, rest: seq<Step>)
    ensures RunFrom(max, s, [step] + rest) == RunFrom(max, After(max, s, step), rest)
    ensures AllEnabled(max, s, [step] + rest) <==> Enabled(s, step) && AllEnabled(max, After(max, s, step), rest)
  {
    assert ([step] + rest)[1..] == rest;
  }

  /** The worker alone gets from a pending flush to having taken every buffered line, all its steps enabled. */
  lemma {:induction false} PendingFlushIsTaken(max: nat, s: State)
    requires FlushPending(s) && s.buffered > 0
    ensures AllEnabled(max, s, UntilTaken(s))
    ensures var token := s.worker == Ready && s.token;
      RunFrom(max, s, UntilTaken(s)) == s.(buffered := 0, token := token, worker := Flushing(s.buffered))
    decreases |UntilTaken(s)|
  {
    var step, rest := UntilTaken(s)[0], UntilTaken(s)[1..];
    assert UntilTaken(s) == [step] + rest;
    Cons(max, s, step, rest);
    var t := After(max, s, step);
    if s.worker != Ready {
      assert UntilTaken(t) == rest;
      PendingFlushIsTaken(max, t);
    }
  }
}
