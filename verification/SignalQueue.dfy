/**
 The bounded queue in front of the awareness backend (butler/services/awareness_signals.py,
 `_emit` and `_drain`): emitting threads and one worker, interleaved at every queue operation
 and every counter update.
 */
module SignalQueue {

  type Signal = string

  /** `MAX_QUEUE_DEPTH` */
  const CAPACITY: nat := 256

  /** Where an emitting thread is in `_emit`. */
  datatype Phase =
    | Idle
    | Offering(signal: Signal)  // before put_nowait
    | Placed                    // in the queue, before the "queued" counter
    | Refused(signal: Signal)   // queue.Full, before get_nowait
    | Evicted(signal: Signal)   // the oldest is out, before the "dropped" counter
    | Retrying(signal: Signal)  // before the second put_nowait
    | GivenUp                   // queue.Empty, before the "dropped" counter

  /** Where the worker is in `_drain`. */
  datatype Worker = Waiting | Posting(signal: Signal) | Posted(ok: bool)

  datatype State = State(
    queue: seq<Signal>,
    emitters: seq<Phase>,
    worker: Worker,
    queued: nat, sent: nat, failed: nat, dropped: nat,  // the counters
    offered: seq<Signal>,   // every signal that `_emit` was called with
    accepted: seq<Signal>,  // every signal that was ever put into the queue
    taken: seq<Signal>,     // every signal the worker took out
    lost: nat)              // second puts that failed: the outer `except` only prints

  datatype Step =
    | Offer(k: nat, signal: Signal)
    | Put(k: nat)
    | CountQueued(k: nat)
    | Evict(k: nat)
    | CountDropped(k: nat)
    | PutAgain(k: nat)
    | Take
    | Post(ok: bool)
    | CountOutcome

  function Start(emitters: nat): State {
    State([], AllIdleSeq(emitters), Waiting, 0, 0, 0, 0, [], [], [], 0)
  }

  function AllIdleSeq(n: nat): (phases: seq<Phase>)
    ensures |phases| == n && forall i :: 0 <= i < n ==> phases[i] == Idle
  {
    if n == 0 then [] else AllIdleSeq(n - 1) + [Idle]
  }

  predicate Enabled(s: State, step: Step) {
    match step
    case Offer(k, _) => k < |s.emitters| && s.emitters[k].Idle?
    case Put(k) => k < |s.emitters| && s.emitters[k].Offering?
    case CountQueued(k) => k < |s.emitters| && s.emitters[k].Placed?
    case Evict(k) => k < |s.emitters| && s.emitters[k].Refused?
    case CountDropped(k) => k < |s.emitters| && (s.emitters[k].Evicted? || s.emitters[k].GivenUp?)
    case PutAgain(k) => k < |s.emitters| && s.emitters[k].Retrying?
    case Take => s.worker.Waiting? && s.queue != []
    case Post(_) => s.worker.Posting?
    case CountOutcome => s.worker.Posted?
  }

  function Move(s: State, k: nat, phase: Phase): State
    requires k < |s.emitters|
  {
    s.(emitters := s.emitters[k := phase])
  }

  function Accept(s: State, k: nat, signal: Signal): State
    requires k < |s.emitters|
  {
    Move(s, k, Placed).(queue := s.queue + [signal], accepted := s.accepted + [signal])
  }

  function Apply(s: State, step: Step): State
    requires Enabled(s, step)
  {
    match step
    case Offer(k, signal) => Move(s, k, Offering(signal)).(offered := s.offered + [signal])
    case Put(k) =>
      var signal := s.emitters[k].signal;
      if |s.queue| < CAPACITY then Accept(s, k, signal) else Move(s, k, Refused(signal))
    case CountQueued(k) => Move(s, k, Idle).(queued := s.queued + 1)
    case Evict(k) =>
      if s.queue == [] then Move(s, k, GivenUp)
      else Move(s, k, Evicted(s.emitters[k].signal)).(queue := s.queue[1..])
    case CountDropped(k) =>
      Move(s, k, if s.emitters[k].Evicted? then Retrying(s.emitters[k].signal) else Idle).(dropped := s.dropped + 1)
    case PutAgain(k) =>
      if |s.queue| < CAPACITY then Accept(s, k, s.emitters[k].signal)
      else Move(s, k, Idle).(lost := s.lost + 1)
    case Take => s.(queue := s.queue[1..], worker := Posting(s.queue[0]), taken := s.taken + [s.queue[0]])
    case Post(ok) => s.(worker := Posted(ok))
    case CountOutcome =>
      if s.worker.ok then s.(worker := Waiting, sent := s.sent + 1) else s.(worker := Waiting, failed := s.failed + 1)
  }

  ghost predicate Run(from: State, steps: seq<Step>, to: State)
    decreases |steps|
  {
    if steps == [] then from == to
    else Enabled(from, steps[0]) && Run(Apply(from, steps[0]), steps[1..], to)
  }

  // ---------------------------------------------------------------------------
  // Conservation, with any number of emitters at once
  // ---------------------------------------------------------------------------

  /** How many signals a thread holds that are in no queue and in no counter yet. */
  function Held(phase: Phase): nat {
    match phase
    case Idle => 0
    case Placed => 0
    case Evicted(_) => 2
    case _ => 1
  }

  function TotalHeld(phases: seq<Phase>): nat {
    if phases == [] then 0 else Held(phases[0]) + TotalHeld(phases[1..])
  }

  function TotalPlaced(phases: seq<Phase>): nat {
    if phases == [] then 0 else (if phases[0].Placed? then 1 else 0) + TotalPlaced(phases[1..])
  }

  lemma {:induction false} TotalsAfter(phases: seq<Phase>, k: nat, phase: Phase)
    requires k < |phases|
    ensures TotalHeld(phases[k := phase]) == TotalHeld(phases) - Held(phases[k]) + Held(phase)
    ensures TotalPlaced(phases[k := phase])
            == TotalPlaced(phases) - (if phases[k].Placed? then 1 else 0) + (if phase.Placed? then 1 else 0)
  {
    if k == 0 {
      assert phases[k := phase][1..] == phases[1..];
    } else {
      TotalsAfter(phases[1..], k - 1, phase);
      assert phases[k := phase][1..] == phases[1..][k - 1 := phase];
    }
  }

  function InFlight(w: Worker): nat {
    if w.Waiting? then 0 else 1
  }

  ghost predicate Balanced(s: State) {
    && |s.offered| == s.sent + s.failed + s.dropped + |s.queue| + InFlight(s.worker) + TotalHeld(s.emitters) + s.lost
    && |s.accepted| == s.queued + TotalPlaced(s.emitters)
    && |s.queue| <= CAPACITY
  }

  lemma StepKeepsBalance(s: State, step: Step)
    requires Balanced(s) && Enabled(s, step)
    ensures Balanced(Apply(s, step))
  {
    if step.Take? || step.Post? || step.CountOutcome? {
      WorkerKeepsBalance(s, step);
    } else {
      EmitterKeepsBalance(s, step);
    }
  }

  lemma WorkerKeepsBalance(s: State, step: Step)
    requires Balanced(s) && Enabled(s, step) && (step.Take? || step.Post? || step.CountOutcome?)
    ensures Balanced(Apply(s, step))
  {
  }

  lemma EmitterKeepsBalance(s: State, step: Step)
    requires Balanced(s) && Enabled(s, step) && !step.Take? && !step.Post? && !step.CountOutcome?
    ensures Balanced(Apply(s, step))
  {
    hide TotalHeld;
    hide TotalPlaced;
    var phase := Apply(s, step).emitters[step.k];
    TotalsAfter(s.emitters, step.k, phase);
    assert Apply(s, step).emitters == s.emitters[step.k := phase];
  }

  // ---------------------------------------------------------------------------
  // Order
  // ---------------------------------------------------------------------------

  /** `a` is what is left of `b` when some elements are taken out. */
  predicate Within(a: seq<Signal>, b: seq<Signal>)
    decreases |b|
  {
    || a == []
    || (b != [] && Within(a, b[..|b| - 1]))
    || (b != [] && a[|a| - 1] == b[|b| - 1] && Within(a[..|a| - 1], b[..|b| - 1]))
  }

  lemma WithinMore(a: seq<Signal>, b: seq<Signal>, x: Signal)
    requires Within(a, b)
    ensures Within(a, b + [x]) && Within(a + [x], b + [x])
  {
    assert (b + [x])[..|b|] == b && (a + [x])[..|a|] == a;
  }

  lemma {:induction false} WithinWithout(a: seq<Signal>, x: Signal, rest: seq<Signal>, b: seq<Signal>)
    requires Within(a + [x] + rest, b)
    ensures Within(a + rest, b)
    decreases |b|
  {
    var all, less := a + [x] + rest, a + rest;
    if less != [] {
      var front := b[..|b| - 1];
      if Within(all, front) {
        WithinWithout(a, x, rest, front);
      } else if rest == [] {
        assert all[..|all| - 1] == less;
      } else {
        assert all[..|all| - 1] == a + [x] + rest[..|rest| - 1];
        WithinWithout(a, x, rest[..|rest| - 1], front);
        assert less[..|less| - 1] == a + rest[..|rest| - 1];
      }
    }
  }

  lemma {:induction false} WithinTransitive(a: seq<Signal>, b: seq<Signal>, c: seq<Signal>)
    requires Within(a, b) && Within(b, c)
    ensures Within(a, c)
    decreases |b| + |c|
  {
    if a != [] {
      if Within(b, c[..|c| - 1]) {
        WithinTransitive(a, b, c[..|c| - 1]);
      } else if Within(a, b[..|b| - 1]) {
        WithinTransitive(a, b[..|b| - 1], c[..|c| - 1]);
      } else {
        WithinTransitive(a[..|a| - 1], b[..|b| - 1], c[..|c| - 1]);
      }
    }
  }

  /** What was taken, and behind it what waits, is in the order of acceptance. */
  ghost predicate Ordered(s: State) {
    Within(s.taken + s.queue, s.accepted)
  }

  /** What waits are the newest signals that were accepted. */
  ghost predicate HoldsNewest(s: State) {
    |s.queue| <= |s.accepted| && s.queue == s.accepted[|s.accepted| - |s.queue|..]
  }

  lemma StepKeepsNewest(s: State, step: Step)
    requires HoldsNewest(s) && Enabled(s, step)
    ensures HoldsNewest(Apply(s, step))
  {
    hide Apply;
    var next := Apply(s, step);
    QueueMoves(s, step);
    if Accepts(s, step) {
      NewestAndOneMore(s.accepted, s.queue, s.emitters[step.k].signal);
    } else if TakesOut(s, step) {
      NewestWithoutOldest(s.accepted, s.queue);
    }
  }

  predicate Accepts(s: State, step: Step) {
    (step.Put? || step.PutAgain?) && |s.queue| < CAPACITY
  }

  predicate TakesOut(s: State, step: Step) {
    (step.Evict? || step.Take?) && s.queue != []
  }

  /** What a step does to the queue. */
  lemma QueueMoves(s: State, step: Step)
    requires Enabled(s, step)
    ensures var next := Apply(s, step);
            if Accepts(s, step) then
              var signal := s.emitters[step.k].signal;
              next.queue == s.queue + [signal] && next.accepted == s.accepted + [signal]
            else next.accepted == s.accepted && next.queue == if TakesOut(s, step) then s.queue[1..] else s.queue
  {
  }

  lemma NewestAndOneMore(accepted: seq<Signal>, queue: seq<Signal>, signal: Signal)
    requires |queue| <= |accepted| && queue == accepted[|accepted| - |queue|..]
    ensures queue + [signal] == (accepted + [signal])[|accepted| - |queue|..]
  {
  }

  lemma NewestWithoutOldest(accepted: seq<Signal>, queue: seq<Signal>)
    requires 0 < |queue| <= |accepted| && queue == accepted[|accepted| - |queue|..]
    ensures queue[1..] == accepted[|accepted| - |queue| + 1..]
  {
  }

  lemma StepKeepsOrder(s: State, step: Step)
    requires Ordered(s) && Enabled(s, step)
    ensures Ordered(Apply(s, step))
  {
    hide Within;
    var next := Apply(s, step);
    if next.accepted != s.accepted {
      var signal := s.emitters[step.k].signal;
      WithinMore(s.taken + s.queue, s.accepted, signal);
      assert next.taken + next.queue == s.taken + s.queue + [signal];
    } else if step.Evict? && s.queue != [] {
      assert s.taken + s.queue == s.taken + [s.queue[0]] + s.queue[1..];
      WithinWithout(s.taken, s.queue[0], s.queue[1..], s.accepted);
    } else if step.Take? {
      assert next.taken + next.queue == s.taken + s.queue;
    }
  }

  /** In every interleaving the counters account for every signal, the queue stays bounded, and its order is kept. */
  lemma {:induction false} EveryRunIsAccounted(from: State, steps: seq<Step>, to: State)
    requires Balanced(from) && Ordered(from) && HoldsNewest(from) && Run(from, steps, to)
    ensures Balanced(to) && Ordered(to) && HoldsNewest(to)
    decreases |steps|
  {
    if steps != [] {
      StepKeepsBalance(from, steps[0]);
      StepKeepsOrder(from, steps[0]);
      StepKeepsNewest(from, steps[0]);
      EveryRunIsAccounted(Apply(from, steps[0]), steps[1..], to);
    }
  }

  lemma {:induction false} StartIsAccounted(emitters: nat)
    ensures TotalHeld(AllIdleSeq(emitters)) == 0 && TotalPlaced(AllIdleSeq(emitters)) == 0
    ensures Balanced(Start(emitters)) && Ordered(Start(emitters)) && HoldsNewest(Start(emitters))
  {
    if emitters > 0 {
      StartIsAccounted(emitters - 1);
      assert AllIdleSeq(emitters)[1..] == AllIdleSeq(emitters - 1);
    }
  }

  // ---------------------------------------------------------------------------
  // One emission at a time
  // ---------------------------------------------------------------------------

  predicate AllIdle(s: State) {
    forall i :: 0 <= i < |s.emitters| ==> s.emitters[i].Idle?
  }

  predicate OnlyBusy(s: State, k: nat) {
    k < |s.emitters| && forall i :: 0 <= i < |s.emitters| && i != k ==> s.emitters[i].Idle?
  }

  /** A run in which a new emission starts only when no other is going on. */
  ghost predicate SerialRun(from: State, steps: seq<Step>, to: State)
    decreases |steps|
  {
    if steps == [] then from == to
    else
      && Enabled(from, steps[0]) && (steps[0].Offer? ==> AllIdle(from))
      && SerialRun(Apply(from, steps[0]), steps[1..], to)
  }

  /** The signal of the emission that is going on, while it is not in the queue. */
  function Pending(phase: Phase): seq<Signal> {
    if phase.Offering? || phase.Refused? || phase.Evicted? || phase.Retrying? then [phase.signal] else []
  }

  ghost predicate Serial(s: State, k: nat) {
    && OnlyBusy(s, k)
    && s.lost == 0
    && (s.emitters[k].Evicted? || s.emitters[k].Retrying? ==> |s.queue| < CAPACITY)
    && |s.queue| <= CAPACITY
    && Within(s.accepted + Pending(s.emitters[k]), s.offered)
  }

  /** The thread that is busy after a step. */
  function Busy(step: Step, k: nat): nat {
    if step.Offer? then step.k else k
  }

  /** A step carries the pending signal on, puts it into the queue, or gives it up. */
  lemma StepMovesPending(s: State, step: Step, k: nat)
    requires OnlyBusy(s, k) && Enabled(s, step) && !step.Offer?
    ensures var next := Apply(s, step);
            && OnlyBusy(next, k) && next.offered == s.offered
            && (|| next.accepted + Pending(next.emitters[k]) == s.accepted + Pending(s.emitters[k])
                || (Pending(s.emitters[k]) != [] && next.accepted == s.accepted && Pending(next.emitters[k]) == []))
  {
  }

  lemma StepKeepsSerialOrder(s: State, step: Step, k: nat)
    requires Serial(s, k) && Enabled(s, step) && !step.Offer?
    ensures Within(Apply(s, step).accepted + Pending(Apply(s, step).emitters[k]), Apply(s, step).offered)
  {
    var next, held := Apply(s, step), Pending(s.emitters[k]);
    StepMovesPending(s, step, k);
    hide Apply;
    hide Within;
    if next.accepted + Pending(next.emitters[k]) != s.accepted + held {
      assert s.accepted + [held[0]] + [] == s.accepted + held && s.accepted + [] == next.accepted + Pending(next.emitters[k]);
      WithinWithout(s.accepted, held[0], [], s.offered);
    }
  }

  lemma OfferKeepsSerial(s: State, k: nat, busy: nat, signal: Signal)
    requires Serial(s, k) && AllIdle(s) && Enabled(s, Offer(busy, signal))
    ensures Serial(Apply(s, Offer(busy, signal)), busy)
  {
    hide Within;
    assert s.accepted + Pending(s.emitters[k]) == s.accepted;
    WithinMore(s.accepted, s.offered, signal);
  }

  lemma StepKeepsSerial(s: State, step: Step, k: nat)
    requires Serial(s, k) && Enabled(s, step) && (step.Offer? ==> AllIdle(s))
    ensures Serial(Apply(s, step), Busy(step, k))
  {
    hide Within;
    if step.Offer? {
      OfferKeepsSerial(s, k, step.k, step.signal);
    } else {
      StepMovesPending(s, step, k);
      StepKeepsSerialOrder(s, step, k);
    }
  }

  lemma {:induction false} SerialRunKeepsSerial(from: State, k: nat, steps: seq<Step>, to: State) returns (l: nat)
    requires Serial(from, k) && SerialRun(from, steps, to)
    ensures Serial(to, l) && Run(from, steps, to)
    decreases |steps|
  {
    l := k;
    if steps != [] {
      StepKeepsSerial(from, steps[0], k);
      l := SerialRunKeepsSerial(Apply(from, steps[0]), Busy(steps[0], k), steps[1..], to);
    }
  }

  /**
   With emissions one at a time and the worker anywhere: no signal is lost uncounted, the counters
   add up (a thread between two operations holds the difference), what the worker takes is an ordered
   part of what was offered, and what waits are the newest signals: only the oldest are ever dropped.
   */
  lemma SerialEmissionsAreAccounted(emitters: nat, steps: seq<Step>, to: State)
    requires emitters > 0 && SerialRun(Start(emitters), steps, to)
    ensures |to.offered| == to.sent + to.failed + to.dropped + |to.queue| + InFlight(to.worker) + TotalHeld(to.emitters)
    ensures |to.queue| <= CAPACITY && to.lost == 0
    ensures Within(to.taken + to.queue, to.offered)
    ensures |to.queue| <= |to.accepted| && to.queue == to.accepted[|to.accepted| - |to.queue|..]
  {
    StartIsAccounted(emitters);
    StartIsSerial(emitters);
    var l := SerialRunKeepsSerial(Start(emitters), 0, steps, to);
    EveryRunIsAccounted(Start(emitters), steps, to);
    var pending := Pending(to.emitters[l]);
    if pending != [] {
      assert to.accepted + pending == to.accepted + [pending[0]] + [];
      WithinWithout(to.accepted, pending[0], [], to.offered);
    }
    assert to.accepted + [] == to.accepted;
    WithinTransitive(to.taken + to.queue, to.accepted, to.offered);
  }

  lemma {:induction false} IdleHoldsNothing(phases: seq<Phase>)
    requires forall i :: 0 <= i < |phases| ==> phases[i].Idle?
    ensures TotalHeld(phases) == 0 && TotalPlaced(phases) == 0
  {
    if phases != [] {
      IdleHoldsNothing(phases[1..]);
    }
  }

  /** Between emissions `stats()` tells the whole truth. */
  lemma StatsAreTruthful(emitters: nat, steps: seq<Step>, to: State)
    requires emitters > 0 && SerialRun(Start(emitters), steps, to) && AllIdle(to)
    ensures |to.offered| == to.sent + to.failed + to.dropped + |to.queue| + InFlight(to.worker)
    ensures to.queued == |to.accepted|
  {
    hide Serial;
    hide Ordered;
    hide HoldsNewest;
    hide Within;
    hide SerialRun;
    SerialEmissionsAreAccounted(emitters, steps, to);
    IdleHoldsNothing(to.emitters);
    StartIsSerial(emitters);
    StartIsAccounted(emitters);
    var l := SerialRunKeepsSerial(Start(emitters), 0, steps, to);
    EveryRunIsAccounted(Start(emitters), steps, to);
  }

  lemma StartIsSerial(emitters: nat)
    requires emitters > 0
    ensures Serial(Start(emitters), 0)
  {
    assert Start(emitters).accepted + [] == Start(emitters).offered;
  }

  // ---------------------------------------------------------------------------
  // Which runs lose a signal
  // ---------------------------------------------------------------------------

  /** The second put finds the queue full again: somebody else has taken the place that was made. */
  predicate FoundFullAgain(s: State, step: Step) {
    step.PutAgain? && |s.queue| >= CAPACITY
  }

  /** How many steps of a run are second puts at a full queue. */
  ghost function FailedRetries(from: State, steps: seq<Step>): nat
    decreases |steps|
  {
    if steps == [] || !Enabled(from, steps[0]) then 0
    else (if FoundFullAgain(from, steps[0]) then 1 else 0) + FailedRetries(Apply(from, steps[0]), steps[1..])
  }

  lemma {:induction false} LostAreFailedRetries(from: State, steps: seq<Step>, to: State)
    requires Run(from, steps, to)
    ensures to.lost == from.lost + FailedRetries(from, steps)
    decreases |steps|
  {
    if steps != [] {
      LostAreFailedRetries(Apply(from, steps[0]), steps[1..], to);
    }
  }

  /**
   With any number of emitters: between emissions the counters fall short of the signals offered by exactly the second
   puts that found the queue full, so they tell the whole truth exactly when there was none.
   */
  lemma StatsAreTruthfulIff(emitters: nat, steps: seq<Step>, to: State)
    requires Run(Start(emitters), steps, to) && AllIdle(to)
    ensures var counted := to.sent + to.failed + to.dropped + |to.queue| + InFlight(to.worker);
            && |to.queue| <= 256 && |to.offered| == counted + FailedRetries(Start(emitters), steps)
            && (|to.offered| == counted <==> FailedRetries(Start(emitters), steps) == 0)
  {
    hide Ordered;
    hide HoldsNewest;
    StartIsAccounted(emitters);
    EveryRunIsAccounted(Start(emitters), steps, to);
    IdleHoldsNothing(to.emitters);
    LostAreFailedRetries(Start(emitters), steps, to);
  }

  /** An emission never blocks: whatever the queue, the worker and the other threads do, the thread can take its next step. */
  lemma EmissionNeverBlocks(s: State, k: nat)
    requires k < |s.emitters| && !s.emitters[k].Idle?
    ensures var step := match s.emitters[k]
              case Offering(_) => Put(k)
              case Placed => CountQueued(k)
              case Refused(_) => Evict(k)
              case Retrying(_) => PutAgain(k)
              case _ => CountDropped(k);
            Enabled(s, step) && !Apply(s, step).emitters[k].Offering?
  {
  }

  // ---------------------------------------------------------------------------
  // Sent and failed
  // ---------------------------------------------------------------------------

  /** How many posts of a run the backend accepted, or did not. */
  function Posts(steps: seq<Step>, ok: bool): nat {
    if steps == [] then 0 else (if steps[0] == Post(ok) then 1 else 0) + Posts(steps[1..], ok)
  }

  lemma {:induction false} CountersFollowPosts(from: State, steps: seq<Step>, to: State)
    requires Run(from, steps, to)
    ensures to.sent + (if to.worker == Posted(true) then 1 else 0)
            == from.sent + (if from.worker == Posted(true) then 1 else 0) + Posts(steps, true)
    ensures to.failed + (if to.worker == Posted(false) then 1 else 0)
            == from.failed + (if from.worker == Posted(false) then 1 else 0) + Posts(steps, false)
    decreases |steps|
  {
    if steps != [] {
      CountersFollowPosts(Apply(from, steps[0]), steps[1..], to);
    }
  }

  /** From the start, "sent" counts the posts that were accepted and "failed" those that were not, once the worker waits. */
  lemma SentIsAccepted(emitters: nat, steps: seq<Step>, to: State)
    requires Run(Start(emitters), steps, to) && to.worker == Waiting
    ensures to.sent == Posts(steps, true) && to.failed == Posts(steps, false)
  {
    CountersFollowPosts(Start(emitters), steps, to);
  }

  // ---------------------------------------------------------------------------
  // Filling the queue
  // ---------------------------------------------------------------------------

  lemma {:induction false} RunsJoin(from: State, first: seq<Step>, middle: State, second: seq<Step>, to: State)
    requires Run(from, first, middle) && Run(middle, second, to)
    ensures Run(from, first + second, to)
    decreases |first|
  {
    if first == [] {
      assert first + second == second;
    } else {
      RunsJoin(Apply(from, first[0]), first[1..], middle, second, to);
      assert (first + second)[1..] == first[1..] + second;
    }
  }

  /** One emission that finds room. */
  lemma OneEmission(s: State, signal: Signal) returns (steps: seq<Step>, to: State)
    requires |s.emitters| > 0 && AllIdle(s) && |s.queue| < CAPACITY
    ensures Run(s, steps, to) && AllIdle(to) && |to.emitters| == |s.emitters|
    ensures to.queue == s.queue + [signal]
  {
    hide Run;
    var s1 := Apply(s, Offer(0, signal));
    var s2 := Apply(s1, Put(0));
    to := Apply(s2, CountQueued(0));
    assert to.emitters == s.emitters;
    steps := NoStep(to);
    steps := Before(s2, CountQueued(0), to, steps, to);
    steps := Before(s1, Put(0), s2, steps, to);
    steps := Before(s, Offer(0, signal), s1, steps, to);
  }

  /** While the worker is held up, emissions fill the queue to its cap. */
  lemma {:induction false} QueueFills(emitters: nat, signal: Signal, n: nat) returns (steps: seq<Step>, to: State)
    requires emitters > 0 && n <= CAPACITY
    ensures Run(Start(emitters), steps, to) && AllIdle(to) && |to.emitters| == emitters && |to.queue| == n
    decreases n
  {
    if n == 0 {
      to := Start(emitters);
      steps := NoStep(to);
    } else {
      var first, middle := QueueFills(emitters, signal, n - 1);
      var second;
      second, to := OneEmission(middle, signal);
      RunsJoin(Start(emitters), first, middle, second, to);
      steps := first + second;
    }
  }

  // ---------------------------------------------------------------------------
  // Two emissions at once
  // ---------------------------------------------------------------------------

  /** Whenever the queue is full, two threads can emit so that one signal disappears and no counter knows. */
  lemma TwoEmittersCanLoseOne(s: State, first: Signal, second: Signal) returns (steps: seq<Step>, to: State)
    requires Balanced(s) && |s.emitters| >= 2 && AllIdle(s) && |s.queue| == CAPACITY
    ensures Run(s, steps, to) && AllIdle(to)
    ensures to.offered == s.offered + [first, second] && to.lost == s.lost + 1
    ensures to.sent + to.failed + to.dropped + |to.queue| + InFlight(to.worker)
            == s.sent + s.failed + s.dropped + |s.queue| + InFlight(s.worker) + 1
    ensures to.queue == s.queue[1..] + [second]
  {
    hide Run;
    hide Balanced;
    var s1 := Apply(s, Offer(0, first));
    var s2 := Apply(s1, Put(0));
    var s3 := Apply(s2, Evict(0));
    var s4 := Apply(s3, CountDropped(0));
    assert s4.emitters == s.emitters[0 := Retrying(first)] && s4.queue == s.queue[1..];
    var s5 := Apply(s4, Offer(1, second));
    var s6 := Apply(s5, Put(1));
    var s7 := Apply(s6, CountQueued(1));
    assert s7.emitters == s.emitters[0 := Retrying(first)] && s7.queue == s.queue[1..] + [second];
    to := Apply(s7, PutAgain(0));
    assert to.emitters == s.emitters;
    steps := NoStep(to);
    steps := Before(s7, PutAgain(0), to, steps, to);
    steps := Before(s6, CountQueued(1), s7, steps, to);
    steps := Before(s5, Put(1), s6, steps, to);
    steps := Before(s4, Offer(1, second), s5, steps, to);
    steps := Before(s3, CountDropped(0), s4, steps, to);
    steps := Before(s2, Evict(0), s3, steps, to);
    steps := Before(s1, Put(0), s2, steps, to);
    steps := Before(s, Offer(0, first), s1, steps, to);
    assert to.offered == s.offered + [first, second];
  }

  /** From the start: with two emitters there is a run in which the counters miss a signal between emissions. */
  lemma SignalsCanBeLost(emitters: nat, signal: Signal) returns (steps: seq<Step>, to: State)
    requires emitters >= 2
    ensures Run(Start(emitters), steps, to) && AllIdle(to)
    ensures |to.offered| > to.sent + to.failed + to.dropped + |to.queue| + InFlight(to.worker)
  {
    hide Run;
    hide Ordered;
    hide HoldsNewest;
    StartIsAccounted(emitters);
    var first, full := QueueFills(emitters, signal, CAPACITY);
    EveryRunIsAccounted(Start(emitters), first, full);
    IdleHoldsNothing(full.emitters);
    var second;
    second, to := TwoEmittersCanLoseOne(full, signal, signal);
    RunsJoin(Start(emitters), first, full, second, to);
    steps := first + second;
  }

  lemma NoStep(s: State) returns (steps: seq<Step>)
    ensures Run(s, steps, s)
  {
    steps := [];
  }

  lemma Before(s: State, step: Step, next: State, steps: seq<Step>, to: State) returns (all: seq<Step>)
    requires Enabled(s, step) && next == Apply(s, step) && Run(next, steps, to)
    ensures Run(s, all, to)
  {
    all := [step] + steps;
    assert all[1..] == steps;
  }
}
