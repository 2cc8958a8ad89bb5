/**
 * Reaping (internal/reaper/reaper.go and pump in cmd/k0smos/main.go): two goroutines, two one-slot
 * channels and a signal that the kernel keeps at most once, as a step relation over their interleavings.
 */
module Reaper {
  import opened Bytes

  /** A child, told apart from every other that ever ran. */
  type Child = nat

  datatype State = State(
    exited: set<Child>,    // ever
    zombies: set<Child>,   // exited, and not waited for
    reaped: set<Child>,
    signalled: bool,       // SIGCHLD is pending: however many children exit, once
    posted: bool,          // the slot of the signal channel is full
    holding: bool,         // pump has taken a signal and not yet offered it to the reaper
    triggered: bool,       // the slot of the trigger channel is full
    draining: bool)        // the reaper is in its drain loop

  const START: State := State({}, {}, {}, false, false, false, false, false)

  datatype Step =
    | Exit(child: Child)     // a child exits, and the kernel raises SIGCHLD
    | Raise                  // SIGCHLD for something else: a child stopped or continued
    | Deliver                // the runtime posts the signal, or drops it if the slot is full
    | PumpTakes
    | PumpOffers             // select with default: fills the trigger, or drops the wake-up
    | ReaperWakes
    | Reap(child: Child)     // wait4 collects this child
    | NoChild                // wait4 has none ready; the drain ends
    | ReapFails              // wait4 fails; the drain ends

  /** One step, or None where it cannot happen. */
  function Do(s: State, step: Step): Option<State> {
    match step
    case Exit(c) =>
      if c in s.exited then None
      else Some(s.(exited := s.exited + {c}, zombies := s.zombies + {c}, signalled := true))
    case Raise => Some(s.(signalled := true))
    case Deliver => if s.signalled then Some(s.(signalled := false, posted := true)) else None
    case PumpTakes => if s.posted && !s.holding then Some(s.(posted := false, holding := true)) else None
    case PumpOffers => if s.holding then Some(s.(holding := false, triggered := true)) else None
    case ReaperWakes => if s.triggered && !s.draining then Some(s.(triggered := false, draining := true)) else None
    case Reap(c) =>
      if s.draining && c in s.zombies then Some(s.(zombies := s.zombies - {c}, reaped := s.reaped + {c})) else None
    case NoChild => if s.draining && s.zombies == {} then Some(s.(draining := false)) else None
    case ReapFails => if s.draining then Some(s.(draining := false)) else None
  }

  function Run(s: State, steps: seq<Step>): Option<State>
    decreases |steps|
  {
    if steps == [] then Some(s)
    else
      match Do(s, steps[0])
      case None => None
      case Some(t) => Run(t, steps[1..])
  }

  predicate NoFailures(steps: seq<Step>) {
    forall i :: 0 <= i < |steps| ==> steps[i] != ReapFails
  }

  /** Somewhere on its way to the reaper there is a wake-up, or the reaper is awake. */
  predicate Awake(s: State) {
    s.signalled || s.posted || s.holding || s.triggered || s.draining
  }

  predicate NoLostWakeUp(s: State) {
    s.zombies != {} ==> Awake(s)
  }

  /** Every child that exited is either a zombie or reaped, and none is both. */
  predicate Conserved(s: State) {
    s.exited == s.zombies + s.reaped && s.zombies * s.reaped == {}
  }

  /** The one step that loses a wake-up: a failed wait4 while a child waits and no other wake-up is on its way. */
  lemma StepKeepsWakeUp(s: State, step: Step)
    requires NoLostWakeUp(s) && Do(s, step).Some?
    ensures NoLostWakeUp(Do(s, step).value) <==>
      !(step == ReapFails && s.zombies != {} && !s.signalled && !s.posted && !s.holding && !s.triggered)
  {
  }

  lemma StepConserves(s: State, step: Step)
    requires Conserved(s) && Do(s, step).Some?
    ensures Conserved(Do(s, step).value)
    ensures s.exited <= Do(s, step).value.exited && s.reaped <= Do(s, step).value.reaped
  {
  }

  /** Children are conserved: over any run, even with failures, each that exited is a zombie or reaped once. */
  lemma {:induction false} RunConserves(s: State, steps: seq<Step>)
    requires Conserved(s) && Run(s, steps).Some?
    ensures Conserved(Run(s, steps).value)
    ensures s.exited <= Run(s, steps).value.exited && s.reaped <= Run(s, steps).value.reaped
    decreases |steps|
  {
    hide Do, Conserved;
    if steps != [] {
      StepConserves(s, steps[0]);
      RunConserves(Do(s, steps[0]).value, steps[1..]);
    }
  }

  /**
   * No wake-up is ever lost: over every interleaving without a failed wait4, an unreaped child means a
   * pending signal, a full slot, pump holding one, or a drain under way.
   */
  lemma {:induction false} NoWakeUpIsLost(s: State, steps: seq<Step>)
    requires NoLostWakeUp(s) && Run(s, steps).Some? && NoFailures(steps)
    ensures NoLostWakeUp(Run(s, steps).value)
    decreases |steps|
  {
    if steps != [] {
      StepKeepsWakeUp(s, steps[0]);
      NoWakeUpIsLost(Do(s, steps[0]).value, steps[1..]);
    }
  }

  /** Once everything is idle no zombie remains: whatever exited has been reaped. */
  lemma IdleMeansReaped(steps: seq<Step>)
    requires Run(START, steps).Some? && NoFailures(steps) && !Awake(Run(START, steps).value)
    ensures Run(START, steps).value.reaped == Run(START, steps).value.exited
  {
    NoWakeUpIsLost(START, steps);
    RunConserves(START, steps);
  }

  /** Such a failure strands a child: everything is idle, and it is still a zombie. */
  lemma FailureStrandsAChild() returns (steps: seq<Step>)
    ensures Run(START, steps).Some? && !Awake(Run(START, steps).value) && Run(START, steps).value.zombies == {7}
  {
    steps := [Exit(7), Deliver, PumpTakes, PumpOffers, ReaperWakes, ReapFails];
    var s1 := Do(START, Exit(7)).value;
    var s2 := Do(s1, Deliver).value;
    var s3 := Do(s2, PumpTakes).value;
    var s4 := Do(s3, PumpOffers).value;
    var s5 := Do(s4, ReaperWakes).value;
    var s6 := Do(s5, ReapFails).value;
    assert Run(s6, []) == Some(s6);
    assert Run(s5, [ReapFails]) == Run(s6, []);
    assert [ReaperWakes, ReapFails][1..] == [ReapFails];
    assert Run(s4, [ReaperWakes, ReapFails]) == Some(s6);
    assert [PumpOffers, ReaperWakes, ReapFails][1..] == [ReaperWakes, ReapFails];
    assert Run(s3, [PumpOffers, ReaperWakes, ReapFails]) == Some(s6);
    assert [PumpTakes, PumpOffers, ReaperWakes, ReapFails][1..] == [PumpOffers, ReaperWakes, ReapFails];
    assert Run(s2, [PumpTakes, PumpOffers, ReaperWakes, ReapFails]) == Some(s6);
    assert steps[1..][1..] == [PumpTakes, PumpOffers, ReaperWakes, ReapFails];
    assert Run(s1, steps[1..]) == Some(s6);
  }

  // ------------------------------------------------------------------ progress

  /** A step of the machinery, as opposed to one of its surroundings. */
  predicate Internal(step: Step) {
    !step.Exit? && !step.Raise? && !step.ReapFails?
  }

  function Weight(b: bool, n: nat): nat {
    if b then n else 0
  }

  /** How much work is under way, at most. */
  function Work(s: State): nat {
    Weight(s.signalled, 5) + Weight(s.posted, 4) + Weight(s.holding, 3) + Weight(s.triggered, 2) + Weight(s.draining, 1) + |s.zombies|
  }

  lemma WorkShrinks(s: State, step: Step)
    requires Internal(step) && Do(s, step).Some?
    ensures Work(Do(s, step).value) < Work(s)
  {
    if step.Reap? {
      assert |s.zombies - {step.child}| == |s.zombies| - 1;
    }
  }

  /** Nothing left for the machinery to do. */
  ghost predicate Stuck(s: State) {
    forall step :: Internal(step) ==> Do(s, step).None?
  }

  /** It only comes to rest when no wake-up is anywhere. */
  lemma StuckMeansIdle(s: State)
    ensures Stuck(s) <==> !Awake(s)
  {
    assert Internal(Deliver) && Internal(PumpTakes) && Internal(PumpOffers) && Internal(ReaperWakes) && Internal(NoChild);
    if s.draining && s.zombies != {} {
      var c :| c in s.zombies;
      assert Internal(Reap(c)) && Do(s, Reap(c)).Some?;
    }
  }

  lemma {:induction false} InternalRunsAreShort(s: State, steps: seq<Step>)
    requires Run(s, steps).Some? && forall i :: 0 <= i < |steps| ==> Internal(steps[i])
    ensures |steps| + Work(Run(s, steps).value) <= Work(s)
    ensures Run(s, steps).value.exited == s.exited
    decreases |steps|
  {
    if steps != [] {
      WorkShrinks(s, steps[0]);
      InternalRunsAreShort(Do(s, steps[0]).value, steps[1..]);
    }
  }

  lemma {:induction false} RunAppend(s: State, a: seq<Step>, b: seq<Step>)
    requires Run(s, a).Some?
    ensures Run(s, a + b) == Run(Run(s, a).value, b)
    decreases |a|
  {
    if a == [] {
      assert a + b == b;
    } else {
      assert (a + b)[1..] == a[1..] + b;
      RunAppend(Do(s, a[0]).value, a[1..], b);
    }
  }

  /**
   * Once children stop exiting, the machinery reaps every child that ever exited, whatever the order its
   * steps are taken in: it cannot go on for more than Work steps, and where it cannot go on all are reaped.
   */
  lemma {:induction false} EveryChildIsReaped(steps: seq<Step>, rest: seq<Step>)
    requires Run(START, steps).Some? && NoFailures(steps) && Run(START, steps + rest).Some?
    requires forall i :: 0 <= i < |rest| ==> Internal(rest[i])
    ensures |rest| <= Work(Run(START, steps).value)
    ensures Stuck(Run(START, steps + rest).value) ==> Run(START, steps + rest).value.reaped == Run(START, steps).value.exited
  {
    hide Run, Work, Conserved, NoLostWakeUp, Stuck;
    RunAppend(START, steps, rest);
    InternalRunsAreShort(Run(START, steps).value, rest);
    StuckMeansIdle(Run(START, steps + rest).value);
    if Stuck(Run(START, steps + rest).value) {
      IdleMeansReaped(steps + rest);
    }
  }
}
