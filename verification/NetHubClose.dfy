/** Close returns: once it has cut the last connection, what is left to do is bounded, and doing it ends in Close's return. */
module NetHubClose {
  import opened Bytes
  import opened HubWire
  import opened NetHub
  import opened NetHubInvariant
  import opened NetHubWrites
  import opened NetHubRuns

  // ------------------------------------------------------------------ sums

  ghost function Sum(w: map<Id, nat>): nat
    decreases |w|
  {
    if w == map[] then 0
    else
      var x :| x in w;
      assert |w - {x}| < |w| by { OneFewer(w, x); }
      w[x] + Sum(w - {x})
  }

  lemma OneFewer(w: map<Id, nat>, x: Id)
    requires x in w
    ensures |w - {x}| < |w|
  {
    assert (w - {x}).Keys == w.Keys - {x};
    assert |w.Keys - {x}| == |w.Keys| - 1;
  }

  lemma {:induction false} SumWithout(w: map<Id, nat>, x: Id)
    requires x in w
    ensures Sum(w) == w[x] + Sum(w - {x})
    decreases |w|
  {
    var y :| y in w && Sum(w) == w[y] + Sum(w - {y});
    if y != x {
      OneFewer(w, y);
      SumWithout(w - {y}, x);
      OneFewer(w, x);
      SumWithout(w - {x}, y);
      assert (w - {y}) - {x} == (w - {x}) - {y};
    }
  }

  lemma SumUpdate(w: map<Id, nat>, x: Id, v: nat)
    ensures Sum(w[x := v]) == v + Sum(w - {x})
    ensures x in w ==> Sum(w[x := v]) + w[x] == Sum(w) + v
    ensures x !in w ==> Sum(w[x := v]) == Sum(w) + v
  {
    SumWithout(w[x := v], x);
    assert w[x := v] - {x} == w - {x};
    if x in w {
      SumWithout(w, x);
    } else {
      assert w - {x} == w;
    }
  }

  // ------------------------------------------------------------------ what is left to do

  /** How many steps a goroutine that serves a closed connection can still take, when a copy holds at most n ports. */
  function PortWork(P: Port, n: nat): nat {
    match P.pc
    case Unserved => 0
    case Gone => 0
    case Closing => 1
    case LeaveHeld => 2
    case LeaveWant => 3
    case ReadHdr => 4
    case ReadBody => 4
    case DropHeld => 4
    case DropWant => 5
    case Flooding => 5 + 4 * |P.todo|
    case HoldHdr => 4 + 4 * |P.todo|
    case HoldBody => 3 + 4 * |P.todo|
    case HoldDone(_) => 6 + 4 * |P.todo|
    case SnapHeld => 6 + 4 * n
    case SnapWant => 7 + 4 * n
  }

  function AcceptWork(a: AcceptPc): nat {
    match a
    case Accepting => 5
    case Got(_) => 4
    case Admitting(_) => 3
    case Refusing(_) => 2
    case Stopped => 0
  }

  function CloseWork(pc: ClosePc): nat {
    match pc
    case Want => 6
    case Held => 5
    case Listener => 4
    case Conns => 3
    case Wait => 2
    case Returned => 0
  }

  ghost function Ports(s: State): map<Id, nat> {
    map p | p in s.conns :: PortWork(s.conns[p], |s.snapshot|)
  }

  ghost function Calls(s: State): map<Id, nat> {
    map c | c in s.closers :: CloseWork(s.closers[c])
  }

  ghost function WorkLeft(s: State): nat {
    AcceptWork(s.accept) + Sum(Ports(s)) + Sum(Calls(s))
  }

  // ------------------------------------------------------------------ every step leaves less

  /** A connection that is still served has been closed. */
  lemma ServedIsClosed(s: State, p: Id)
    requires Inv(s) && Cut(s) && p in s.conns && InPorts(s.conns[p].pc)
    ensures s.conns[p].closed
  {
    hide Readers, Writers, Pairs, Accept, Reader, Writer;
    assert Bystander(s, p, s.conns[p]);
  }

  lemma {:induction false} DistinctWithin(order: seq<Id>, ids: set<Id>)
    requires (forall i, j :: 0 <= i < j < |order| ==> order[i] != order[j]) && forall x :: x in order ==> x in ids
    ensures |order| <= |ids|
  {
    if order != [] {
      var x := order[|order| - 1];
      var rest := order[..|order| - 1];
      forall y | y in rest ensures y in ids - {x} {
        var i :| 0 <= i < |rest| && rest[i] == y;
        assert order[i] != order[|order| - 1];
      }
      DistinctWithin(rest, ids - {x});
    }
  }

  lemma OwnWork(P: Port, step: Step, P': Port, n: nat)
    requires DoOwn(P, step) == Some(P') && (InPorts(P.pc) ==> P.closed)
    ensures PortWork(P', n) < PortWork(P, n)
  {
    hide FromBe32;
  }

  lemma HubLockWork(s: State, step: Step, s': State)
    requires step.DropLock? || step.DropUnlock? || step.SnapLock? || step.SnapTake? || step.LeaveLock? || step.LeaveDelete?
    requires step.p in s.conns && DoHubLock(s, step) == Some(s') && s.ports <= s.snapshot
    ensures s'.conns == s.conns[step.p := s'.conns[step.p]] && s'.snapshot == s.snapshot
    ensures s'.accept == s.accept && s'.closers == s.closers
    ensures PortWork(s'.conns[step.p], |s.snapshot|) < PortWork(s.conns[step.p], |s.snapshot|)
  {
    if step.SnapTake? {
      DistinctWithin(step.others, s.snapshot);
    }
  }

  lemma EffectWork(step: Step, p: Id, P: Port, P': Port, q: Id, Q: Port, Q': Port, n: nat)
    requires Effect(step, p, P, P', q, Q, Q')
    ensures PortWork(P', n) < PortWork(P, n) && PortWork(Q', n) == PortWork(Q, n)
  {
    hide CanWrite, Torn;
  }

  lemma WriteWork(s: State, step: Step, s': State)
    requires IsWrite(step) && step.p in s.conns && DoServe(s, step) == Some(s')
    ensures s'.conns.Keys == s.conns.Keys && s'.snapshot == s.snapshot && s'.accept == s.accept && s'.closers == s.closers
    ensures forall r :: r in s.conns && r != step.p ==> PortWork(s'.conns[r], |s.snapshot|) == PortWork(s.conns[r], |s.snapshot|)
    ensures PortWork(s'.conns[step.p], |s.snapshot|) < PortWork(s.conns[step.p], |s.snapshot|)
  {
    hide DoServe, Effect, PortWork;
    var q := On(s.conns[step.p], step);
    WriteEffect(s, s', step, q);
    EffectWork(step, step.p, s.conns[step.p], s'.conns[step.p], q, s.conns[q], s'.conns[q], |s.snapshot|);
  }

  predicate ServesStep(step: Step) {
    !step.AcceptConn? && !step.AcceptFail? && !step.AcceptLock? && !step.AcceptDecide? && !step.AcceptClose?
    && !step.CloseCall? && !step.CloseLock? && !step.CloseDecide? && !step.CloseListener? && !step.CloseConn? && !step.CloseWait?
  }

  lemma ServeLeavesLess(s: State, step: Step, s': State)
    requires Inv(s) && Cut(s) && s.closed && ServesStep(step) && DoServe(s, step) == Some(s') && s.ports <= s.snapshot
    ensures WorkLeft(s') < WorkLeft(s)
  {
    hide Inv, Cut, DoOwn, DoHubLock, DoWrite, PortWork, Sum, InPorts;
    var p, n := step.p, |s.snapshot|;
    if IsWrite(step) {
      WriteWork(s, step, s');
    } else if step.DropLock? || step.DropUnlock? || step.SnapLock? || step.SnapTake? || step.LeaveLock? || step.LeaveDelete? {
      HubLockWork(s, step, s');
    } else {
      if InPorts(s.conns[p].pc) {
        ServedIsClosed(s, p);
      }
      OwnWork(s.conns[p], step, s'.conns[p], n);
    }
    assert Calls(s') == Calls(s);
    assert Ports(s') == Ports(s)[p := PortWork(s'.conns[p], n)];
    SumUpdate(Ports(s), p, PortWork(s'.conns[p], n));
  }

  lemma AcceptLeavesLess(s: State, step: Step, s': State)
    requires s.closed && DoAccept(s, step) == Some(s') && Accept(s)
    ensures WorkLeft(s') < WorkLeft(s)
  {
    hide Sum;
    var n := |s.snapshot|;
    assert Calls(s') == Calls(s);
    if step.AcceptConn? {
      assert Ports(s') == Ports(s)[step.p := 0];
      SumUpdate(Ports(s), step.p, 0);
    } else {
      assert Ports(s') == Ports(s);
    }
  }

  lemma CloseLeavesLess(s: State, step: Step, s': State)
    requires s.closed && Cut(s) && Closers(s) && DoClose(s, step) == Some(s') && !step.CloseCall?
    ensures WorkLeft(s') < WorkLeft(s)
  {
    hide Sum, AllServersEnded, Enumerates;
    var c := step.c;
    assert Ports(s') == Ports(s);
    assert Calls(s') == Calls(s)[c := CloseWork(s'.closers[c])];
    SumUpdate(Calls(s), c, CloseWork(s'.closers[c]));
  }

  lemma ClosedFacts(s: State)
    requires Inv(s) && Cut(s)
    ensures s.closed && s.ports <= s.snapshot && Accept(s) && Closers(s)
  {
    hide Readers, Writers, Pairs, Bystanders, Accept;
  }

  /** Once the last connection is cut, every step but a new call of Close leaves less to do. */
  lemma EveryStepLeavesLess(s: State, step: Step)
    requires Inv(s) && Cut(s) && Do(s, step).Some? && !step.CloseCall?
    ensures WorkLeft(Do(s, step).value) < WorkLeft(s)
  {
    hide Inv, Cut, DoAccept, DoClose, DoServe, WorkLeft, Accept, Closers;
    ClosedFacts(s);
    var s' := Do(s, step).value;
    if step.CloseLock? || step.CloseDecide? || step.CloseListener? || step.CloseConn? || step.CloseWait? {
      CloseLeavesLess(s, step, s');
    } else if step.AcceptConn? || step.AcceptFail? || step.AcceptLock? || step.AcceptDecide? || step.AcceptClose? {
      AcceptLeavesLess(s, step, s');
    } else {
      ServeLeavesLess(s, step, s');
    }
  }

  lemma CutStays(s: State, step: Step)
    requires Inv(s) && Cut(s) && Do(s, step).Some?
    ensures Cut(Do(s, step).value)
  {
    hide Readers, Writers, Pairs, Bystanders, Accept, DoServe, AllServersEnded, Enumerates;
    ClosedFacts(s);
    hide Inv;
    if ServesStep(step) {
      ServeKeepsCalls(s, step);
    }
  }

  lemma ServeKeepsCalls(s: State, step: Step)
    requires ServesStep(step) && DoServe(s, step).Some?
    ensures DoServe(s, step).value.winner == s.winner && DoServe(s, step).value.closers == s.closers
  {
    hide CanWrite, DoOwn, Enumerates;
  }

  // ------------------------------------------------------------------ something can always be done

  /** Nothing more can happen by itself. */
  ghost predicate AtRest(s: State) {
    forall step :: Do(s, step).Some? ==> step.CloseCall?
  }

  lemma HubLockIsReleased(s: State)
    requires Inv(s) && s.hub.Some?
    ensures !AtRest(s)
  {
    HubHolderMoves(s);
    hide Inv;
    var step :| LetsGo(s, step);
    assert !step.CloseCall? by { CallsKeepTheLock(s, step); }
  }

  lemma CallsKeepTheLock(s: State, step: Step)
    requires s.hub.Some? && Do(s, step).Some? && Do(s, step).value.hub.None?
    ensures !step.CloseCall?
  {
  }

  lemma PortLockIsReleased(s: State, q: Id)
    requires Inv(s) && q in s.conns && s.conns[q].lock.Some?
    ensures !AtRest(s)
  {
    hide Inv, Do;
    PortHolderMoves(s, q);
  }

  lemma AcceptorMoves(s: State)
    requires Accept(s) && s.hub.None? && !s.accept.Stopped?
    ensures !AtRest(s)
  {
    var step := if s.accept.Accepting? then AcceptFail else if s.accept.Got? then AcceptLock else AcceptClose;
    assert Do(s, step).Some?;
  }

  /** A goroutine that waits for no port lock can take a step while the hub's lock is free. */
  lemma FreeServerMoves(s: State, p: Id)
    requires p in s.conns && s.hub.None? && !HoldsHub(s.conns[p].pc)
    requires var P := s.conns[p]; !P.pc.Unserved? && !P.pc.Gone? && !P.pc.HoldHdr? && !P.pc.HoldBody? && !P.pc.HoldDone?
    requires var P := s.conns[p];
      P.pc.Flooding? && P.todo != [] ==> P.todo[0] in s.conns && P.todo[0] != p && s.conns[P.todo[0]].lock.None?
    ensures !AtRest(s)
  {
    var P := s.conns[p];
    var step :=
      if P.pc.DropWant? then DropLock(p)
      else if P.pc.SnapWant? then SnapLock(p)
      else if P.pc.LeaveWant? then LeaveLock(p)
      else if P.pc.Closing? then LeaveClose(p)
      else if P.pc.Flooding? && P.todo == [] then FloodEnd(p)
      else if P.pc.Flooding? then PortLock(p)
      else ReadFail(p);
    assert Do(s, step).Some?;
  }

  lemma ServerMoves(s: State, p: Id)
    requires Inv(s) && p in s.conns && s.hub.None? && !s.conns[p].pc.Unserved? && !s.conns[p].pc.Gone?
    ensures !AtRest(s)
  {
    hide Inv, AtRest, Writer, Decode, Wires;
    var P := s.conns[p];
    TheTwo(s, p, p);
    assert !HoldsHub(P.pc);
    if Target(P).Some? {
      var q := Target(P).value;
      TargetIsKnown(s, p, P);
      TheTwo(s, p, q);
      PortLockIsReleased(s, q);
    } else if P.pc.Flooding? && P.todo != [] && s.conns[P.todo[0]].lock.Some? {
      PortLockIsReleased(s, P.todo[0]);
    } else {
      FreeServerMoves(s, p);
    }
  }

  lemma TargetIsKnown(s: State, p: Id, P: Port)
    requires Bystander(s, p, P) && Target(P).Some?
    ensures Target(P).value in s.conns
  {
  }

  lemma WinnerMoves(s: State)
    requires Cut(s) && !Shut(s) && s.accept.Stopped? && AllServersEnded(s)
    ensures !AtRest(s)
  {
    assert Do(s, CloseWait(s.winner.value)).Some?;
  }

  /** Where nothing more can happen, the call of Close that shut the hub has returned. */
  lemma AtRestMeansShut(s: State)
    requires Inv(s) && Cut(s) && AtRest(s)
    ensures Shut(s)
  {
    hide Inv, AtRest, Do, Shut, Cut, Accept;
    if s.hub.Some? {
      HubLockIsReleased(s);
    } else {
      ClosedFacts(s);
      if !s.accept.Stopped? {
        AcceptorMoves(s);
      } else if !AllServersEnded(s) {
        var p :| p in s.conns && !(s.conns[p].pc.Unserved? || s.conns[p].pc.Gone?);
        ServerMoves(s, p);
      } else if !Shut(s) {
        WinnerMoves(s);
      }
    }
  }

  lemma {:induction false} RunLeavesLess(s: State, more: seq<Step>)
    requires Inv(s) && Cut(s) && Run(s, more).Some? && forall i :: 0 <= i < |more| ==> !more[i].CloseCall?
    ensures Inv(Run(s, more).value) && Cut(Run(s, more).value)
    ensures |more| + WorkLeft(Run(s, more).value) <= WorkLeft(s)
    decreases |more|
  {
    hide Inv, Cut, Do, WorkLeft;
    if more != [] {
      var s' := Do(s, more[0]).value;
      StepKeepsInv(s, more[0]);
      CutStays(s, more[0]);
      EveryStepLeavesLess(s, more[0]);
      RunLeavesLess(s', more[1..]);
    }
  }

  /**
   * Close returns. From the moment it has cut the last connection, and unless Close is called again and
   * again, no more than WorkLeft steps can follow in any order, whatever the guests do; and where none can,
   * the call has returned.
   */
  lemma {:induction false} CloseReturns(steps: seq<Step>, s: State, more: seq<Step>, s': State)
    requires Reaches(steps, s) && Cut(s) && Run(s, more) == Some(s')
    requires forall i :: 0 <= i < |more| ==> !more[i].CloseCall?
    ensures |more| <= WorkLeft(s)
    ensures AtRest(s') ==> Shut(s')
  {
    hide Inv, Cut, Do, WorkLeft, AtRest, Shut;
    ReachedInv(steps, s);
    RunLeavesLess(s, more);
    if AtRest(s') {
      AtRestMeansShut(s');
    }
  }
}
