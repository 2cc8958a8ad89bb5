/** What holds of the hub over every interleaving of any number of guests and callers of Close. */
module NetHubRuns {
  import opened Bytes
  import opened HubWire
  import opened NetHub
  import opened NetHubInvariant
  import opened NetHubWrites

  lemma StepKeepsInv(s: State, step: Step)
    requires Inv(s) && Do(s, step).Some?
    ensures Inv(Do(s, step).value)
  {
    hide Inv, DoClose, DoAccept, DoOwn, DoHubLock, DoWrite;
    var s' := Do(s, step).value;
    if step.CloseCall? || step.CloseLock? || step.CloseDecide? || step.CloseListener? || step.CloseConn? || step.CloseWait? {
      CloseKeepsInv(s, step);
    } else if step.AcceptConn? || step.AcceptFail? || step.AcceptLock? || step.AcceptDecide? || step.AcceptClose? {
      AcceptKeepsInv(s, step);
    } else if IsWrite(step) {
      WriteKeepsInv(s, s', step);
    } else if IsHubLock(step) {
      HubLockKeepsInv(s, s', step);
    } else {
      OwnKeepsInv(s, s', step);
    }
  }

  lemma {:induction false} RunKeepsInv(s: State, steps: seq<Step>)
    requires Inv(s) && Run(s, steps).Some?
    ensures Inv(Run(s, steps).value)
    decreases |steps|
  {
    hide Inv, Do;
    if steps != [] {
      StepKeepsInv(s, steps[0]);
      RunKeepsInv(Do(s, steps[0]).value, steps[1..]);
    }
  }

  lemma ReachedInv(steps: seq<Step>, s: State)
    requires Reaches(steps, s)
    ensures Inv(s)
  {
    InitInv();
    RunKeepsInv(INIT, steps);
  }

  // ------------------------------------------------------------------ the streams

  /** The frame bytes that the holder of q's lock has written so far. */
  ghost function InProgress(s: State, q: Id): seq<byte>
    requires q in s.conns
  {
    var lock := s.conns[q].lock;
    if lock.Some? && lock.value in s.conns && s.conns[lock.value].pc.HoldBody? then s.conns[lock.value].hdr else []
  }

  /**
   * A guest reading what the hub wrote to it finds exactly the frames delivered to it, in order. After
   * them comes at most the start of one more; while no write to it has failed, that start is the
   * header written by whoever holds the port's lock.
   */
  lemma PeerDecodes(steps: seq<Step>, s: State, q: Id)
    requires Reaches(steps, s) && q in s.conns
    ensures Decode(s.conns[q].out).0 == Payloads(s.conns[q].log)
    ensures !s.conns[q].broken ==> Decode(s.conns[q].out).1 == InProgress(s, q)
  {
    ReachedInv(steps, s);
    hide Inv, Run;
    var Q := s.conns[q];
    TheTwo(s, q, q);
    hide Pair, Reader, Bystander, Decode, Sent;
    if Q.broken {
      var part :| Torn(part) && Q.out == Sent(Q.log) + part;
      WholeFrames(Q.log, part);
    } else {
      StreamOf(s, q);
      HeaderIsTorn(s, q);
      WholeFrames(Q.log, InProgress(s, q));
    }
  }

  lemma WholeFrames(log: seq<Delivery>, part: seq<byte>)
    requires Torn(part)
    ensures Decode(Sent(log) + part) == (Payloads(log), part)
  {
    DecodeTorn(Payloads(log), part);
  }

  lemma StreamOf(s: State, q: Id)
    requires Inv(s) && q in s.conns && !s.conns[q].broken
    ensures s.conns[q].out == Sent(s.conns[q].log) + InProgress(s, q)
  {
    hide Inv, Sent, Reader, Pair, Writer, Bystander;
    var Q := s.conns[q];
    TheTwo(s, q, q);
    LockInConns(s, q, Q);
    if Q.lock.Some? {
      TheTwo(s, Q.lock.value, q);
      HeldStream(Q.lock.value, s.conns[Q.lock.value], q, Q);
    } else {
      FreeStream(Q);
    }
  }

  lemma LockInConns(s: State, q: Id, Q: Port)
    requires Bystander(s, q, Q)
    ensures Q.lock.Some? ==> Q.lock.value in s.conns
  {
  }

  lemma HeldStream(p: Id, P: Port, q: Id, Q: Port)
    requires Pair(p, P, q, Q) && Q.lock == Some(p) && !Q.broken
    ensures Q.out == Sent(Q.log) + if P.pc.HoldBody? then P.hdr else []
    ensures Target(P) == Some(q)
  {
  }

  lemma FreeStream(Q: Port)
    requires Writer(Q) && Q.lock.None? && !Q.broken
    ensures Q.out == Sent(Q.log) + []
  {
  }

  lemma HeaderIsTorn(s: State, q: Id)
    requires Inv(s) && q in s.conns
    ensures Torn(InProgress(s, q))
  {
    hide Inv, Pair, Writer, Bystander, Wires;
    if InProgress(s, q) != [] {
      TheTwo(s, s.conns[q].lock.value, q);
      assert |InProgress(s, q)| == 4;
    }
  }

  function PayloadsFrom(log: seq<Delivery>, src: Id): seq<Frame> {
    if log == [] then []
    else
      var last := log[|log| - 1];
      PayloadsFrom(log[..|log| - 1], src) + if last.src == src then [last.payload] else []
  }

  lemma {:induction false} PayloadsFromSource(log: seq<Delivery>, src: Id, frames: seq<Frame>)
    requires forall i :: 0 <= i < |log| && log[i].src == src ==> log[i].index < |frames| && frames[log[i].index] == log[i].payload
    ensures |PayloadsFrom(log, src)| == |From(log, src)|
    ensures forall k :: 0 <= k < |From(log, src)| ==>
      From(log, src)[k] < |frames| && PayloadsFrom(log, src)[k] == frames[From(log, src)[k]]
  {
    if log != [] {
      PayloadsFromSource(log[..|log| - 1], src, frames);
    }
  }

  /**
   * What q was given from p are frames that p's guest sent, each once and in the order it sent
   * them; nothing is echoed to its sender. While no write to q has failed, nothing p has passed q
   * with is missing.
   */
  lemma DeliveredInOrder(steps: seq<Step>, s: State, p: Id, q: Id)
    requires Reaches(steps, s) && p in s.conns && q in s.conns
    ensures s.conns[p].frames == Decode(s.conns[p].received).0
    ensures var got := From(s.conns[q].log, p);
      && (forall i, j :: 0 <= i < j < |got| ==> got[i] < got[j])
      && |PayloadsFrom(s.conns[q].log, p)| == |got|
      && (forall k :: 0 <= k < |got| ==>
            got[k] < |s.conns[p].frames| && PayloadsFrom(s.conns[q].log, p)[k] == s.conns[p].frames[got[k]])
      && (p == q ==> got == [])
      && got <= Due(s.conns[p], q)
      && (!s.conns[q].broken ==> got == Due(s.conns[p], q))
  {
    hide Inv, Run, Writer, Bystander, Decode, Wires, Sent, FromBe32, Be32;
    ReachedInv(steps, s);
    var P, Q := s.conns[p], s.conns[q];
    TheTwo(s, p, q);
    PayloadsFromSource(Q.log, p, P.frames);
    if p == q {
      NobodyOwesYet(P.snaps, p);
    }
  }

  // ------------------------------------------------------------------ locks

  /** The step by which the holder of the hub's lock lets go of it. */
  ghost predicate LetsGo(s: State, step: Step) {
    Do(s, step).Some? && Do(s, step).value.hub.None?
  }

  lemma {:induction false} SomeOrder(ids: set<Id>) returns (order: seq<Id>)
    ensures Enumerates(order, ids)
  {
    if ids == {} {
      order := [];
    } else {
      var x :| x in ids;
      var rest := SomeOrder(ids - {x});
      order := rest + [x];
    }
  }

  /**
   * Nobody waits for ever on a lock: no goroutine holds the hub's lock and a port's together,
   * whoever holds the hub's lock can let go of it in one step, and whoever holds a port's lock can
   * take its next step.
   */
  lemma LocksAreReleased(steps: seq<Step>, s: State)
    requires Reaches(steps, s)
    ensures forall p: Id, q :: q in s.conns && s.hub == Some(Server(p)) ==> s.conns[q].lock != Some(p)
    ensures s.hub.Some? ==> exists step :: LetsGo(s, step)
    ensures forall q :: q in s.conns && s.conns[q].lock.Some? ==>
      exists step :: IsWrite(step) && step.p == s.conns[q].lock.value && Do(s, step).Some?
  {
    ReachedInv(steps, s);
    hide Inv, Run, Do;
    forall p: Id, q | q in s.conns && s.hub == Some(Server(p)) ensures s.conns[q].lock != Some(p) {
      NotBoth(s, p, q);
    }
    if s.hub.Some? {
      HubHolderMoves(s);
    }
    forall q | q in s.conns && s.conns[q].lock.Some?
      ensures exists step :: IsWrite(step) && step.p == s.conns[q].lock.value && Do(s, step).Some?
    {
      PortHolderMoves(s, q);
    }
  }

  lemma NotBoth(s: State, p: Id, q: Id)
    requires Inv(s) && q in s.conns && s.hub == Some(Server(p))
    ensures s.conns[q].lock != Some(p)
  {
    hide Reader, Writer, Pair, Accept, Closers, Bystander;
    assert p in s.conns;
    hide Inv;
    TheTwo(s, p, q);
    OneLockEach(s, p, s.conns[p], q, s.conns[q]);
  }

  lemma OneLockEach(s: State, p: Id, P: Port, q: Id, Q: Port)
    requires Bystander(s, p, P) && Pair(p, P, q, Q) && s.hub == Some(Server(p))
    ensures Q.lock != Some(p)
  {
    hide From, Due, Sent;
  }

  lemma HubHolderMoves(s: State)
    requires Inv(s) && s.hub.Some?
    ensures exists step :: LetsGo(s, step)
  {
    hide Reader, Writer, Pair;
    match s.hub.value
    case Acceptor => assert LetsGo(s, AcceptDecide);
    case Closer(c) =>
      var order := SomeOrder(s.ports);
      assert LetsGo(s, CloseDecide(c, order));
    case Server(p) =>
      assert Bystander(s, p, s.conns[p]);
      var order := SomeOrder(s.ports - {p});
      var pc := s.conns[p].pc;
      var step := if pc.DropHeld? then DropUnlock(p) else if pc.SnapHeld? then SnapTake(p, order) else LeaveDelete(p);
      assert LetsGo(s, step);
  }

  lemma PortHolderMoves(s: State, q: Id)
    requires Inv(s) && q in s.conns && s.conns[q].lock.Some?
    ensures exists step :: IsWrite(step) && step.p == s.conns[q].lock.value && Do(s, step).Some?
  {
    hide Inv, Writer, Decode, Wires;
    var Q := s.conns[q];
    var p := Q.lock.value;
    TheTwo(s, q, q);
    var P := s.conns[p];
    TheTwo(s, p, q);
    var step := if P.pc.HoldHdr? then WriteHeader(p, 0) else if P.pc.HoldBody? then WritePayload(p, 0) else PortUnlock(p);
    assert Do(s, step).Some?;
  }

  // ------------------------------------------------------------------ Close

  /** After Close has set `closed` nobody is admitted: the port set stays inside what Close copied. */
  lemma {:induction false} ClosedStaysClosed(steps: seq<Step>, s: State, more: seq<Step>, s': State)
    requires Reaches(steps, s) && s.closed && Run(s, more) == Some(s')
    ensures s'.closed && s'.ports <= s.ports <= s.snapshot && s'.snapshot == s.snapshot
  {
    ReachedInv(steps, s);
    ClosedRun(s, more);
  }

  lemma {:induction false} ClosedRun(s: State, more: seq<Step>)
    requires Inv(s) && s.closed && Run(s, more).Some?
    ensures var s' := Run(s, more).value; s'.closed && s'.ports <= s.ports <= s.snapshot && s'.snapshot == s.snapshot
    decreases |more|
  {
    hide Readers, Writers, Pairs, Bystanders, Accept;
    assert s.ports <= s.snapshot;
    hide Inv;
    if more != [] {
      StepKeepsInv(s, more[0]);
      ClosedStep(s, more[0]);
      ClosedRun(Do(s, more[0]).value, more[1..]);
    }
  }

  lemma ClosedStep(s: State, step: Step)
    requires s.closed && Do(s, step).Some?
    ensures var s' := Do(s, step).value; s'.closed && s'.ports <= s.ports && s'.snapshot == s.snapshot
  {
  }

  /** The call of Close that found the hub open has cut the last connection it copied. */
  predicate Cut(s: State) {
    s.winner.Some? && s.winner.value in s.closers && s.closers[s.winner.value] in {Wait, Returned}
  }

  /** That call has returned. */
  predicate Shut(s: State) {
    Cut(s) && s.closers[s.winner.value].Returned?
  }

  /** Every connection ever accepted and still in the port set is closed once Close stops cutting them. */
  lemma CutOffOrGone(steps: seq<Step>, s: State)
    requires Reaches(steps, s) && Cut(s)
    ensures forall p :: p in s.conns && !s.conns[p].closed ==> p !in s.ports
  {
    ReachedInv(steps, s);
  }

  /** Close returns to an empty hub: every connection closed, every goroutine gone, every lock free. */
  lemma ClosedHubIsEmpty(steps: seq<Step>, s: State)
    requires Reaches(steps, s) && Shut(s)
    ensures s.accept.Stopped? && AllServersEnded(s)
    ensures s.ports == {}
    ensures forall p :: p in s.conns ==> s.conns[p].closed && s.conns[p].lock.None?
  {
    ReachedInv(steps, s);
    assert s.accept.Stopped? && AllServersEnded(s) && s.ports <= s.conns.Keys;
    hide Inv, Run, Reader, Writer, Pair, Bystander;
    forall p | p in s.conns ensures p !in s.ports && s.conns[p].closed && s.conns[p].lock.None? {
      TheTwo(s, p, p);
      EndedPort(s, p, s.conns[p]);
      if s.conns[p].lock.Some? {
        TheTwo(s, s.conns[p].lock.value, p);
        NoTarget(s.conns[p].lock.value, s.conns[s.conns[p].lock.value], p, s.conns[p]);
      }
    }
  }

  lemma EndedPort(s: State, p: Id, P: Port)
    requires Bystander(s, p, P) && s.accept.Stopped? && (P.pc.Unserved? || P.pc.Gone?)
    ensures p !in s.ports && P.closed && (P.lock.Some? ==> P.lock.value in s.conns)
  {
  }

  lemma NoTarget(p: Id, P: Port, q: Id, Q: Port)
    requires Pair(p, P, q, Q) && (P.pc.Unserved? || P.pc.Gone?)
    ensures Q.lock != Some(p)
  {
  }

  /** Any later Close only takes the lock and gives it back. */
  lemma SecondCloseChangesNothing(steps: seq<Step>, s: State, step: Step, c: Id, s': State)
    requires Reaches(steps, s) && s.closed && s.winner != Some(c) && Do(s, step) == Some(s')
    requires step.CloseCall? || step.CloseLock? || step.CloseDecide? || step.CloseListener? || step.CloseConn? || step.CloseWait?
    requires step.c == c
    ensures s' == s.(closers := s'.closers, hub := s'.hub) && s'.closers == s.closers[c := s'.closers[c]]
    ensures s'.closers[c] in {Want, ClosePc.Held, Returned}
  {
    hide Readers, Writers, Pairs, Bystanders, Accept, Run, DoAccept, DoServe, Enumerates, AllServersEnded;
    ReachedInv(steps, s);
  }
}
