/** Who is given what: the hub's delivery, told by the port sets of the states a run goes through. */
module NetHubDelivery {
  import opened Bytes
  import opened HubWire
  import opened NetHub
  import opened NetHubInvariant
  import opened NetHubWrites
  import opened NetHubRuns

  // ------------------------------------------------------------------ the states of a run

  ghost function StateAt(s: State, steps: seq<Step>, i: nat): State
    requires i <= |steps| && Run(s, steps).Some?
    decreases i
  {
    if i == 0 then s else StateAt(Do(s, steps[0]).value, steps[1..], i - 1)
  }

  lemma {:induction false} LastState(s: State, steps: seq<Step>)
    requires Run(s, steps).Some?
    ensures StateAt(s, steps, |steps|) == Run(s, steps).value
    decreases |steps|
  {
    hide Do;
    if steps != [] {
      LastState(Do(s, steps[0]).value, steps[1..]);
    }
  }

  /** q is in the port set of every state that the run goes through. */
  ghost predicate AlwaysIn(s: State, steps: seq<Step>, q: Id)
    requires Run(s, steps).Some?
  {
    forall i :: 0 <= i <= |steps| ==> q in StateAt(s, steps, i).ports
  }

  /** q is in the port set of every state in whose port set p is. */
  ghost predicate InWhenever(s: State, steps: seq<Step>, p: Id, q: Id)
    requires Run(s, steps).Some?
  {
    forall i :: 0 <= i <= |steps| ==> p in StateAt(s, steps, i).ports ==> q in StateAt(s, steps, i).ports
  }

  lemma AlwaysInTail(s: State, steps: seq<Step>, q: Id)
    requires steps != [] && Run(s, steps).Some? && AlwaysIn(s, steps, q)
    ensures q in s.ports && AlwaysIn(Do(s, steps[0]).value, steps[1..], q)
  {
    hide Do;
    var s', rest := Do(s, steps[0]).value, steps[1..];
    assert StateAt(s, steps, 0) == s;
    forall i | 0 <= i <= |rest| ensures q in StateAt(s', rest, i).ports {
      assert StateAt(s, steps, i + 1) == StateAt(s', rest, i);
    }
  }

  lemma InWheneverTail(s: State, steps: seq<Step>, p: Id, q: Id)
    requires steps != [] && Run(s, steps).Some? && InWhenever(s, steps, p, q)
    ensures (p in s.ports ==> q in s.ports) && InWhenever(Do(s, steps[0]).value, steps[1..], p, q)
  {
    hide Do;
    var s', rest := Do(s, steps[0]).value, steps[1..];
    assert StateAt(s, steps, 0) == s;
    forall i | 0 <= i <= |rest| && p in StateAt(s', rest, i).ports ensures q in StateAt(s', rest, i).ports {
      assert StateAt(s, steps, i + 1) == StateAt(s', rest, i);
    }
  }

  // ------------------------------------------------------------------ what a step does to a port's own reading

  /** A step of the goroutine that serves p. */
  predicate ServesOf(step: Step, p: Id) {
    match step
    case ReadHeader(r, _) => r == p
    case ReadPayload(r, _) => r == p
    case ReadFail(r) => r == p
    case DropLock(r) => r == p
    case DropUnlock(r) => r == p
    case SnapLock(r) => r == p
    case SnapTake(r, _) => r == p
    case FloodEnd(r) => r == p
    case PortLock(r) => r == p
    case WriteHeader(r, _) => r == p
    case WritePayload(r, _) => r == p
    case PortUnlock(r) => r == p
    case LeaveLock(r) => r == p
    case LeaveDelete(r) => r == p
    case LeaveClose(r) => r == p
    case _ => false
  }

  /** The two ports agree on everything their goroutine reads and queues. */
  predicate SameReading(P: Port, P': Port) {
    P'.frames == P.frames && P'.snaps == P.snaps && P'.todo == P.todo && P'.pc == P.pc
  }

  predicate IsAcceptStep(step: Step) {
    step.AcceptConn? || step.AcceptFail? || step.AcceptLock? || step.AcceptDecide? || step.AcceptClose?
  }

  predicate IsCloseStep(step: Step) {
    step.CloseCall? || step.CloseLock? || step.CloseDecide? || step.CloseListener? || step.CloseConn? || step.CloseWait?
  }

  lemma AcceptKeepsReading(s: State, step: Step, p: Id)
    requires IsAcceptStep(step) && DoAccept(s, step).Some? && p in s.conns
    ensures p in DoAccept(s, step).value.conns
    ensures step != AcceptDecide || s.accept != Admitting(p) ==> SameReading(s.conns[p], DoAccept(s, step).value.conns[p])
  {
  }

  lemma CloseKeepsReading(s: State, step: Step, p: Id)
    requires IsCloseStep(step) && DoClose(s, step).Some? && p in s.conns
    ensures p in DoClose(s, step).value.conns && SameReading(s.conns[p], DoClose(s, step).value.conns[p])
  {
    hide Enumerates, AllServersEnded;
  }

  lemma EffectKeepsReading(step: Step, p: Id, P: Port, P': Port, q: Id, Q: Port, Q': Port)
    requires Effect(step, p, P, P', q, Q, Q')
    ensures SameReading(Q, Q')
  {
    hide CanWrite, Torn;
  }

  lemma ServeKeepsReading(s: State, step: Step, p: Id)
    requires !IsAcceptStep(step) && !IsCloseStep(step) && DoServe(s, step).Some? && p in s.conns && step.p != p
    ensures p in DoServe(s, step).value.conns && SameReading(s.conns[p], DoServe(s, step).value.conns[p])
  {
    var s' := DoServe(s, step).value;
    if IsWrite(step) {
      hide DoServe, Effect, SameReading;
      var q := On(s.conns[step.p], step);
      WriteEffect(s, s', step, q);
      EffectKeepsReading(step, step.p, s.conns[step.p], s'.conns[step.p], q, s.conns[q], s'.conns[q]);
      if p != q {
        Unchanged(s.conns[p]);
      }
    } else {
      hide DoOwn, Enumerates, DoWrite;
    }
  }

  lemma Unchanged(P: Port)
    ensures SameReading(P, P)
  {
  }

  /** No other goroutine touches what p reads and queues, but to admit it. */
  lemma OthersKeepReading(s: State, step: Step, p: Id)
    requires Do(s, step).Some? && p in s.conns && !ServesOf(step, p) && s.accept != Admitting(p)
    ensures p in Do(s, step).value.conns && SameReading(s.conns[p], Do(s, step).value.conns[p])
  {
    hide DoAccept, DoClose, DoServe, SameReading;
    if IsAcceptStep(step) {
      AcceptKeepsReading(s, step, p);
    } else if IsCloseStep(step) {
      CloseKeepsReading(s, step, p);
    } else {
      ServeKeepsReading(s, step, p);
    }
  }

  /** The one step that grows a port's copies records the port set as it stands, without the port itself. */
  lemma OwnSnaps(s: State, step: Step, p: Id)
    requires Do(s, step).Some? && p in s.conns && ServesOf(step, p)
    ensures p in Do(s, step).value.conns
    ensures var P, P' := s.conns[p], Do(s, step).value.conns[p];
      if step.SnapTake? then P.pc.SnapHeld? && P'.pc.Flooding? && P'.snaps == P.snaps + [s.ports - {p}] && P'.frames == P.frames
      else P'.snaps == P.snaps && !P.pc.SnapHeld? && (P'.pc.SnapHeld? <==> P.pc.SnapWant?)
  {
    hide Enumerates, FromBe32, CanWrite;
  }

  /** Frames are read one by one, and only into a port that then copies the port set. */
  lemma OwnFrames(s: State, step: Step, p: Id)
    requires Do(s, step).Some? && p in s.conns && ServesOf(step, p)
    ensures p in Do(s, step).value.conns
    ensures var P, P' := s.conns[p], Do(s, step).value.conns[p];
      if step.ReadPayload? then P.pc.ReadBody? && P'.pc.SnapWant? && P'.frames == P.frames + [step.buf] && P'.todo == P.todo
      else P'.frames == P.frames && !P'.pc.SnapWant?
  {
    hide Enumerates, FromBe32, CanWrite;
  }

  lemma StepKeepsBroken(s: State, step: Step, q: Id)
    requires Do(s, step).Some? && q in s.conns && s.conns[q].broken
    ensures q in Do(s, step).value.conns && Do(s, step).value.conns[q].broken
  {
    hide Enumerates, FromBe32, AllServersEnded, CanWrite;
  }

  // ------------------------------------------------------------------ one frame

  /** p has read buf, and has copied the port set since, with q in it, unless it has yet to do so. */
  predicate CopiedFor(P: Port, frames: seq<Frame>, snaps: seq<set<Id>>, q: Id) {
    && P.frames == frames && !P.pc.Unserved?
    && if P.pc.SnapWant? || P.pc.SnapHeld? then P.snaps == snaps
       else |P.snaps| == |snaps| + 1 && P.snaps[..|snaps|] == snaps && q in P.snaps[|snaps|]
  }

  lemma OwnKeepsCopied(P: Port, P': Port, step: Step, snap: set<Id>, q: Id, frames: seq<Frame>, snaps: seq<set<Id>>)
    requires CopiedFor(P, frames, snaps, q) && q in snap && !P'.pc.Unserved? && P'.frames == P.frames && !P'.pc.SnapWant?
    requires
      if step.SnapTake? then P.pc.SnapHeld? && P'.pc.Flooding? && P'.snaps == P.snaps + [snap]
      else P'.snaps == P.snaps && !P.pc.SnapHeld? && (P'.pc.SnapHeld? <==> P.pc.SnapWant?)
    ensures CopiedFor(P', frames, snaps, q)
  {
  }

  lemma SameKeepsCopied(P: Port, P': Port, q: Id, frames: seq<Frame>, snaps: seq<set<Id>>)
    requires CopiedFor(P, frames, snaps, q) && SameReading(P, P')
    ensures CopiedFor(P', frames, snaps, q)
  {
  }

  lemma StepKeepsCopied(s: State, step: Step, p: Id, q: Id, frames: seq<Frame>, snaps: seq<set<Id>>)
    requires Inv(s) && Do(s, step).Some? && p in s.conns && q in s.ports && q != p
    requires CopiedFor(s.conns[p], frames, snaps, q) && !(step.ReadPayload? && step.p == p)
    ensures p in Do(s, step).value.conns && CopiedFor(Do(s, step).value.conns[p], frames, snaps, q)
  {
    hide Do, Inv, SameReading;
    assert !s.conns[p].pc.Unserved?;
    hide CopiedFor;
    if ServesOf(step, p) {
      OwnSnaps(s, step, p);
      OwnFrames(s, step, p);
      StaysServed(s, step, p);
      OwnKeepsCopied(s.conns[p], Do(s, step).value.conns[p], step, s.ports - {p}, q, frames, snaps);
    } else {
      AdmitsUnserved(s, p);
      OthersKeepReading(s, step, p);
      SameKeepsCopied(s.conns[p], Do(s, step).value.conns[p], q, frames, snaps);
    }
  }

  lemma AdmitsUnserved(s: State, p: Id)
    requires Inv(s) && p in s.conns && !s.conns[p].pc.Unserved?
    ensures s.accept != Admitting(p)
  {
    hide Readers, Writers, Pairs, Bystanders, Closers;
  }

  lemma StaysServed(s: State, step: Step, p: Id)
    requires Do(s, step).Some? && p in s.conns && ServesOf(step, p) && !s.conns[p].pc.Unserved?
    ensures p in Do(s, step).value.conns && !Do(s, step).value.conns[p].pc.Unserved?
  {
    hide Enumerates, FromBe32, CanWrite;
  }

  lemma {:induction false} RunKeepsCopied(s: State, steps: seq<Step>, p: Id, q: Id, frames: seq<Frame>, snaps: seq<set<Id>>)
    requires Inv(s) && Run(s, steps).Some? && p in s.conns && q != p && AlwaysIn(s, steps, q)
    requires CopiedFor(s.conns[p], frames, snaps, q)
    requires forall i :: 0 <= i < |steps| ==> !(steps[i].ReadPayload? && steps[i].p == p)
    ensures p in Run(s, steps).value.conns && CopiedFor(Run(s, steps).value.conns[p], frames, snaps, q)
    decreases |steps|
  {
    hide Inv, Do, CopiedFor, AlwaysIn;
    if steps != [] {
      AlwaysInTail(s, steps, q);
      StepKeepsInv(s, steps[0]);
      StepKeepsCopied(s, steps[0], p, q, frames, snaps);
      RunKeepsCopied(Do(s, steps[0]).value, steps[1..], p, q, frames, snaps);
    }
  }

  lemma {:induction false} UnbrokenBefore(s: State, steps: seq<Step>, q: Id)
    requires Run(s, steps).Some? && q in s.conns && s.conns[q].broken
    ensures q in Run(s, steps).value.conns && Run(s, steps).value.conns[q].broken
    decreases |steps|
  {
    hide Do;
    if steps != [] {
      StepKeepsBroken(s, steps[0], q);
      UnbrokenBefore(Do(s, steps[0]).value, steps[1..], q);
    }
  }

  /** What q has been given from p, when no write to q failed and p is not flooding. */
  lemma GivenExactly(s: State, p: Id, q: Id)
    requires Inv(s) && p in s.conns && q in s.conns && !s.conns[q].broken && s.conns[p].todo == []
    ensures From(s.conns[q].log, p) == Owed(s.conns[p].snaps, q)
    ensures |PayloadsFrom(s.conns[q].log, p)| == |Owed(s.conns[p].snaps, q)|
    ensures forall k :: 0 <= k < |Owed(s.conns[p].snaps, q)| ==>
      Owed(s.conns[p].snaps, q)[k] < |s.conns[p].frames| &&
      PayloadsFrom(s.conns[q].log, p)[k] == s.conns[p].frames[Owed(s.conns[p].snaps, q)[k]]
  {
    hide Inv, Reader, Writer, Bystander, Owed, Sent;
    TheTwo(s, p, q);
    PayloadsFromSource(s.conns[q].log, p, s.conns[p].frames);
  }

  lemma ReadingQueuesNothing(s: State, p: Id)
    requires Inv(s) && p in s.conns && (s.conns[p].pc.ReadHdr? || s.conns[p].pc.ReadBody?)
    ensures s.conns[p].todo == [] && |s.conns[p].snaps| == |s.conns[p].frames|
  {
    hide Inv, Writer, Bystander, Pair, Decode, Wires, FromBe32;
    TheTwo(s, p, p);
  }

  lemma PortIsKnown(s: State, q: Id)
    requires Inv(s) && q in s.ports
    ensures q in s.conns
  {
    hide Readers, Writers, Pairs, Accept, Closers, Bystander;
  }

  /** One more frame, owed to q. */
  lemma OneMoreOwed(snaps: seq<set<Id>>, snap: set<Id>, q: Id, frames: seq<Frame>, buf: Frame, before: seq<Frame>, after: seq<Frame>)
    requires q in snap && |snaps| == |frames|
    requires |before| == |Owed(snaps, q)| && |after| == |Owed(snaps + [snap], q)|
    requires forall k :: 0 <= k < |before| ==> before[k] == frames[Owed(snaps, q)[k]]
    requires forall k :: 0 <= k < |after| ==> after[k] == (frames + [buf])[Owed(snaps + [snap], q)[k]]
    ensures after == before + [buf]
  {
    OwedSnoc(snaps, snap, q);
    hide Owed;
    var o := Owed(snaps, q);
    assert Owed(snaps + [snap], q) == o + [|snaps|];
    forall k | 0 <= k < |before| ensures after[k] == before[k] {
      assert (o + [|snaps|])[k] == o[k];
    }
  }

  /**
   * A frame that p's guest sends reaches every other port: if q is in the port set of every state from the
   * read of the payload on until p is back to reading, and no write to q has failed, then q has been given
   * exactly that frame from p in the meantime, once.
   */
  lemma FrameIsDelivered(steps: seq<Step>, s: State, p: Id, buf: seq<byte>, more: seq<Step>, s': State, q: Id)
    requires Reaches(steps, s) && p in s.conns && q != p
    requires more != [] && more[0] == ReadPayload(p, buf) && Run(s, more) == Some(s') && AlwaysIn(s, more, q)
    requires forall i :: 1 <= i < |more| ==> !(more[i].ReadPayload? && more[i].p == p)
    requires p in s'.conns && s'.conns[p].pc.ReadHdr?
    requires q in s'.conns && !s'.conns[q].broken
    ensures q in s.conns && 0 < |buf| <= MAX_FRAME
    ensures PayloadsFrom(s'.conns[q].log, p) == PayloadsFrom(s.conns[q].log, p) + [buf]
  {
    hide Inv, Do, AlwaysIn, Owed, PayloadsFrom, CopiedFor;
    ReachedInv(steps, s);
    AlwaysInTail(s, more, q);
    PortIsKnown(s, q);
    if s.conns[q].broken {
      UnbrokenBefore(s, more, q);
    }
    var s1 := Do(s, more[0]).value;
    PayloadIsRead(s, p, buf);
    StepKeepsInv(s, more[0]);
    var P, P' := s.conns[p], s'.conns[p];
    ReadingQueuesNothing(s, p);
    RunKeepsCopied(s1, more[1..], p, q, P.frames + [buf], P.snaps);
    RunKeepsInv(s, more);
    ReadingQueuesNothing(s', p);
    GivenExactly(s, p, q);
    GivenExactly(s', p, q);
    CopiedAtRest(P', P.frames + [buf], P.snaps, q);
    var snap := P'.snaps[|P.snaps|];
    assert P'.snaps == P.snaps + [snap];
    OneMoreOwed(P.snaps, snap, q, P.frames, buf, PayloadsFrom(s.conns[q].log, p), PayloadsFrom(s'.conns[q].log, p));
  }

  lemma CopiedAtRest(P: Port, frames: seq<Frame>, snaps: seq<set<Id>>, q: Id)
    requires CopiedFor(P, frames, snaps, q) && P.pc.ReadHdr?
    ensures P.frames == frames && |P.snaps| == |snaps| + 1 && P.snaps[..|snaps|] == snaps && q in P.snaps[|snaps|]
  {
  }

  lemma PayloadIsRead(s: State, p: Id, buf: seq<byte>)
    requires Do(s, ReadPayload(p, buf)).Some? && p in s.conns
    ensures 0 < |buf| <= MAX_FRAME && s.conns[p].pc.ReadBody?
    ensures var s1 := Do(s, ReadPayload(p, buf)).value;
      p in s1.conns && forall q :: CopiedFor(s1.conns[p], s.conns[p].frames + [buf], s.conns[p].snaps, q)
  {
  }

  // ------------------------------------------------------------------ all frames

  predicate AllHold(snaps: seq<set<Id>>, q: Id) {
    forall i :: 0 <= i < |snaps| ==> q in snaps[i]
  }

  lemma AcceptKeepsSnaps(s: State, step: Step, p: Id)
    requires Do(s, step).Some? && p in s.conns && s.accept == Admitting(p) && !ServesOf(step, p)
    ensures p in Do(s, step).value.conns && Do(s, step).value.conns[p].snaps == s.conns[p].snaps
  {
    hide DoAccept, DoClose, DoServe;
    if IsAcceptStep(step) {
      AdmitKeepsSnaps(s, step, p);
    } else if IsCloseStep(step) {
      CloseKeepsReading(s, step, p);
    } else {
      ServeKeepsReading(s, step, p);
    }
  }

  lemma AdmitKeepsSnaps(s: State, step: Step, p: Id)
    requires IsAcceptStep(step) && DoAccept(s, step).Some? && p in s.conns
    ensures p in DoAccept(s, step).value.conns && DoAccept(s, step).value.conns[p].snaps == s.conns[p].snaps
  {
  }

  lemma StepKeepsAllHold(s: State, step: Step, p: Id, q: Id)
    requires Inv(s) && Do(s, step).Some? && p != q && (p in s.ports ==> q in s.ports)
    requires p in s.conns ==> AllHold(s.conns[p].snaps, q)
    ensures p in Do(s, step).value.conns ==> AllHold(Do(s, step).value.conns[p].snaps, q)
  {
    hide Do, Inv, AllHold, ServesOf;
    if p in s.conns {
      if ServesOf(step, p) {
        OwnSnaps(s, step, p);
        if step.SnapTake? {
          HolderIsIn(s, p);
          OneMoreHolds(s.conns[p].snaps, s.ports - {p}, q);
        }
      } else if s.accept == Admitting(p) {
        AcceptKeepsSnaps(s, step, p);
      } else {
        OthersKeepReading(s, step, p);
      }
    } else if p in Do(s, step).value.conns {
      NewPortIsEmpty(s, step, p);
      NothingHolds(q);
    }
  }

  lemma OneMoreHolds(snaps: seq<set<Id>>, snap: set<Id>, q: Id)
    requires AllHold(snaps, q) && q in snap
    ensures AllHold(snaps + [snap], q)
  {
  }

  lemma NothingHolds(q: Id)
    ensures AllHold([], q)
  {
  }

  lemma HolderIsIn(s: State, p: Id)
    requires Inv(s) && p in s.conns && s.conns[p].pc.SnapHeld?
    ensures p in s.ports
  {
    hide Readers, Writers, Pairs, Accept, Closers;
    assert Bystander(s, p, s.conns[p]);
  }

  lemma NewPortIsEmpty(s: State, step: Step, p: Id)
    requires Do(s, step).Some? && p !in s.conns && p in Do(s, step).value.conns
    ensures Do(s, step).value.conns[p].snaps == []
  {
    hide Enumerates, FromBe32, AllServersEnded, CanWrite;
  }

  lemma {:induction false} RunKeepsAllHold(s: State, steps: seq<Step>, p: Id, q: Id)
    requires Inv(s) && Run(s, steps).Some? && p != q && InWhenever(s, steps, p, q)
    requires p in s.conns ==> AllHold(s.conns[p].snaps, q)
    ensures p in Run(s, steps).value.conns ==> AllHold(Run(s, steps).value.conns[p].snaps, q)
    decreases |steps|
  {
    hide Inv, Do, InWhenever, AllHold;
    if steps != [] {
      InWheneverTail(s, steps, p, q);
      StepKeepsInv(s, steps[0]);
      StepKeepsAllHold(s, steps[0], p, q);
      RunKeepsAllHold(Do(s, steps[0]).value, steps[1..], p, q);
    }
  }

  /**
   * A port that was in the port set whenever p was, and to which no write has failed, has been given all the
   * frames that p's guest sent as soon as p is back to reading: exactly those, once each and in order.
   */
  lemma EveryFrameArrives(steps: seq<Step>, s: State, p: Id, q: Id)
    requires Reaches(steps, s) && p in s.conns && q in s.conns && p != q && !s.conns[q].broken
    requires s.conns[p].pc.ReadHdr? && InWhenever(INIT, steps, p, q)
    ensures PayloadsFrom(s.conns[q].log, p) == Decode(s.conns[p].received).0
  {
    hide Inv, InWhenever, Decode, PayloadsFrom, Run;
    ReachedInv(steps, s);
    InitInv();
    RunKeepsAllHold(INIT, steps, p, q);
    DeliveredInOrder(steps, s, p, q);
    ReadingQueuesNothing(s, p);
    GivenExactly(s, p, q);
    OwedEverything(s.conns[p].snaps, q);
    assert Owed(s.conns[p].snaps, q) == seq(|s.conns[p].frames|, i => i);
  }

  // ------------------------------------------------------------------ nothing is refused that should not be

  /** A guest accepted while the hub is open is admitted: it is in the port set, and served. */
  lemma OpenHubAdmits(s: State, p: Id)
    requires s.accept == Admitting(p) && p in s.conns && !s.closed
    ensures Do(s, AcceptDecide).Some?
    ensures var s' := Do(s, AcceptDecide).value;
      s'.ports == s.ports + {p} && s'.conns[p].pc.ReadHdr? && s'.accept.Accepting? && s'.hub.None?
  {
  }

  /** A frame of 1 to 131072 bytes, and no other length, is read and not dropped. */
  lemma LegalFramesAreRead(s: State, p: Id, n: nat, buf: seq<byte>)
    requires p in s.conns && s.conns[p].pc.ReadHdr? && !s.conns[p].closed && n < TWO_32
    ensures Do(s, ReadHeader(p, Be32(n))).Some?
    ensures var P := Do(s, ReadHeader(p, Be32(n))).value.conns[p];
      (P.pc.ReadBody? <==> 1 <= n <= 131072) && (P.pc.DropWant? <==> !(1 <= n <= 131072))
    ensures var s1 := Do(s, ReadHeader(p, Be32(n))).value;
      1 <= n <= 131072 && |buf| == n ==>
        Do(s1, ReadPayload(p, buf)).Some? && Do(s1, ReadPayload(p, buf)).value.conns[p].frames == s.conns[p].frames + [buf]
  {
    hide Be32, FromBe32;
    Be32RoundTrip(n);
  }

  /** The four steps that serve the next port of a copy. */
  function ServeNext(p: Id, n: nat): seq<Step> {
    [PortLock(p), WriteHeader(p, 4), WritePayload(p, n), PortUnlock(p)]
  }

  lemma TakesTheLock(s: State, p: Id, q: Id)
    requires p in s.conns && q in s.conns && p != q && s.conns[p].pc.Flooding? && s.conns[p].todo != [] && s.conns[p].todo[0] == q
    requires s.conns[q].lock.None?
    ensures Do(s, PortLock(p)) ==
      Some(s.(conns := s.conns[p := s.conns[p].(pc := HoldHdr)][q := s.conns[q].(lock := Some(p))]))
  {
  }

  lemma WritesTheHeader(s: State, p: Id, q: Id)
    requires p in s.conns && q in s.conns && p != q && s.conns[p].pc.HoldHdr? && s.conns[p].todo != [] && s.conns[p].todo[0] == q
    requires CanWrite(s.conns[q]) && |s.conns[p].hdr| == 4
    ensures Do(s, WriteHeader(p, 4)) ==
      Some(s.(conns := s.conns[p := s.conns[p].(pc := HoldBody)][q := s.conns[q].(out := s.conns[q].out + s.conns[p].hdr)]))
  {
    assert s.conns[p].hdr[..4] == s.conns[p].hdr;
  }

  lemma WritesThePayload(s: State, p: Id, q: Id)
    requires p in s.conns && q in s.conns && p != q && s.conns[p].pc.HoldBody? && s.conns[p].todo != [] && s.conns[p].todo[0] == q
    requires CanWrite(s.conns[q]) && s.conns[p].frames != []
    ensures Do(s, WritePayload(p, |s.conns[p].buf|)).Some?
    ensures var P, Q, s' := s.conns[p], s.conns[q], Do(s, WritePayload(p, |s.conns[p].buf|)).value;
      && p in s'.conns && q in s'.conns
      && s'.conns[p] == P.(pc := HoldDone(q), todo := P.todo[1..])
      && s'.conns[q] == Q.(out := Q.out + P.buf, log := s'.conns[q].log)
  {
    assert s.conns[p].buf[..|s.conns[p].buf|] == s.conns[p].buf;
  }

  lemma ReleasesTheLock(s: State, p: Id, q: Id)
    requires p in s.conns && q in s.conns && p != q && s.conns[p].pc == HoldDone(q)
    ensures Do(s, PortUnlock(p)) ==
      Some(s.(conns := s.conns[p := s.conns[p].(pc := Flooding)][q := s.conns[q].(lock := None)]))
  {
  }

  /**
   * A port whose lock is free and whose connection works can be served: four steps put the frame's length,
   * big-endian, and then its bytes on the connection, and leave the lock free.
   */
  lemma NextPortCanBeServed(s: State, p: Id, q: Id)
    requires Inv(s) && p in s.conns && s.conns[p].pc.Flooding? && s.conns[p].todo != [] && s.conns[p].todo[0] == q
    requires q in s.conns && s.conns[q].lock.None? && CanWrite(s.conns[q])
    ensures var n := |s.conns[p].buf|;
      && Run(s, ServeNext(p, n)).Some?
      && var s' := Run(s, ServeNext(p, n)).value;
         && p in s'.conns && q in s'.conns
         && s'.conns[q].out == s.conns[q].out + Be32(n) + s.conns[p].buf
         && s'.conns[q].lock.None? && !s'.conns[q].broken
         && s'.conns[p].pc.Flooding? && s'.conns[p].todo == s.conns[p].todo[1..]
  {
    hide Inv, Do, Run;
    var n := |s.conns[p].buf|;
    FloodingKnows(s, p);
    TakesTheLock(s, p, q);
    var s1 := Do(s, PortLock(p)).value;
    WritesTheHeader(s1, p, q);
    var s2 := Do(s1, WriteHeader(p, 4)).value;
    WritesThePayload(s2, p, q);
    var s3 := Do(s2, WritePayload(p, n)).value;
    ReleasesTheLock(s3, p, q);
    RunOne(s3, PortUnlock(p), []);
    RunOne(Do(s3, PortUnlock(p)).value, PortUnlock(p), []);
    RunOne(s2, WritePayload(p, n), [PortUnlock(p)]);
    RunOne(s1, WriteHeader(p, 4), [WritePayload(p, n), PortUnlock(p)]);
    RunOne(s, PortLock(p), [WriteHeader(p, 4), WritePayload(p, n), PortUnlock(p)]);
    assert [PortUnlock(p)] + [] == [PortUnlock(p)];
    assert [WritePayload(p, n)] + [PortUnlock(p)] == [WritePayload(p, n), PortUnlock(p)];
    assert [WriteHeader(p, 4)] + [WritePayload(p, n), PortUnlock(p)] == [WriteHeader(p, 4), WritePayload(p, n), PortUnlock(p)];
    assert [PortLock(p)] + [WriteHeader(p, 4), WritePayload(p, n), PortUnlock(p)] == ServeNext(p, n);
  }

  lemma FloodingKnows(s: State, p: Id)
    requires Inv(s) && p in s.conns && s.conns[p].pc.Flooding?
    ensures var P := s.conns[p]; P.hdr == Be32(|P.buf|) && P.frames != [] && p !in P.todo
  {
    hide Writer, Pair, Bystander, Decode, Wires, Sent, Accept, Closers;
    assert Reader(p, s.conns[p]);
  }

  lemma RunOne(s: State, step: Step, rest: seq<Step>)
    ensures Do(s, step).Some? ==> Run(s, [step] + rest) == Run(Do(s, step).value, rest)
    ensures Run(s, []) == Some(s)
  {
    hide Do;
    assert ([step] + rest)[1..] == rest;
  }
}
