/** The steps of flood that write to another port. */
module NetHubWrites {
  import opened Bytes
  import opened HubWire
  import opened NetHub
  import opened NetHubInvariant

  predicate IsWrite(step: Step) {
    step.PortLock? || step.WriteHeader? || step.WritePayload? || step.PortUnlock?
  }

  /** The port a write step works on. */
  function On(P: Port, step: Step): Id {
    if step.PortUnlock? && P.pc.HoldDone? then P.pc.target else if P.todo != [] then P.todo[0] else 0
  }

  /** p's goroutine moved from P to P' and changed port q from Q to Q'. */
  ghost predicate Moves(p: Id, P: Port, P': Port, q: Id, Q: Port, Q': Port) {
    && p != q
    // seen as a port that is written to, p is as it was; seen as a source, q is
    && P'.log == P.log && P'.out == P.out && P'.lock == P.lock && P'.broken == P.broken
    && Q'.todo == Q.todo && Q'.snaps == Q.snaps && Q'.frames == Q.frames && Q'.pc == Q.pc && Q'.hdr == Q.hdr
    // p's goroutine deals with no port but q
    && P'.snaps == P.snaps && P'.frames == P.frames
    && (forall b :: b != q ==> (b in P'.todo <==> b in P.todo))
    && Target(P) in {None, Some(q)} && Target(P') in {None, Some(q)}
    && Q.lock in {None, Some(p)} && Q'.lock in {None, Some(p)}
    && (Q.broken ==> Q'.broken)
    && (Q'.log == Q.log || exists d: Delivery :: d.src == p && Q'.log == Q.log + [d])
    && Pair(p, P', q, Q')
  }

  lemma MovesSource(p: Id, P: Port, P': Port, q: Id, Q: Port, Q': Port, b: Id, B: Port)
    requires Moves(p, P, P', q, Q, Q') && b != q && Pair(p, P, b, B)
    ensures Pair(p, P', b, B)
  {
  }

  lemma MovesAsTarget(p: Id, P: Port, P': Port, q: Id, Q: Port, Q': Port, a: Id, A: Port)
    requires Moves(p, P, P', q, Q, Q') && Pair(a, A, p, P)
    ensures Pair(a, A, p, P')
  {
  }

  lemma MovesTarget(p: Id, P: Port, P': Port, q: Id, Q: Port, Q': Port, a: Id, A: Port)
    requires Moves(p, P, P', q, Q, Q') && a != p && Pair(a, A, q, Q)
    ensures Pair(a, A, q, Q')
  {
    if Q'.log != Q.log {
      var d: Delivery :| d.src == p && Q'.log == Q.log + [d];
      FromSnoc(Q.log, d, a);
    }
  }

  lemma MovesAsSource(p: Id, P: Port, P': Port, q: Id, Q: Port, Q': Port, b: Id, B: Port)
    requires Moves(p, P, P', q, Q, Q') && Pair(q, Q, b, B)
    ensures Pair(q, Q', b, B)
  {
  }

  ghost predicate OnlyTwo(s: State, s': State, p: Id, q: Id) {
    && p in s.conns && q in s.conns && s'.conns.Keys == s.conns.Keys
    && forall r :: r in s.conns && r != p && r != q ==> s'.conns[r] == s.conns[r]
  }

  lemma MovesKeepPairs(s: State, s': State, p: Id, q: Id)
    requires Pairs(s) && OnlyTwo(s, s', p, q) && Moves(p, s.conns[p], s'.conns[p], q, s.conns[q], s'.conns[q])
    ensures Pairs(s')
  {
    var P, P', Q, Q' := s.conns[p], s'.conns[p], s.conns[q], s'.conns[q];
    assert p != q && Pair(p, P', q, Q');
    hide Pair, Moves;
    forall a, b | a in s'.conns && b in s'.conns ensures Pair(a, s'.conns[a], b, s'.conns[b]) {
      var A, B := s.conns[a], s.conns[b];
      assert Pair(a, A, b, B);
      if b == q && a != p { MovesTarget(p, P, P', q, Q, Q', a, A); }
      if b == p { MovesAsTarget(p, P, P', q, Q, Q', a, A); }
      if a == p && b != q { MovesSource(p, P, P', q, Q, Q', b, s'.conns[b]); }
      if a == q { MovesAsSource(p, P, P', q, Q, Q', b, s'.conns[b]); }
    }
  }

  // ------------------------------------------------------------------ the four steps

  lemma Locked(p: Id, P: Port, P': Port, q: Id, Q: Port, Q': Port)
    requires Reader(p, P) && Writer(Q) && Pair(p, P, q, Q) && P.pc.Flooding? && P.todo != [] && P.todo[0] == q && Q.lock.None?
    requires P' == P.(pc := HoldHdr) && Q' == Q.(lock := Some(p)) && p != q
    ensures Moves(p, P, P', q, Q, Q') && Reader(p, P') && Writer(Q')
  {
  }

  /** What a reader makes of a stream that stops inside a frame. */
  lemma PartWritten(log: seq<Delivery>, f: Frame, k: nat, out: seq<byte>)
    requires k < |Wire(f)| && out == Sent(log) + Wire(f)[..k]
    ensures exists part :: Torn(part) && out == Sent(log) + part
  {
    PartOfAFrameIsTorn(f, k);
  }

  lemma Passed(P: Port, q: Id, P': Port)
    requires P.todo != [] && P.todo[0] == q && P'.todo == P.todo[1..] && q !in P'.todo
    requires P.snaps != [] && q in P.snaps[|P.snaps| - 1] && P'.snaps == P.snaps
    ensures Due(P', q) == Due(P, q) + [|P.snaps| - 1]
  {
  }

  /** What holds before either write. */
  ghost predicate Writing(p: Id, P: Port, q: Id, Q: Port) {
    && p != q && P.todo != [] && P.todo[0] == q && Target(P) == Some(q)
    && Reader(p, P) && Writer(Q) && Pair(p, P, q, Q)
  }

  lemma TakesNext(p: Id, P: Port, q: Id, Q: Port)
    requires Writing(p, P, q, Q)
    ensures q !in P.todo[1..] && |P.snaps| == |P.frames| && q in P.snaps[|P.snaps| - 1]
    ensures forall b :: b != q ==> (b in P.todo[1..] <==> b in P.todo)
    ensures Q.lock == Some(p)
  {
    assert P.todo == [P.todo[0]] + P.todo[1..];
  }

  lemma HeaderWritten(p: Id, P: Port, P': Port, q: Id, Q: Port, Q': Port)
    requires Writing(p, P, q, Q) && P.pc.HoldHdr? && CanWrite(Q)
    requires P' == P.(pc := HoldBody) && Q' == Q.(out := Q.out + P.hdr)
    ensures Moves(p, P, P', q, Q, Q') && Reader(p, P') && Writer(Q')
  {
  }

  predicate WriteEnds(P: Port, P': Port, q: Id) {
    P.todo != [] && P' == P.(pc := HoldDone(q), todo := P.todo[1..])
  }

  lemma EndedReader(p: Id, P: Port, P': Port, q: Id, Q: Port)
    requires Writing(p, P, q, Q) && WriteEnds(P, P', q) && (P.pc.HoldHdr? || P.pc.HoldBody?)
    ensures Reader(p, P')
  {
    TakesNext(p, P, q, Q);
    hide Decode;
  }

  predicate Fails(P: Port, q: Id, Q: Port, Q': Port, wrote: nat) {
    && (wrote == 0 || CanWrite(Q))
    && ((P.pc.HoldHdr? && wrote < |P.hdr|) || (P.pc.HoldBody? && wrote < |P.buf|))
    && Q' == Q.(broken := true, out := Q.out + (if P.pc.HoldHdr? then P.hdr else P.buf)[..wrote])
  }

  lemma FailedWriter(p: Id, P: Port, q: Id, Q: Port, Q': Port, wrote: nat)
    requires Writing(p, P, q, Q) && Fails(P, q, Q, Q', wrote)
    ensures Writer(Q')
  {
    hide Decode, Torn, Wires, Sent, From, Owed;
    if Q.broken {
      assert Q'.out == Q.out;
    } else {
      TakesNext(p, P, q, Q);
      var f := P.buf;
      if P.pc.HoldHdr? {
        assert Wire(f)[..wrote] == P.hdr[..wrote];
        PartWritten(Q.log, f, wrote, Q'.out);
      } else {
        assert Wire(f)[..4 + wrote] == P.hdr + P.buf[..wrote];
        assert Q'.out == Sent(Q.log) + (P.hdr + P.buf[..wrote]);
        PartWritten(Q.log, f, 4 + wrote, Q'.out);
      }
    }
  }

  /** Either write failing: the frame is lost to q, and so is every later one. */
  lemma WriteFailed(p: Id, P: Port, P': Port, q: Id, Q: Port, Q': Port, wrote: nat)
    requires Writing(p, P, q, Q) && WriteEnds(P, P', q) && Fails(P, q, Q, Q', wrote)
    ensures Moves(p, P, P', q, Q, Q')
  {
    TakesNext(p, P, q, Q);
    Passed(P, q, P');
    hide Decode, Torn, Wires;
  }

  predicate Finishes(p: Id, P: Port, q: Id, Q: Port, Q': Port)
    requires P.frames != []
  {
    && CanWrite(Q) && P.pc.HoldBody?
    && Q' == Q.(out := Q.out + P.buf, log := Q.log + [Delivery(p, |P.frames| - 1, P.frames[|P.frames| - 1])])
  }

  lemma PayloadWritten(p: Id, P: Port, P': Port, q: Id, Q: Port, Q': Port)
    requires Writing(p, P, q, Q) && WriteEnds(P, P', q) && P.frames != [] && Finishes(p, P, q, Q, Q')
    ensures Moves(p, P, P', q, Q, Q') && Writer(Q')
  {
    TakesNext(p, P, q, Q);
    Passed(P, q, P');
    var i := |P.frames| - 1;
    var d := Delivery(p, i, P.frames[i]);
    assert Q'.log == Q.log + [d];
    assert Q'.out == Sent(Q'.log) by {
      SentSnoc(Q.log, d);
      assert Q.out == Sent(Q.log) + P.hdr;
    }
    FromSnoc(Q.log, d, p);
    hide Decode, Torn, Wires, Sent, From, Owed;
    assert From(Q'.log, p) == Due(P', q);
  }

  lemma Unlocked(p: Id, P: Port, P': Port, q: Id, Q: Port, Q': Port)
    requires p != q && Reader(p, P) && Writer(Q) && Pair(p, P, q, Q) && P.pc == HoldDone(q)
    requires P' == P.(pc := Flooding) && Q' == Q.(lock := None)
    ensures Moves(p, P, P', q, Q, Q') && Reader(p, P') && Writer(Q')
  {
  }

  // ------------------------------------------------------------------ put together

  /** What a write step does, with the guards that the invariant makes superfluous gone. */
  ghost predicate Effect(step: Step, p: Id, P: Port, P': Port, q: Id, Q: Port, Q': Port) {
    match step
    case PortLock(_) =>
      P.pc.Flooding? && P.todo != [] && P.todo[0] == q && Q.lock.None? && P' == P.(pc := HoldHdr) && Q' == Q.(lock := Some(p))
    case WriteHeader(_, wrote) =>
      && P.pc.HoldHdr? && P.todo != [] && P.todo[0] == q
      && if wrote == |P.hdr| then (wrote == 0 || CanWrite(Q)) && P' == P.(pc := HoldBody) && Q' == Q.(out := Q.out + P.hdr)
         else WriteEnds(P, P', q) && Fails(P, q, Q, Q', wrote)
    case WritePayload(_, wrote) =>
      && P.pc.HoldBody? && P.todo != [] && P.todo[0] == q && WriteEnds(P, P', q) && P.frames != []
      && if wrote == |P.buf|
         then (wrote == 0 || CanWrite(Q)) && Q' == Q.(out := Q.out + P.buf,
                log := Q.log + [Delivery(p, |P.frames| - 1, P.frames[|P.frames| - 1])])
         else Fails(P, q, Q, Q', wrote)
    case PortUnlock(_) =>
      P.pc == HoldDone(q) && P' == P.(pc := Flooding) && Q' == Q.(lock := None)
    case _ => false
  }

  lemma WriteEffect(s: State, s': State, step: Step, q: Id)
    requires IsWrite(step) && DoServe(s, step) == Some(s') && q == On(s.conns[step.p], step)
    ensures step.p in s.conns && q in s.conns && step.p != q && OnlyTwo(s, s', step.p, q)
    ensures s' == s.(conns := s'.conns)
    ensures Effect(step, step.p, s.conns[step.p], s'.conns[step.p], q, s.conns[q], s'.conns[q])
  {
    hide CanWrite;
    match step
    case WriteHeader(_, _) => HeaderEffect(s, s', step, q);
    case WritePayload(_, _) => PayloadEffect(s, s', step, q);
    case _ =>
  }

  lemma HeaderEffect(s: State, s': State, step: Step, q: Id)
    requires step.WriteHeader? && DoServe(s, step) == Some(s') && q == On(s.conns[step.p], step)
    ensures step.p in s.conns && q in s.conns && step.p != q && OnlyTwo(s, s', step.p, q)
    ensures s' == s.(conns := s'.conns)
    ensures Effect(step, step.p, s.conns[step.p], s'.conns[step.p], q, s.conns[q], s'.conns[q])
  {
    hide CanWrite;
    var hdr := s.conns[step.p].hdr;
    assert hdr[..|hdr|] == hdr;
  }

  lemma PayloadEffect(s: State, s': State, step: Step, q: Id)
    requires step.WritePayload? && DoServe(s, step) == Some(s') && q == On(s.conns[step.p], step)
    ensures step.p in s.conns && q in s.conns && step.p != q && OnlyTwo(s, s', step.p, q)
    ensures s' == s.(conns := s'.conns)
    ensures Effect(step, step.p, s.conns[step.p], s'.conns[step.p], q, s.conns[q], s'.conns[q])
  {
    hide CanWrite;
    var buf := s.conns[step.p].buf;
    assert buf[..|buf|] == buf;
  }

  lemma EffectMoves(step: Step, p: Id, P: Port, P': Port, q: Id, Q: Port, Q': Port)
    requires p != q && Effect(step, p, P, P', q, Q, Q') && Reader(p, P) && Writer(Q) && Pair(p, P, q, Q)
    ensures Moves(p, P, P', q, Q, Q') && Reader(p, P') && Writer(Q')
  {
    hide Decode, Torn, Wires, Sent, From, Owed, Moves, Pair, Writer;
    match step
    case PortLock(_) => Locked(p, P, P', q, Q, Q');
    case WriteHeader(_, wrote) =>
      if wrote == |P.hdr| {
        HeaderWritten(p, P, P', q, Q, Q');
      } else {
        EndedReader(p, P, P', q, Q);
        FailedWriter(p, P, q, Q, Q', wrote);
        WriteFailed(p, P, P', q, Q, Q', wrote);
      }
    case WritePayload(_, wrote) =>
      EndedReader(p, P, P', q, Q);
      if wrote == |P.buf| {
        PayloadWritten(p, P, P', q, Q, Q');
      } else {
        FailedWriter(p, P, q, Q, Q', wrote);
        WriteFailed(p, P, P', q, Q, Q', wrote);
      }
    case PortUnlock(_) => Unlocked(p, P, P', q, Q, Q');
  }

  /** What the hub's bookkeeping can see of a write step. */
  predicate Visible(p: Id, P: Port, P': Port, q: Id, Q: Port, Q': Port) {
    && Flows(P.pc) && Flows(P'.pc) && (P'.pc.HoldDone? ==> P'.pc.target == q)
    && P'.closed == P.closed && P'.lock == P.lock && P'.log == P.log && P'.snaps == P.snaps
    && (P'.todo == P.todo || (P.todo != [] && P'.todo == P.todo[1..]))
    && Q'.pc == Q.pc && Q'.closed == Q.closed && Q'.todo == Q.todo && Q'.snaps == Q.snaps
    && Q'.received == Q.received && Q'.buf == Q.buf
    && Q'.lock in {Q.lock, None, Some(p)}
    && (Q'.log == Q.log || (Q'.log != [] && Q'.log[..|Q'.log| - 1] == Q.log && Q'.log[|Q'.log| - 1].src == p))
  }

  lemma EffectVisible(step: Step, p: Id, P: Port, P': Port, q: Id, Q: Port, Q': Port)
    requires Effect(step, p, P, P', q, Q, Q')
    ensures Visible(p, P, P', q, Q, Q')
  {
  }

  lemma SourceStands(s: State, s': State, p: Id, P: Port, P': Port, q: Id, Q: Port, Q': Port)
    requires Visible(p, P, P', q, Q, Q') && Bystander(s, p, P) && q in s.conns
    requires s' == s.(conns := s'.conns) && s'.conns.Keys == s.conns.Keys
    ensures Bystander(s', p, P')
  {
  }

  lemma TargetStands(s: State, s': State, p: Id, P: Port, P': Port, q: Id, Q: Port, Q': Port)
    requires Visible(p, P, P', q, Q, Q') && Bystander(s, q, Q) && p in s.conns
    requires s' == s.(conns := s'.conns) && s'.conns.Keys == s.conns.Keys
    ensures Bystander(s', q, Q')
  {
    forall i | 0 <= i < |Q'.log| ensures Q'.log[i].src in s'.conns {
      if i < |Q.log| { assert Q'.log[i] == Q.log[i]; }
    }
  }

  lemma VisibleRest(s: State, s': State, p: Id, q: Id)
    requires p != q && OnlyTwo(s, s', p, q) && s' == s.(conns := s'.conns)
    requires Visible(p, s.conns[p], s'.conns[p], q, s.conns[q], s'.conns[q])
    requires Accept(s) && Closers(s)
    ensures Accept(s') && Closers(s')
  {
    hide Accept, Closers;
    ServeRest(s, s', p);
  }

  lemma TwoBystanders(s: State, s': State, p: Id, q: Id)
    requires Bystanders(s) && OnlyTwo(s, s', p, q) && s' == s.(conns := s'.conns)
    requires Bystander(s', p, s'.conns[p]) && Bystander(s', q, s'.conns[q])
    ensures Bystanders(s')
  {
    forall r | r in s'.conns && r != p && r != q ensures Bystander(s', r, s'.conns[r]) {
      assert Bystander(s, r, s.conns[r]);
    }
  }

  lemma ReaderOfTarget(p: Id, P: Port, P': Port, q: Id, Q: Port, Q': Port)
    requires Reader(q, Q) && Moves(p, P, P', q, Q, Q') && Visible(p, P, P', q, Q, Q')
    ensures Reader(q, Q')
  {
    hide Pair, Decode, Wires, FromBe32, Be32;
  }

  lemma WriterOfSource(p: Id, P: Port, P': Port, q: Id, Q: Port, Q': Port)
    requires Writer(P) && Moves(p, P, P', q, Q, Q')
    ensures Writer(P')
  {
    hide Pair, Torn, Sent;
  }

  lemma TwoPorts(s: State, s': State, p: Id, q: Id)
    requires Readers(s) && Writers(s) && OnlyTwo(s, s', p, q) && Reader(p, s'.conns[p]) && Writer(s'.conns[q])
    requires Moves(p, s.conns[p], s'.conns[p], q, s.conns[q], s'.conns[q])
    requires Visible(p, s.conns[p], s'.conns[p], q, s.conns[q], s'.conns[q])
    ensures Readers(s') && Writers(s')
  {
    hide Reader, Writer, Moves, Visible;
    ReaderOfTarget(p, s.conns[p], s'.conns[p], q, s.conns[q], s'.conns[q]);
    WriterOfSource(p, s.conns[p], s'.conns[p], q, s.conns[q], s'.conns[q]);
    forall r | r in s'.conns ensures Reader(r, s'.conns[r]) && Writer(s'.conns[r]) {
      if r != p && r != q { assert Reader(r, s.conns[r]) && Writer(s.conns[r]); }
    }
  }

  lemma TwoPortsKeepInv(s: State, s': State, p: Id, q: Id)
    requires Inv(s) && OnlyTwo(s, s', p, q) && s' == s.(conns := s'.conns)
    requires Moves(p, s.conns[p], s'.conns[p], q, s.conns[q], s'.conns[q])
    requires Visible(p, s.conns[p], s'.conns[p], q, s.conns[q], s'.conns[q])
    requires Reader(p, s'.conns[p]) && Writer(s'.conns[q]) && p != q
    requires Bystander(s', p, s'.conns[p]) && Bystander(s', q, s'.conns[q])
    ensures Inv(s')
  {
    hide Readers, Writers, Pairs, Bystanders, Accept, Closers, Moves, Visible, Reader, Writer, Bystander;
    MovesKeepPairs(s, s', p, q);
    TwoPorts(s, s', p, q);
    TwoBystanders(s, s', p, q);
    VisibleRest(s, s', p, q);
  }

  lemma TheTwo(s: State, p: Id, q: Id)
    requires Inv(s) && p in s.conns && q in s.conns
    ensures Reader(p, s.conns[p]) && Writer(s.conns[q]) && Pair(p, s.conns[p], q, s.conns[q])
    ensures Bystander(s, p, s.conns[p]) && Bystander(s, q, s.conns[q])
  {
    hide Reader, Writer, Pair, Bystander, Accept, Closers;
  }

  lemma EffectKeepsInv(s: State, s': State, step: Step, p: Id, P: Port, P': Port, q: Id, Q: Port, Q': Port)
    requires Inv(s) && p != q && OnlyTwo(s, s', p, q) && s' == s.(conns := s'.conns)
    requires P == s.conns[p] && P' == s'.conns[p] && Q == s.conns[q] && Q' == s'.conns[q]
    requires Effect(step, p, P, P', q, Q, Q')
    ensures Inv(s')
  {
    hide Inv, Effect, Moves, Visible, Reader, Writer, Pair, Bystander;
    TheTwo(s, p, q);
    EffectMoves(step, p, P, P', q, Q, Q');
    EffectVisible(step, p, P, P', q, Q, Q');
    SourceStands(s, s', p, P, P', q, Q, Q');
    TargetStands(s, s', p, P, P', q, Q, Q');
    TwoPortsKeepInv(s, s', p, q);
  }

  lemma {:induction false} WriteKeepsInv(s: State, s': State, step: Step)
    requires Inv(s) && IsWrite(step) && DoServe(s, step) == Some(s')
    ensures Inv(s')
  {
    hide Inv, Effect;
    var p := step.p;
    var q := On(s.conns[p], step);
    WriteEffect(s, s', step, q);
    EffectKeepsInv(s, s', step, p, s.conns[p], s'.conns[p], q, s.conns[q], s'.conns[q]);
  }
}
