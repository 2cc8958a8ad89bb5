/** What every step of the hub keeps. */
module NetHubInvariant {
  import opened Bytes
  import opened HubWire
  import opened NetHub

  // ------------------------------------------------------------------ histories

  function Payloads(log: seq<Delivery>): (fs: seq<Frame>)
    ensures |fs| == |log|
  {
    seq(|log|, i requires 0 <= i < |log| => log[i].payload)
  }

  /** The bytes a port owes its log. */
  function Sent(log: seq<Delivery>): seq<byte> {
    Wires(Payloads(log))
  }

  lemma SentSnoc(log: seq<Delivery>, d: Delivery)
    ensures Sent(log + [d]) == Sent(log) + Wire(d.payload)
  {
    var fs := Payloads(log + [d]);
    assert fs[..|fs| - 1] == Payloads(log);
  }

  /** Which of src's frames a log holds, in the order they were delivered. */
  function From(log: seq<Delivery>, src: Id): seq<nat> {
    if log == [] then []
    else
      var last := log[|log| - 1];
      From(log[..|log| - 1], src) + if last.src == src then [last.index] else []
  }

  lemma FromSnoc(log: seq<Delivery>, d: Delivery, src: Id)
    ensures From(log + [d], src) == From(log, src) + if d.src == src then [d.index] else []
  {
    assert (log + [d])[..|log|] == log;
  }

  /** Which frames a source owes port q, given the port sets it copied, one for each frame. */
  function Owed(snaps: seq<set<Id>>, q: Id): (r: seq<nat>)
    ensures forall i :: 0 <= i < |r| ==> r[i] < |snaps| && q in snaps[r[i]]
    ensures forall i, j :: 0 <= i < j < |r| ==> r[i] < r[j]
  {
    if snaps == [] then []
    else Owed(snaps[..|snaps| - 1], q) + if q in snaps[|snaps| - 1] then [|snaps| - 1] else []
  }

  lemma OwedSnoc(snaps: seq<set<Id>>, snap: set<Id>, q: Id)
    ensures Owed(snaps + [snap], q) == Owed(snaps, q) + if q in snap then [|snaps|] else []
  {
    assert (snaps + [snap])[..|snaps|] == snaps;
  }

  /** A port in every copy is owed every frame. */
  lemma {:induction false} OwedEverything(snaps: seq<set<Id>>, q: Id)
    requires forall snap :: snap in snaps ==> q in snap
    ensures Owed(snaps, q) == seq(|snaps|, i => i)
  {
    if snaps != [] {
      OwedEverything(snaps[..|snaps| - 1], q);
    }
  }

  /** What src has finished trying to send to q: the frame being flooded counts once q is passed. */
  function Due(P: Port, q: Id): seq<nat> {
    Owed(if q in P.todo && P.snaps != [] then P.snaps[..|P.snaps| - 1] else P.snaps, q)
  }

  // ------------------------------------------------------------------ the invariant

  predicate InPorts(pc: Pc) {
    !pc.Unserved? && !pc.Closing? && !pc.Gone?
  }

  predicate HoldsHub(pc: Pc) {
    pc.DropHeld? || pc.SnapHeld? || pc.LeaveHeld?
  }

  /** The port whose lock the goroutine serving P holds. */
  function Target(P: Port): Option<Id> {
    if P.pc.HoldDone? then Some(P.pc.target)
    else if (P.pc.HoldHdr? || P.pc.HoldBody?) && P.todo != [] then Some(P.todo[0])
    else None
  }

  predicate Flows(pc: Pc) {
    pc.Flooding? || pc.HoldHdr? || pc.HoldBody? || pc.HoldDone?
  }

  /** A port's own reading and queueing. */
  ghost predicate Reader(p: Id, P: Port) {
    && (P.pc.ReadHdr? || P.pc.SnapWant? || P.pc.SnapHeld? || Flows(P.pc) ==> P.received == Wires(P.frames))
    && (P.pc.ReadBody? ==> |P.hdr| == 4 && 0 < FromBe32(P.hdr) <= MAX_FRAME && P.received == Wires(P.frames) + P.hdr)
    && Decode(P.received).0 == P.frames
    && (P.pc.Unserved? ==> P.received == [] && P.frames == [])
    && (P.pc.SnapWant? || P.pc.SnapHeld? || Flows(P.pc) ==>
          P.frames != [] && P.frames[|P.frames| - 1] == P.buf && P.hdr == Be32(|P.buf|))
    && |P.snaps| == |P.frames| - (if P.pc.SnapWant? || P.pc.SnapHeld? then 1 else 0)
    && (P.todo != [] ==> Flows(P.pc) && P.snaps != [])
    && (P.pc.HoldHdr? || P.pc.HoldBody? ==> P.todo != [])
    && (P.pc.HoldDone? ==> P.pc.target != p && P.pc.target !in P.todo)
    && (forall i, j :: 0 <= i < j < |P.todo| ==> P.todo[i] != P.todo[j])
    && (forall q :: q in P.todo ==> q != p && q in P.snaps[|P.snaps| - 1])
    && (forall i :: 0 <= i < |P.snaps| ==> p !in P.snaps[i])
  }

  /** What was written to a port, when nobody is in the middle of writing to it. */
  ghost predicate Writer(P: Port) {
    && (P.broken ==> exists part :: Torn(part) && P.out == Sent(P.log) + part)
    && (!P.broken && P.lock.None? ==> P.out == Sent(P.log))
  }

  /** What src's goroutine has done to port q. */
  ghost predicate Pair(p: Id, P: Port, q: Id, Q: Port) {
    && From(Q.log, p) <= Due(P, q)
    && (!Q.broken ==> From(Q.log, p) == Due(P, q))
    && (forall i :: 0 <= i < |Q.log| && Q.log[i].src == p ==> Q.log[i].index < |P.frames| && P.frames[Q.log[i].index] == Q.log[i].payload)
    && (Q.lock == Some(p) <==> Target(P) == Some(q))
    && (Q.lock == Some(p) && !Q.broken ==> Q.out == Sent(Q.log) + if P.pc.HoldBody? then P.hdr else [])
  }

  ghost predicate Bystander(s: State, p: Id, P: Port) {
    && (p in s.ports <==> InPorts(P.pc))
    && (s.hub == Some(Server(p)) <==> HoldsHub(P.pc))
    && (P.pc.Gone? ==> P.closed)
    && (P.pc.Unserved? ==> P.closed || Awaits(s.accept, p))
    && (P.lock.Some? ==> P.lock.value in s.conns)
    && (forall q :: q in P.todo || P.pc == HoldDone(q) ==> q in s.conns)
    && (forall i :: 0 <= i < |P.snaps| ==> P.snaps[i] <= s.conns.Keys)
    && (forall i :: 0 <= i < |P.log| ==> P.log[i].src in s.conns)
  }

  ghost predicate Accept(s: State) {
    && (s.accept.Got? || s.accept.Admitting? || s.accept.Refusing? ==>
          s.accept.p in s.conns && s.conns[s.accept.p].pc.Unserved? && !s.conns[s.accept.p].closed)
    && (s.hub == Some(Acceptor) <==> s.accept.Admitting?)
  }

  ghost predicate Closers(s: State) {
    && (s.closed <==> s.winner.Some?)
    && (forall c :: c in s.closers && s.winner != Some(c) ==> s.closers[c] in {Want, ClosePc.Held, Returned})
    && (forall c :: c in s.closers && s.closers[c].Returned? ==> s.closed)
    && (forall c :: s.hub == Some(Closer(c)) <==> c in s.closers && s.closers[c].Held?)
    && (s.closed ==>
          && s.winner.value in s.closers
          && s.closers[s.winner.value] in {Listener, Conns, Wait, Returned}
          && s.ports <= s.snapshot <= s.conns.Keys
          && (forall p :: p in s.left ==> p in s.snapshot)
          && (forall p :: p in s.snapshot ==> !s.conns[p].pc.Unserved?)
          && (forall p :: p in s.snapshot && p !in s.left ==> s.conns[p].closed)
          && (s.closers[s.winner.value] in {Wait, Returned} ==> s.left == [])
          && (s.closers[s.winner.value].Returned? ==> s.accept.Stopped? && AllServersEnded(s)))
  }

  ghost predicate Readers(s: State) {
    forall p :: p in s.conns ==> Reader(p, s.conns[p])
  }

  ghost predicate Writers(s: State) {
    forall p :: p in s.conns ==> Writer(s.conns[p])
  }

  ghost predicate Bystanders(s: State) {
    && s.ports <= s.conns.Keys
    && (s.hub.Some? && s.hub.value.Server? ==> s.hub.value.p in s.conns)
    && forall p :: p in s.conns ==> Bystander(s, p, s.conns[p])
  }

  ghost predicate Pairs(s: State) {
    forall p, q :: p in s.conns && q in s.conns ==> Pair(p, s.conns[p], q, s.conns[q])
  }

  ghost predicate Inv(s: State) {
    Readers(s) && Writers(s) && Bystanders(s) && Pairs(s) && Accept(s) && Closers(s)
  }

  lemma InitInv()
    ensures Inv(INIT)
  {
  }

  // ------------------------------------------------------------------ frames

  ghost predicate Awaits(accept: AcceptPc, p: Id) {
    accept == Got(p) || accept == Admitting(p) || accept == Refusing(p)
  }

  /** Every port but p is as it was. */
  ghost predicate Only(s: State, s': State, p: Id) {
    && s'.conns.Keys == s.conns.Keys + {p}
    && (forall q :: q in s.conns && q != p ==> s'.conns[q] == s.conns[q])
  }

  /** Every port but p stands to the hub as it did. */
  ghost predicate SameStanding(s: State, s': State, p: Id) {
    && (forall q :: q != p ==> (q in s'.ports <==> q in s.ports))
    && (forall q :: q != p ==> (s'.hub == Some(Server(q)) <==> s.hub == Some(Server(q))))
    && (forall q :: q != p && Awaits(s.accept, q) ==> Awaits(s'.accept, q))
  }

  /** A change to a port that flood cannot see: nothing it holds, owes or has been sent moves. */
  predicate Quiet(P: Port, P': Port) {
    && P'.todo == P.todo && P'.snaps == P.snaps && P.frames <= P'.frames
    && P'.lock == P.lock && P'.broken == P.broken && P'.out == P.out && P'.log == P.log
    && Target(P') == Target(P)
    && (P.pc.HoldBody? || P'.pc.HoldBody? ==> P'.pc == P.pc && P'.hdr == P.hdr)
  }

  lemma QuietSource(p: Id, P: Port, P': Port, q: Id, Q: Port)
    requires Pair(p, P, q, Q) && Quiet(P, P')
    ensures Pair(p, P', q, Q)
  {
  }

  lemma QuietTarget(p: Id, P: Port, q: Id, Q: Port, Q': Port)
    requires Pair(p, P, q, Q) && Quiet(Q, Q')
    ensures Pair(p, P, q, Q')
  {
  }

  lemma QuietKeepsPairs(s: State, s': State, p: Id)
    requires Pairs(s) && Only(s, s', p) && p in s.conns && Quiet(s.conns[p], s'.conns[p])
    ensures Pairs(s')
  {
    hide Pair, Quiet;
    forall a, b | a in s'.conns && b in s'.conns ensures Pair(a, s'.conns[a], b, s'.conns[b]) {
      var B := if b == p then s'.conns[p] else s.conns[b];
      assert Pair(a, s.conns[a], b, s.conns[b]);
      if b == p { QuietTarget(a, s.conns[a], p, s.conns[p], s'.conns[p]); }
      if a == p { QuietSource(p, s.conns[p], s'.conns[p], b, B); }
    }
  }

  lemma OneReader(s: State, s': State, p: Id)
    requires Readers(s) && Only(s, s', p) && Reader(p, s'.conns[p])
    ensures Readers(s')
  {
    forall q | q in s'.conns ensures Reader(q, s'.conns[q]) {
    }
  }

  lemma OneWriter(s: State, s': State, p: Id)
    requires Writers(s) && Only(s, s', p) && Writer(s'.conns[p])
    ensures Writers(s')
  {
    forall q | q in s'.conns ensures Writer(s'.conns[q]) {
    }
  }

  lemma OtherBystander(s: State, s': State, p: Id, q: Id)
    requires q in s.conns && q in s'.conns && Bystander(s, q, s.conns[q]) && Only(s, s', p) && SameStanding(s, s', p) && q != p
    ensures Bystander(s', q, s'.conns[q])
  {
  }

  lemma OneBystander(s: State, s': State, p: Id)
    requires Bystanders(s) && Only(s, s', p) && SameStanding(s, s', p)
    requires Bystander(s', p, s'.conns[p])
    ensures Bystanders(s')
  {
    forall q | q in s'.conns && q != p ensures Bystander(s', q, s'.conns[q]) {
      OtherBystander(s, s', p, q);
    }
  }

  // ------------------------------------------------------------------ the acceptor

  lemma {:induction false} AcceptKeepsInv(s: State, step: Step)
    requires Inv(s) && DoAccept(s, step).Some?
    ensures Inv(DoAccept(s, step).value)
  {
    hide Readers, Writers, Pairs, Bystanders, Accept, Closers;
    var s' := DoAccept(s, step).value;
    match step
    case AcceptConn(p) => NewConnection(s, s', p);
    case AcceptDecide => if !s.closed { Decided(s, s', step, s.accept.p); } else { Waiting(s, s', step); }
    case AcceptClose => Decided(s, s', step, s.accept.p);
    case _ => Waiting(s, s', step);
  }

  predicate Waits(s: State, step: Step) {
    step.AcceptFail? || step.AcceptLock? || (step.AcceptDecide? && s.closed)
  }

  lemma Waiting(s: State, s': State, step: Step)
    requires Inv(s) && Waits(s, step) && DoAccept(s, step) == Some(s')
    ensures Inv(s')
  {
    hide Reader, Writer, Pair;
    assert Bystanders(s') by {
      forall q | q in s'.conns ensures Bystander(s', q, s'.conns[q]) {
        assert Bystander(s, q, s.conns[q]);
      }
    }
    hide Bystander;
    assert Accept(s');
    assert Closers(s');
  }

  lemma NewConnection(s: State, s': State, p: Id)
    requires Inv(s) && Some(s') == DoAccept(s, AcceptConn(p))
    ensures Inv(s')
  {
    hide Pairs, Readers, Writers, Bystanders, Accept, Closers, Reader, Writer, Bystander;
    NewRest(s, s', p);
    NewPairs(s, s', p);
    OneReader(s, s', p);
    OneWriter(s, s', p);
    OneBystander(s, s', p);
  }

  lemma NewRest(s: State, s': State, p: Id)
    requires Bystanders(s) && Accept(s) && Closers(s) && Some(s') == DoAccept(s, AcceptConn(p))
    ensures Accept(s') && Closers(s') && Only(s, s', p) && SameStanding(s, s', p)
    ensures p !in s.conns && s'.conns == s.conns[p := NEW_PORT]
    ensures Reader(p, NEW_PORT) && Writer(NEW_PORT) && Bystander(s', p, NEW_PORT)
  {
  }

  lemma NewPairs(s: State, s': State, p: Id)
    requires Pairs(s) && Bystanders(s) && p !in s.conns && s'.conns == s.conns[p := NEW_PORT]
    ensures Pairs(s')
  {
    hide Pair;
    forall q | q in s'.conns ensures Pair(p, NEW_PORT, q, s'.conns[q]) && Pair(q, s'.conns[q], p, NEW_PORT) {
      assert q != p ==> Bystander(s, q, s.conns[q]);
      PairsOfNew(s.conns.Keys, p, q, s'.conns[q]);
    }
  }

  lemma PairsOfNew(known: set<Id>, p: Id, q: Id, Q: Port)
    requires p !in known
    requires forall i :: 0 <= i < |Q.log| ==> Q.log[i].src in known
    requires forall i :: 0 <= i < |Q.snaps| ==> Q.snaps[i] <= known
    requires Q.lock.Some? ==> Q.lock.value in known
    requires Target(Q).Some? ==> Target(Q).value in known
    ensures Pair(p, NEW_PORT, q, Q) && Pair(q, Q, p, NEW_PORT)
  {
    hide From, Owed, Wires;
    NobodyLoggedYet(Q.log, p);
    NobodyLoggedYet([], q);
    NobodyOwesYet(Q.snaps, p);
    NobodyOwesYet([], q);
    if Q.snaps != [] {
      NobodyOwesYet(Q.snaps[..|Q.snaps| - 1], p);
    }
  }

  lemma NobodyLoggedYet(log: seq<Delivery>, p: Id)
    requires forall i :: 0 <= i < |log| ==> log[i].src != p
    ensures From(log, p) == []
  {
  }

  lemma NobodyOwesYet(snaps: seq<set<Id>>, p: Id)
    requires forall i :: 0 <= i < |snaps| ==> p !in snaps[i]
    ensures Owed(snaps, p) == []
  {
  }

  predicate Decides(s: State, step: Step) {
    (step.AcceptDecide? && !s.closed) || step.AcceptClose?
  }

  lemma Decided(s: State, s': State, step: Step, p: Id)
    requires Inv(s) && Decides(s, step) && DoAccept(s, step) == Some(s') && Awaits(s.accept, p)
    ensures Inv(s')
  {
    hide Pair, Writer, Reader, Bystander;
    assert Reader(p, s.conns[p]) && Writer(s.conns[p]) && Bystander(s, p, s.conns[p]);
    hide Pairs, Readers, Writers, Bystanders, Accept, Closers;
    DecidedPort(s, s', step, p);
    DecidedRest(s, s', step, p);
    QuietKeepsPairs(s, s', p);
    OneReader(s, s', p);
    OneWriter(s, s', p);
    OneBystander(s, s', p);
  }

  lemma DecidedRest(s: State, s': State, step: Step, p: Id)
    requires Accept(s) && Closers(s) && s.ports <= s.conns.Keys
    requires Decides(s, step) && DoAccept(s, step) == Some(s') && Awaits(s.accept, p)
    ensures Accept(s') && Closers(s')
  {
  }

  /** Admitted or refused, a port that nobody has served yet is as a new one to everybody else. */
  lemma DecidedReader(p: Id, P: Port, P': Port)
    requires Reader(p, P) && Writer(P) && P.pc.Unserved? && (P' == P.(pc := ReadHdr) || P' == P.(closed := true))
    ensures Reader(p, P') && Writer(P') && Quiet(P, P')
  {
    hide Decode, Sent, Torn, FromBe32, Be32;
  }

  lemma DecidedPort(s: State, s': State, step: Step, p: Id)
    requires Accept(s) && Decides(s, step) && DoAccept(s, step) == Some(s') && Awaits(s.accept, p)
    requires Reader(p, s.conns[p]) && Writer(s.conns[p]) && Bystander(s, p, s.conns[p])
    ensures Only(s, s', p) && SameStanding(s, s', p) && Quiet(s.conns[p], s'.conns[p])
    ensures Reader(p, s'.conns[p]) && Writer(s'.conns[p]) && Bystander(s', p, s'.conns[p])
  {
    hide Reader, Writer, Quiet;
    DecidedReader(p, s.conns[p], s'.conns[p]);
  }

  // ------------------------------------------------------------------ Close

  lemma {:induction false} CloseKeepsInv(s: State, step: Step)
    requires Inv(s) && DoClose(s, step).Some?
    ensures Inv(DoClose(s, step).value)
  {
    hide Readers, Writers, Pairs, Bystanders, Accept, Closers;
    var s' := DoClose(s, step).value;
    if step.CloseConn? && s.left != [] {
      CutConnection(s, s', step.c, s.left[0]);
    } else {
      CloseAlone(s, s', step);
      CloseBystanders(s, s');
    }
  }

  /** The steps of Close that touch no connection. */
  lemma CloseAlone(s: State, s': State, step: Step)
    requires Accept(s) && Closers(s) && Bystanders(s) && DoClose(s, step) == Some(s')
    requires step.CloseConn? ==> s.left == []
    ensures Accept(s') && Closers(s') && s'.conns == s.conns && s'.ports == s.ports && s'.accept == s.accept
    ensures forall q :: s'.hub == Some(Server(q)) <==> s.hub == Some(Server(q))
  {
    hide Bystander, Enumerates;
    if step.CloseDecide? {
      CloseDecided(s, s', step);
    }
  }

  lemma CloseDecided(s: State, s': State, step: Step)
    requires Accept(s) && Closers(s) && Bystanders(s) && step.CloseDecide? && DoClose(s, step) == Some(s')
    ensures Accept(s') && Closers(s') && s'.conns == s.conns && s'.ports == s.ports && s'.accept == s.accept
    ensures forall q :: s'.hub == Some(Server(q)) <==> s.hub == Some(Server(q))
  {
    forall p | p in s.ports ensures !s.conns[p].pc.Unserved? {
      assert Bystander(s, p, s.conns[p]);
    }
    hide Bystander, AllServersEnded;
  }

  lemma CloseBystanders(s: State, s': State)
    requires Readers(s) && Writers(s) && Pairs(s) && Bystanders(s)
    requires s'.conns == s.conns && s'.ports == s.ports && s'.accept == s.accept
    requires forall q :: s'.hub == Some(Server(q)) <==> s.hub == Some(Server(q))
    ensures Readers(s') && Writers(s') && Pairs(s') && Bystanders(s')
  {
    hide Reader, Writer, Pair;
    forall q | q in s'.conns ensures Bystander(s', q, s'.conns[q]) {
      assert Bystander(s, q, s.conns[q]);
    }
  }

  lemma CutConnection(s: State, s': State, c: Id, p: Id)
    requires Inv(s) && s.left != [] && p == s.left[0] && DoClose(s, CloseConn(c)) == Some(s')
    ensures Inv(s')
  {
    hide Reader, Writer, Bystander;
    assert Reader(p, s.conns[p]) && Writer(s.conns[p]) && Bystander(s, p, s.conns[p]);
    hide Readers, Writers, Pairs, Bystanders, Accept, Closers;
    CutPort(s, s', c, p);
    CutRest(s, s', c, p);
    QuietKeepsPairs(s, s', p);
    OneReader(s, s', p);
    OneWriter(s, s', p);
    OneBystander(s, s', p);
  }

  lemma CutPort(s: State, s': State, c: Id, p: Id)
    requires s.left != [] && p == s.left[0] && DoClose(s, CloseConn(c)) == Some(s')
    requires Reader(p, s.conns[p]) && Writer(s.conns[p]) && Bystander(s, p, s.conns[p])
    ensures Only(s, s', p) && SameStanding(s, s', p) && Quiet(s.conns[p], s'.conns[p])
    ensures Reader(p, s'.conns[p]) && Writer(s'.conns[p]) && Bystander(s', p, s'.conns[p])
  {
  }

  lemma CutRest(s: State, s': State, c: Id, p: Id)
    requires Accept(s) && Closers(s)
    requires s.left != [] && p == s.left[0] && DoClose(s, CloseConn(c)) == Some(s')
    ensures Accept(s') && Closers(s')
  {
  }

  // ------------------------------------------------------------------ a serving goroutine

  /** One quiet change to port p, put together. */
  lemma OneQuietPort(s: State, s': State, p: Id)
    requires Inv(s) && p in s.conns && Only(s, s', p) && SameStanding(s, s', p) && Quiet(s.conns[p], s'.conns[p])
    requires Reader(p, s'.conns[p]) && Writer(s'.conns[p]) && Bystander(s', p, s'.conns[p])
    requires Accept(s') && Closers(s')
    ensures Inv(s')
  {
    hide Readers, Writers, Pairs, Bystanders, Accept, Closers, Reader, Writer, Bystander, Quiet, SameStanding;
    QuietKeepsPairs(s, s', p);
    OneReader(s, s', p);
    OneWriter(s, s', p);
    OneBystander(s, s', p);
  }

  /** The acceptor and Close do not notice what goroutine p does to the ports it works on. */
  lemma ServeRest(s: State, s': State, p: Id)
    requires Accept(s) && Closers(s) && p in s.conns && !s.conns[p].pc.Unserved? && !s.conns[p].pc.Gone?
    requires s' == s.(conns := s'.conns, hub := s'.hub, ports := s'.ports) && s'.conns.Keys == s.conns.Keys
    requires forall q :: q in s.conns ==>
      && (s'.conns[q].pc.Unserved? <==> s.conns[q].pc.Unserved?)
      && (s.conns[q].closed ==> s'.conns[q].closed) && (s'.conns[q].pc.Unserved? ==> s'.conns[q].closed == s.conns[q].closed)
    requires s'.ports <= s.ports
    requires forall t :: t in {s.hub, s'.hub} && t != s'.hub ==> t == None || t.value == Server(p)
    requires forall t :: t in {s.hub, s'.hub} && t != s.hub ==> t == None || t.value == Server(p)
    ensures Accept(s') && Closers(s')
  {
  }

  predicate IsOwn(step: Step) {
    step.ReadHeader? || step.ReadPayload? || step.ReadFail? || step.FloodEnd? || step.LeaveClose?
  }

  /** What is left of Reader and Writer when only the program counter moves between idle points. */
  lemma PcOnly(p: Id, P: Port, P': Port)
    requires Reader(p, P) && Writer(P) && P' == P.(pc := P'.pc, closed := P'.closed) && P.todo == []
    requires !P'.pc.HoldHdr? && !P'.pc.HoldBody? && !P'.pc.HoldDone? && !P'.pc.ReadBody? && !P'.pc.Unserved?
    requires Target(P) == None
    requires P'.pc.ReadHdr? || P'.pc.Flooding? ==> Flows(P.pc)
    requires P'.pc.SnapWant? || P'.pc.SnapHeld? <==> P.pc.SnapWant? || P.pc.SnapHeld?
    ensures Reader(p, P') && Writer(P') && Quiet(P, P')
  {
  }

  lemma HeaderRead(p: Id, P: Port, hdr: seq<byte>, P': Port)
    requires DoOwn(P, ReadHeader(p, hdr)) == Some(P') && Reader(p, P)
    ensures Reader(p, P') && Quiet(P, P')
  {
    assert Torn(hdr);
    DecodeTorn(P.frames, hdr);
  }

  lemma PayloadRead(p: Id, P: Port, buf: Frame, P': Port)
    requires DoOwn(P, ReadPayload(p, buf)) == Some(P') && Reader(p, P)
    ensures Reader(p, P') && Quiet(P, P')
  {
    hide Decode;
    FromBe32Injective(P.hdr);
    assert P'.received == Wires(P'.frames) by {
      LastWire(P'.frames, []);
      assert P'.frames[..|P.frames|] == P.frames;
      assert P'.received == Wires(P.frames) + (Wire(buf) + []);
      assert Wires(P'.frames) + [] == Wires(P'.frames);
    }
    assert Decode(P'.received).0 == P'.frames by {
      NothingIsTorn();
      DecodeTorn(P'.frames, []);
      assert Wires(P'.frames) + [] == Wires(P'.frames);
    }
  }

  lemma NothingIsTorn()
    ensures Torn([])
  {
  }

  lemma OwnPort(p: Id, P: Port, step: Step, P': Port)
    requires IsOwn(step) && DoOwn(P, step) == Some(P') && Reader(p, P) && Writer(P) && step.p == p
    ensures Reader(p, P') && Writer(P') && Quiet(P, P')
  {
    match step
    case ReadHeader(_, hdr) => HeaderRead(p, P, hdr, P');
    case ReadPayload(_, buf) => PayloadRead(p, P, buf, P');
    case _ => PcOnly(p, P, P');
  }

  lemma OwnPc(P: Port, step: Step, P': Port)
    requires IsOwn(step) && DoOwn(P, step) == Some(P')
    ensures InPorts(P.pc) == InPorts(P'.pc) && !HoldsHub(P.pc) && !HoldsHub(P'.pc)
    ensures !P.pc.Unserved? && !P'.pc.Unserved? && !P.pc.Gone? && (P.closed ==> P'.closed) && (P'.pc.Gone? ==> P'.closed)
    ensures !P'.pc.HoldDone?
  {
  }

  lemma {:induction false} OwnKeepsInv(s: State, s': State, step: Step)
    requires Inv(s) && IsOwn(step) && DoServe(s, step) == Some(s')
    ensures Inv(s')
  {
    var p := step.p;
    hide Reader, Writer, Bystander, DoOwn;
    OwnEffect(s, s', step);
    hide DoServe;
    var P, P' := s.conns[p], s'.conns[p];
    assert Reader(p, P) && Writer(P) && Bystander(s, p, P);
    hide Readers, Writers, Pairs, Bystanders, Accept, Closers, Quiet, IsOwn, InPorts, HoldsHub, Only, SameStanding;
    OwnPort(p, P, step, P');
    OwnPc(P, step, P');
    OwnStanding(s, s', p, P, P');
    OwnRest(s, s', p, P, P');
    OneQuietPort(s, s', p);
  }

  lemma OwnEffect(s: State, s': State, step: Step)
    requires IsOwn(step) && DoServe(s, step) == Some(s')
    ensures step.p in s.conns && step.p in s'.conns && DoOwn(s.conns[step.p], step) == Some(s'.conns[step.p])
    ensures s' == s.(conns := s.conns[step.p := s'.conns[step.p]])
  {
  }

  lemma OwnRest(s: State, s': State, p: Id, P: Port, P': Port)
    requires Accept(s) && Closers(s) && p in s.conns && P == s.conns[p] && s' == s.(conns := s.conns[p := P'])
    requires !P.pc.Unserved? && !P'.pc.Unserved? && !P.pc.Gone? && (P.closed ==> P'.closed)
    ensures Accept(s') && Closers(s')
  {
    hide Accept, Closers;
    ServeRest(s, s', p);
  }

  lemma OwnStanding(s: State, s': State, p: Id, P: Port, P': Port)
    requires p in s.conns && P == s.conns[p] && s' == s.(conns := s.conns[p := P'])
    requires Bystander(s, p, P) && Quiet(P, P')
    requires InPorts(P.pc) == InPorts(P'.pc) && !HoldsHub(P.pc) && !HoldsHub(P'.pc)
    requires !P'.pc.Unserved? && (P'.pc.Gone? ==> P'.closed) && !P'.pc.HoldDone?
    ensures Only(s, s', p) && SameStanding(s, s', p) && Bystander(s', p, P')
  {
  }

  predicate IsHubLock(step: Step) {
    step.DropLock? || step.DropUnlock? || step.SnapLock? || step.SnapTake? || step.LeaveLock? || step.LeaveDelete?
  }

  lemma HubLockPort(s: State, s': State, step: Step)
    requires IsHubLock(step) && DoServe(s, step) == Some(s') && !step.SnapTake?
    requires Reader(step.p, s.conns[step.p]) && Writer(s.conns[step.p])
    ensures Quiet(s.conns[step.p], s'.conns[step.p])
    ensures Reader(step.p, s'.conns[step.p]) && Writer(s'.conns[step.p])
  {
    PcOnly(step.p, s.conns[step.p], s'.conns[step.p]);
  }

  lemma HubLockStanding(s: State, s': State, step: Step)
    requires IsHubLock(step) && DoServe(s, step) == Some(s')
    requires Bystander(s, step.p, s.conns[step.p])
    ensures Only(s, s', step.p) && SameStanding(s, s', step.p)
  {
  }

  lemma HubLockBystander(s: State, s': State, step: Step)
    requires IsHubLock(step) && DoServe(s, step) == Some(s') && !step.SnapTake?
    requires Bystander(s, step.p, s.conns[step.p])
    ensures Bystander(s', step.p, s'.conns[step.p])
  {
  }

  lemma HubLockRest(s: State, s': State, step: Step)
    requires IsHubLock(step) && DoServe(s, step) == Some(s') && Accept(s) && Closers(s)
    requires Bystander(s, step.p, s.conns[step.p])
    ensures Accept(s') && Closers(s')
  {
    hide Accept, Closers;
    ServeRest(s, s', step.p);
  }

  lemma {:induction false} HubLockKeepsInv(s: State, s': State, step: Step)
    requires Inv(s) && IsHubLock(step) && DoServe(s, step) == Some(s')
    ensures Inv(s')
  {
    var p := step.p;
    hide Reader, Writer, Bystander, DoHubLock;
    assert Reader(p, s.conns[p]) && Writer(s.conns[p]) && Bystander(s, p, s.conns[p]);
    assert s.ports <= s.conns.Keys;
    hide Readers, Writers, Pairs, Bystanders, Accept, Closers, Quiet;
    HubLockRest(s, s', step);
    HubLockStanding(s, s', step);
    if step.SnapTake? {
      SnapPort(s, s', step);
      SnapPairs(s, s', p, s.conns[p], s'.conns[p]);
      OneReader(s, s', p);
      OneWriter(s, s', p);
      OneBystander(s, s', p);
    } else {
      HubLockPort(s, s', step);
      HubLockBystander(s, s', step);
      OneQuietPort(s, s', p);
    }
  }

  /** P' is P with one more copied port set, and that set still to be flooded. */
  ghost predicate Snapped(P: Port, P': Port) {
    && P.pc.SnapHeld? && P.todo == [] && P' == P.(pc := Flooding, todo := P'.todo, snaps := P'.snaps)
    && |P'.snaps| == |P.snaps| + 1 && P'.snaps[..|P.snaps|] == P.snaps
    && (forall q :: q in P'.todo <==> q in P'.snaps[|P.snaps|])
  }

  lemma SnapPort(s: State, s': State, step: Step)
    requires step.SnapTake? && DoServe(s, step) == Some(s') && s.ports <= s.conns.Keys
    requires Reader(step.p, s.conns[step.p]) && Writer(s.conns[step.p]) && Bystander(s, step.p, s.conns[step.p])
    ensures Reader(step.p, s'.conns[step.p]) && Writer(s'.conns[step.p]) && Bystander(s', step.p, s'.conns[step.p])
    ensures Snapped(s.conns[step.p], s'.conns[step.p])
  {
  }

  lemma SnapPairs(s: State, s': State, p: Id, P: Port, P': Port)
    requires Pairs(s) && p in s.conns && P == s.conns[p] && Only(s, s', p) && s'.conns[p] == P' && Snapped(P, P')
    ensures Pairs(s')
  {
    hide Pair, Snapped;
    forall a, b | a in s'.conns && b in s'.conns ensures Pair(a, s'.conns[a], b, s'.conns[b]) {
      var B := s'.conns[b];
      assert Pair(a, s.conns[a], b, s.conns[b]);
      if b == p { SnapTarget(a, s.conns[a], p, P, P'); }
      if a == p { SnapSource(p, P, P', b, B); }
    }
  }

  lemma SnapTarget(p: Id, P: Port, q: Id, Q: Port, Q': Port)
    requires Pair(p, P, q, Q) && Snapped(Q, Q')
    ensures Pair(p, P, q, Q')
  {
  }

  /** A frame just copied for is owed only once its port has been passed. */
  lemma SnapSource(p: Id, P: Port, P': Port, q: Id, Q: Port)
    requires Pair(p, P, q, Q) && Snapped(P, P')
    ensures Pair(p, P', q, Q)
  {
    assert Due(P', q) == Due(P, q);
  }
}
