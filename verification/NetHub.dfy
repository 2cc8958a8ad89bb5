/**
 * The Ethernet hub as a state machine. One goroutine accepts connections, one per guest reads
 * frames and floods them, and any number call Close. A step is one action of one goroutine between
 * two points at which another may run, so a list of steps is one interleaving.
 *
 * The fields `received`, `frames`, `snaps`, `out` and `log` of a port are histories: no step
 * branches on them.
 */
module NetHub {
  import opened Bytes
  import opened HubWire

  type Id = nat

  /** Where the goroutine serving one port stands. */
  datatype Pc =
    | Unserved               // accepted, and not (or never) admitted
    | ReadHdr | ReadBody
    | DropWant | DropHeld    // reporting an impossible length through OnDrop
    | SnapWant | SnapHeld    // about to copy the port set
    | Flooding               // between two ports of the copy
    | HoldHdr | HoldBody     // holding the next port's lock, before each of the two writes
    | HoldDone(target: Id)   // both writes tried, lock not yet released
    | LeaveWant | LeaveHeld | Closing | Gone

  datatype Delivery = Delivery(src: Id, index: nat, payload: Frame)

  datatype Port = Port(
    pc: Pc,
    hdr: seq<byte>,
    buf: seq<byte>,
    todo: seq<Id>,
    lock: Option<Id>,
    closed: bool,            // Close was called on the connection
    broken: bool,            // a write on the connection has failed
    received: seq<byte>,
    frames: seq<Frame>,
    snaps: seq<set<Id>>,
    out: seq<byte>,
    log: seq<Delivery>)

  const NEW_PORT := Port(Unserved, [], [], [], None, false, false, [], [], [], [], [])

  datatype AcceptPc = Accepting | Got(p: Id) | Admitting(p: Id) | Refusing(p: Id) | Stopped

  datatype ClosePc = Want | Held | Listener | Conns | Wait | Returned

  datatype Thread = Acceptor | Server(p: Id) | Closer(c: Id)

  datatype State = State(
    conns: map<Id, Port>,    // every connection ever accepted
    ports: set<Id>,
    closed: bool,
    hub: Option<Thread>,     // who holds the hub's lock
    accept: AcceptPc,
    closers: map<Id, ClosePc>,
    winner: Option<Id>,      // the Close call that found the hub open
    snapshot: set<Id>,       // the ports it copied
    left: seq<Id>)           // those of them it has yet to close

  const INIT := State(map[], {}, false, None, Accepting, map[], None, {}, [])

  datatype Step =
    | AcceptConn(p: Id) | AcceptFail | AcceptLock | AcceptDecide | AcceptClose
    | ReadHeader(p: Id, hdr: seq<byte>) | ReadPayload(p: Id, buf: seq<byte>) | ReadFail(p: Id)
    | DropLock(p: Id) | DropUnlock(p: Id)
    | SnapLock(p: Id) | SnapTake(p: Id, others: seq<Id>)
    | FloodEnd(p: Id) | PortLock(p: Id)
    | WriteHeader(p: Id, wrote: nat) | WritePayload(p: Id, wrote: nat) | PortUnlock(p: Id)
    | LeaveLock(p: Id) | LeaveDelete(p: Id) | LeaveClose(p: Id)
    | CloseCall(c: Id) | CloseLock(c: Id) | CloseDecide(c: Id, ports: seq<Id>)
    | CloseListener(c: Id) | CloseConn(c: Id) | CloseWait(c: Id)

  /** Go visits a map's keys in any order, each once. */
  ghost predicate Enumerates(order: seq<Id>, ids: set<Id>) {
    && (forall i, j :: 0 <= i < j < |order| ==> order[i] != order[j])
    && (forall x :: x in order <==> x in ids)
  }

  ghost function Do(s: State, step: Step): Option<State> {
    if step.CloseCall? || step.CloseLock? || step.CloseDecide? || step.CloseListener? ||
       step.CloseConn? || step.CloseWait? then DoClose(s, step)
    else if step.AcceptConn? || step.AcceptFail? || step.AcceptLock? || step.AcceptDecide? ||
            step.AcceptClose? then DoAccept(s, step)
    else DoServe(s, step)
  }

  ghost function DoAccept(s: State, step: Step): Option<State> {
    match step
    case AcceptConn(p) =>
      if s.accept.Accepting? && p !in s.conns
      then Some(s.(conns := s.conns[p := NEW_PORT], accept := Got(p))) else None
    case AcceptFail =>
      if s.accept.Accepting? then Some(s.(accept := Stopped)) else None
    case AcceptLock =>
      if s.accept.Got? && s.hub.None?
      then Some(s.(accept := Admitting(s.accept.p), hub := Some(Acceptor))) else None
    case AcceptDecide =>
      if !s.accept.Admitting? || s.accept.p !in s.conns then None
      else if s.closed then Some(s.(accept := Refusing(s.accept.p), hub := None))
      else
        var p := s.accept.p;
        Some(s.(accept := Accepting, hub := None, ports := s.ports + {p},
                conns := s.conns[p := s.conns[p].(pc := ReadHdr)]))
    case AcceptClose =>
      if s.accept.Refusing? && s.accept.p in s.conns
      then Some(s.(accept := Stopped,
                   conns := s.conns[s.accept.p := s.conns[s.accept.p].(closed := true)]))
      else None
    case _ => None
  }

  ghost function DoClose(s: State, step: Step): Option<State> {
    match step
    case CloseCall(c) =>
      if c !in s.closers then Some(s.(closers := s.closers[c := Want])) else None
    case CloseLock(c) =>
      if c in s.closers && s.closers[c].Want? && s.hub.None?
      then Some(s.(closers := s.closers[c := ClosePc.Held], hub := Some(Closer(c)))) else None
    case CloseDecide(c, ports) =>
      if !(c in s.closers && s.closers[c].Held?) then None
      else if s.closed then Some(s.(closers := s.closers[c := Returned], hub := None))
      else if Enumerates(ports, s.ports)
      then Some(s.(closers := s.closers[c := Listener], hub := None, closed := true,
                   winner := Some(c), snapshot := s.ports, left := ports))
      else None
    case CloseListener(c) =>
      if c in s.closers && s.closers[c].Listener?
      then Some(s.(closers := s.closers[c := Conns])) else None
    case CloseConn(c) =>
      if !(c in s.closers && s.closers[c].Conns?) then None
      else if s.left == [] then Some(s.(closers := s.closers[c := Wait]))
      else if s.left[0] !in s.conns then None
      else
        var p := s.left[0];
        Some(s.(left := s.left[1..], conns := s.conns[p := s.conns[p].(closed := true)]))
    case CloseWait(c) =>
      // wg.Wait: the acceptor and every goroutine it started have returned.
      if c in s.closers && s.closers[c].Wait? && s.accept.Stopped? && AllServersEnded(s)
      then Some(s.(closers := s.closers[c := Returned])) else None
    case _ => None
  }

  ghost predicate AllServersEnded(s: State) {
    forall p :: p in s.conns ==> s.conns[p].pc.Unserved? || s.conns[p].pc.Gone?
  }

  /** A step of the goroutine that serves port p; P is that port. */
  ghost function DoServe(s: State, step: Step): Option<State>
    requires !step.AcceptConn? && !step.AcceptFail? && !step.AcceptLock? && !step.AcceptDecide? && !step.AcceptClose?
    requires !step.CloseCall? && !step.CloseLock? && !step.CloseDecide? && !step.CloseListener?
    requires !step.CloseConn? && !step.CloseWait?
  {
    var p := step.p;
    if p !in s.conns then None
    else if step.PortLock? || step.WriteHeader? || step.WritePayload? || step.PortUnlock? then
      DoWrite(s, step)
    else if step.DropLock? || step.DropUnlock? || step.SnapLock? || step.SnapTake? || step.LeaveLock? ||
            step.LeaveDelete? then
      DoHubLock(s, step)
    else
      match DoOwn(s.conns[p], step)
      case None => None
      case Some(P) => Some(s.(conns := s.conns[p := P]))
  }

  /** The steps that touch nothing but the goroutine's own port. */
  ghost function DoOwn(P: Port, step: Step): Option<Port> {
    match step
    case ReadHeader(_, hdr) =>
      if !P.pc.ReadHdr? || P.closed || |hdr| != 4 then None
      else
        var n := FromBe32(hdr);
        Some(P.(hdr := hdr, received := P.received + hdr,
                pc := if n == 0 || n > MAX_FRAME then DropWant else ReadBody))
    case ReadPayload(_, buf) =>
      if !P.pc.ReadBody? || P.closed || |P.hdr| != 4 || |buf| != FromBe32(P.hdr) || buf == [] || |buf| > MAX_FRAME
      then None
      else Some(P.(buf := buf, received := P.received + buf, frames := P.frames + [buf], pc := SnapWant))
    case ReadFail(_) =>
      if P.pc.ReadHdr? || P.pc.ReadBody? then Some(P.(pc := LeaveWant)) else None
    case FloodEnd(_) =>
      if P.pc.Flooding? && P.todo == [] then Some(P.(pc := ReadHdr)) else None
    case LeaveClose(_) =>
      if P.pc.Closing? then Some(P.(pc := Gone, closed := true)) else None
    case _ => None
  }

  /** The steps that take or release the hub's lock. */
  ghost function DoHubLock(s: State, step: Step): Option<State>
    requires step.DropLock? || step.DropUnlock? || step.SnapLock? || step.SnapTake? || step.LeaveLock? || step.LeaveDelete?
    requires step.p in s.conns
  {
    var p, P := step.p, s.conns[step.p];
    match step
    case DropLock(_) => if P.pc.DropWant? then TakeHub(s, p, DropHeld) else None
    case SnapLock(_) => if P.pc.SnapWant? then TakeHub(s, p, SnapHeld) else None
    case LeaveLock(_) => if P.pc.LeaveWant? then TakeHub(s, p, LeaveHeld) else None
    case DropUnlock(_) =>
      if P.pc.DropHeld?
      then Some(s.(hub := None, conns := s.conns[p := P.(pc := LeaveWant)])) else None
    case SnapTake(_, others) =>
      if P.pc.SnapHeld? && Enumerates(others, s.ports - {p})
      then Some(s.(hub := None, conns := s.conns[p := P.(pc := Flooding, todo := others,
                                                         snaps := P.snaps + [s.ports - {p}])]))
      else None
    case LeaveDelete(_) =>
      if P.pc.LeaveHeld?
      then Some(s.(hub := None, ports := s.ports - {p}, conns := s.conns[p := P.(pc := Closing)])) else None
  }

  ghost function TakeHub(s: State, p: Id, pc: Pc): Option<State>
    requires p in s.conns
  {
    if s.hub.None? then Some(s.(hub := Some(Server(p)), conns := s.conns[p := s.conns[p].(pc := pc)])) else None
  }

  /**
   * The steps of flood that work on another port. A write takes `wrote` bytes of what it is given:
   * all of them unless it fails, and it fails for ever once it has failed or the connection is closed.
   */
  ghost function DoWrite(s: State, step: Step): Option<State>
    requires step.PortLock? || step.WriteHeader? || step.WritePayload? || step.PortUnlock?
    requires step.p in s.conns
  {
    var p, P := step.p, s.conns[step.p];
    match step
    case PortLock(_) =>
      if P.pc.Flooding? && P.todo != [] && P.todo[0] in s.conns && P.todo[0] != p && s.conns[P.todo[0]].lock.None?
      then
        var q := P.todo[0];
        Some(s.(conns := s.conns[p := P.(pc := HoldHdr)][q := s.conns[q].(lock := Some(p))]))
      else None
    case WriteHeader(_, wrote) =>
      if P.pc.HoldHdr? && P.todo != [] && P.todo[0] in s.conns && P.todo[0] != p && wrote <= |P.hdr| &&
         (wrote == 0 || CanWrite(s.conns[P.todo[0]]))
      then
        var q := P.todo[0];
        var Q := s.conns[q].(out := s.conns[q].out + P.hdr[..wrote]);
        if wrote == |P.hdr| then Some(s.(conns := s.conns[p := P.(pc := HoldBody)][q := Q]))
        else Some(s.(conns := s.conns[p := P.(pc := HoldDone(q), todo := P.todo[1..])][q := Q.(broken := true)]))
      else None
    case WritePayload(_, wrote) =>
      if P.pc.HoldBody? && P.todo != [] && P.todo[0] in s.conns && P.todo[0] != p && wrote <= |P.buf| &&
         (wrote == 0 || CanWrite(s.conns[P.todo[0]])) && P.frames != []
      then
        var q := P.todo[0];
        var P' := P.(pc := HoldDone(q), todo := P.todo[1..]);
        var Q := s.conns[q].(out := s.conns[q].out + P.buf[..wrote]);
        var i := |P.frames| - 1;
        if wrote == |P.buf|
        then Some(s.(conns := s.conns[p := P'][q := Q.(log := Q.log + [Delivery(p, i, P.frames[i])])]))
        else Some(s.(conns := s.conns[p := P'][q := Q.(broken := true)]))
      else None
    case PortUnlock(_) =>
      if P.pc.HoldDone? && P.pc.target in s.conns && P.pc.target != p
      then
        var q := P.pc.target;
        Some(s.(conns := s.conns[p := P.(pc := Flooding)][q := s.conns[q].(lock := None)]))
      else None
  }

  predicate CanWrite(P: Port) {
    !P.closed && !P.broken
  }

  /** Running a list of steps from a state; None if some step is not possible where it stands. */
  ghost function Run(s: State, steps: seq<Step>): Option<State>
    decreases |steps|
  {
    if steps == [] then Some(s)
    else
      match Do(s, steps[0])
      case None => None
      case Some(s') => Run(s', steps[1..])
  }

  /** The states some interleaving leads to. */
  ghost predicate Reaches(steps: seq<Step>, s: State) {
    Run(INIT, steps) == Some(s)
  }
}
