/**
 * What a DHCP client may do next, as RFC 2131 sections 4.4.1 and 4.4.5 order it: an automaton over
 * the client's visible actions, independent of how the client is written.
 */
module DhcpProtocol {
  import opened Bytes
  import opened DhcpPacket
  import opened DhcpLease

  type Xid = x: nat | x < TWO_32

  datatype Dest = Broadcast | Unicast(ip: seq<byte>)

  datatype Event =
    | Drew(xid: Xid)
    | Sent(packet: seq<byte>, dst: Dest, ok: bool)
    | Ignored(packet: seq<byte>)       // received, and not a reply to the exchange in flight
    | Got(packet: seq<byte>)
    | NoReply                          // the receive timed out or failed
    | Slept(d: nat, ok: bool)
    | Applied(lease: Lease, ok: bool)

  const BACKOFF: nat := 2 * SECOND

  /** The client's name for itself: hardware address, host name, and how often Acquire tries. */
  datatype Config = Config(mac: seq<byte>, hostname: text, maxAttempts: int)

  const DEFAULT_ATTEMPTS: nat := 6

  function Attempts(c: Config): (n: nat)
    ensures n >= 1
  {
    if c.maxAttempts > 0 then c.maxAttempts else DEFAULT_ATTEMPTS
  }

  datatype Phase =
    | Bound(lease: Lease)                          // asleep until T1
    | Renew(lease: Lease) | Renew0(lease: Lease, xid: Xid) | Renewing(lease: Lease, xid: Xid)
    | Rebind(lease: Lease) | Rebind0(lease: Lease, xid: Xid) | Rebinding(lease: Lease, xid: Xid)
    | Init(left: nat) | Discover0(left: nat, xid: Xid) | Selecting(left: nat, xid: Xid)
    | Request0(left: nat, xid: Xid, offer: Lease) | Requesting(left: nat, xid: Xid)
    | Failed(left: nat)                            // an exchange failed; `left` counts it and those still allowed
    | Granted(lease: Lease)
    | Stopped

  /** The message a packet carries for this client and exchange, if it is one. */
  function Heard(c: Config, packet: seq<byte>, xid: Xid): Option<(Lease, byte)>
    requires |c.mac| <= 16
  {
    match Parsed(packet, xid, c.mac)
    case Err(_) => None
    case Ok(m) => Some(m)
  }

  function RenewPacket(c: Config, xid: Xid, lease: Lease): seq<byte> {
    Packet(REQUEST, xid, To4(lease.ip), c.mac, c.hostname, None, None)
  }

  function DiscoverPacket(c: Config, xid: Xid): seq<byte> {
    Packet(DISCOVER, xid, [], c.mac, c.hostname, None, None)
  }

  /** A request for an offer. */
  function RequestPacket(c: Config, xid: Xid, offer: Lease): seq<byte> {
    Packet(REQUEST, xid, [], c.mac, c.hostname, Some(offer.ip), offer.server)
  }

  /** What an event means to a client waiting for a reply to xid. */
  datatype Answer = Waiting | Silence | Message(lease: Lease, msgType: byte) | NotAnAnswer

  function AnswerIn(c: Config, e: Event, xid: Xid): Answer
    requires |c.mac| <= 16
  {
    match e
    case Ignored(p) => if Heard(c, p, xid).None? then Waiting else NotAnAnswer
    case NoReply => Silence
    case Got(p) =>
      var m := Heard(c, p, xid);
      if m.None? then NotAnAnswer else Message(m.value.0, m.value.1)
    case _ => NotAnAnswer
  }

  /** Waiting for an ACK: granted by it, one failure phase for everything else. */
  function AwaitAck(ph: Phase, a: Answer, otherwise: Phase): Option<Phase> {
    match a
    case NotAnAnswer => None
    case Waiting => Some(ph)
    case Silence => Some(otherwise)
    case Message(l, msgType) => Some(if msgType == ACK then Granted(l) else otherwise)
  }

  function NextRenewal(c: Config, ph: Phase, e: Event): Option<Phase>
    requires |c.mac| <= 16
  {
    match ph
    case Bound(l) =>
      if e == Slept(l.t1, true) then Some(if l.server.Some? then Renew(l) else Rebind(l))
      else if e == Slept(l.t1, false) then Some(Stopped)
      else None
    case Renew(l) => if e.Drew? then Some(Renew0(l, e.xid)) else None
    case Renew0(l, x) =>
      if e.Sent? && l.server.Some? && e.packet == RenewPacket(c, x, l) && e.dst == Unicast(l.server.value)
      then Some(if e.ok then Renewing(l, x) else Rebind(l)) else None
    case Renewing(l, x) => AwaitAck(ph, AnswerIn(c, e, x), Rebind(l))
    case _ => None
  }

  function NextRebind(c: Config, ph: Phase, e: Event): Option<Phase>
    requires |c.mac| <= 16
  {
    match ph
    case Rebind(l) => if e.Drew? then Some(Rebind0(l, e.xid)) else None
    case Rebind0(l, x) =>
      if e.Sent? && e.packet == RenewPacket(c, x, l) && e.dst == Broadcast
      then Some(if e.ok then Rebinding(l, x) else Init(Attempts(c))) else None
    case Rebinding(l, x) => AwaitAck(ph, AnswerIn(c, e, x), Init(Attempts(c)))
    case _ => None
  }

  function NextDiscovery(c: Config, ph: Phase, e: Event): Option<Phase>
    requires |c.mac| <= 16
  {
    match ph
    case Init(left) => if e.Drew? && left > 0 then Some(Discover0(left, e.xid)) else None
    case Discover0(left, x) =>
      if e.Sent? && e.packet == DiscoverPacket(c, x) && e.dst == Broadcast
      then Some(if e.ok then Selecting(left, x) else Failed(left)) else None
    case Selecting(left, x) => (
      match AnswerIn(c, e, x)
      case NotAnAnswer => None
      case Waiting => Some(ph)
      case Silence => Some(Failed(left))
      case Message(o, msgType) => Some(if msgType == OFFER then Request0(left, x, o) else Failed(left))
    )
    case Request0(left, x, o) =>
      if e.Sent? && e.packet == RequestPacket(c, x, o) && e.dst == Broadcast
      then Some(if e.ok then Requesting(left, x) else Failed(left)) else None
    case Requesting(left, x) => AwaitAck(ph, AnswerIn(c, e, x), Failed(left))
    case Failed(left) =>
      if left < 2 then None
      else if e == Slept(BACKOFF, true) then Some(Init(left - 1))
      else if e == Slept(BACKOFF, false) then Some(Stopped)
      else None
    case _ => None
  }

  function Next(c: Config, ph: Phase, e: Event): Option<Phase>
    requires |c.mac| <= 16
  {
    match ph
    case Granted(l) =>
      if e == Applied(l, true) then Some(Bound(l)) else if e == Applied(l, false) then Some(Stopped) else None
    case Stopped => None
    case _ =>
      if NextRenewal(c, ph, e).Some? then NextRenewal(c, ph, e)
      else if NextRebind(c, ph, e).Some? then NextRebind(c, ph, e)
      else NextDiscovery(c, ph, e)
  }

  /** Where a trace leads from a phase; None if some action of it was not allowed. */
  function Follow(c: Config, start: Phase, trace: seq<Event>): Option<Phase>
    requires |c.mac| <= 16
  {
    if trace == [] then Some(start)
    else
      match Follow(c, start, trace[..|trace| - 1])
      case None => None
      case Some(ph) => Next(c, ph, trace[|trace| - 1])
  }

  lemma FollowStep(c: Config, start: Phase, trace: seq<Event>, e: Event)
    requires |c.mac| <= 16
    ensures Follow(c, start, trace + [e]) ==
      match Follow(c, start, trace) { case None => None case Some(ph) => Next(c, ph, e) }
  {
    hide Next;
    assert (trace + [e])[..|trace|] == trace;
  }

  // ------------------------------------------------------------------ what a trace says, read without the automaton

  /** The transaction id of the exchange in flight. */
  function InFlight(trace: seq<Event>): Option<Xid> {
    if trace == [] then None
    else if trace[|trace| - 1].Drew? then Some(trace[|trace| - 1].xid)
    else InFlight(trace[..|trace| - 1])
  }

  /** The last packet sent in the exchange in flight. */
  function LastSent(trace: seq<Event>): Option<Event> {
    if trace == [] || trace[|trace| - 1].Drew? then None
    else if trace[|trace| - 1].Sent? then Some(trace[|trace| - 1])
    else LastSent(trace[..|trace| - 1])
  }

  /** The lease in force: the one applied last. */
  function InForce(trace: seq<Event>, initial: Lease): Lease {
    if trace == [] then initial
    else if trace[|trace| - 1].Applied? then trace[|trace| - 1].lease
    else InForce(trace[..|trace| - 1], initial)
  }

  /** The last event is this client's answer, of the given type, in the exchange in flight. */
  predicate EndsIn(c: Config, trace: seq<Event>, lease: Lease, msgType: byte)
    requires |c.mac| <= 16
  {
    && trace != [] && trace[|trace| - 1].Got?
    && InFlight(trace).Some?
    && Parsed(trace[|trace| - 1].packet, InFlight(trace).value, c.mac) == Ok((lease, msgType))
  }

  /** The last event ends a request for l sent to dst without an ACK: not sent, not answered, or answered otherwise. */
  predicate AskedInVain(c: Config, trace: seq<Event>, l: Lease, dst: Dest)
    requires |c.mac| <= 16
  {
    && trace != [] && InFlight(trace).Some?
    && var x := InFlight(trace).value;
       var e := trace[|trace| - 1];
       match LastSent(trace)
       case None => false
       case Some(s) =>
         && s.Sent? && s.packet == RenewPacket(c, x, l) && s.dst == dst
         && ((e == s && !s.ok)
             || (s.ok && e.NoReply?)
             || (s.ok && e.Got? && Heard(c, e.packet, x).Some? && Heard(c, e.packet, x).value.1 != ACK))
  }

  /** The lease in force was given up, after a broadcast for it in vain, and none has been applied since. */
  predicate LeaseLost(c: Config, trace: seq<Event>, initial: Lease, lostBefore: bool)
    requires |c.mac| <= 16
  {
    if trace == [] then lostBefore
    else
      || AskedInVain(c, trace, InForce(trace, initial), Broadcast)
      || (!trace[|trace| - 1].Applied? && LeaseLost(c, trace[..|trace| - 1], initial, lostBefore))
  }

  predicate JustSlept(trace: seq<Event>, d: nat) {
    trace != [] && trace[|trace| - 1] == Slept(d, true)
  }

  /** Time to broadcast for l: its server could not be asked, or was asked in vain. */
  predicate TimeToRebind(c: Config, trace: seq<Event>, l: Lease)
    requires |c.mac| <= 16
  {
    if l.server.None? then JustSlept(trace, l.t1) else AskedInVain(c, trace, l, Unicast(l.server.value))
  }

  /** What may be sent after a trace, and what must have come before it. */
  ghost predicate SendIsDue(c: Config, trace: seq<Event>, e: Event, initial: Lease, lostBefore: bool)
    requires |c.mac| <= 16 && e.Sent?
  {
    && trace != [] && InFlight(trace).Some?
    && var x := InFlight(trace).value;
       var l := InForce(trace, initial);
       var before := trace[..|trace| - 1];
       || RenewalIsDue(c, trace, e, l, x)
       || (e.dst == Broadcast && e.packet == RenewPacket(c, x, l) && trace[|trace| - 1] == Drew(x) && TimeToRebind(c, before, l))
       || (e.dst == Broadcast && e.packet == DiscoverPacket(c, x) && trace[|trace| - 1] == Drew(x)
           && LeaseLost(c, trace, initial, lostBefore))
       || (RepeatsTheOffer(c, trace, e, x) && LeaseLost(c, trace, initial, lostBefore))
  }

  /** A unicast to the issuing server is due as soon as T1 has passed. */
  predicate RenewalIsDue(c: Config, trace: seq<Event>, e: Event, l: Lease, x: Xid)
    requires |c.mac| <= 16 && e.Sent? && trace != []
  {
    && l.server.Some? && e.dst == Unicast(l.server.value) && e.packet == RenewPacket(c, x, l)
    && trace[|trace| - 1] == Drew(x) && JustSlept(trace[..|trace| - 1], l.t1)
  }

  /** A request goes out right after the offer it repeats, with that offer's address and server. */
  ghost predicate RepeatsTheOffer(c: Config, trace: seq<Event>, e: Event, x: Xid)
    requires |c.mac| <= 16 && e.Sent?
  {
    exists o :: EndsIn(c, trace, o, OFFER) && e.dst == Broadcast && e.packet == RequestPacket(c, x, o)
  }

  /** Every event that this client decides on, and when it may do so. */
  ghost predicate IsDue(c: Config, trace: seq<Event>, e: Event, initial: Lease, lostBefore: bool)
    requires |c.mac| <= 16
  {
    match e
    case Sent(_, _, _) => SendIsDue(c, trace, e, initial, lostBefore)
    case Applied(l, _) => EndsIn(c, trace, l, ACK)
    case Slept(d, _) =>
      if LeaseLost(c, trace, initial, lostBefore) then d == 2_000_000_000 else d == InForce(trace, initial).t1
    case Ignored(p) => InFlight(trace).Some? && Heard(c, p, InFlight(trace).value).None?
    case Got(p) => InFlight(trace).Some? && Heard(c, p, InFlight(trace).value).Some?
    case _ => true
  }

  // ------------------------------------------------------------------ every allowed event is due

  /** What a trace must have looked like for the automaton to be in a phase. */
  predicate Supports(c: Config, trace: seq<Event>, initial: Lease, lostBefore: bool, ph: Phase)
    requires |c.mac| <= 16
  {
    var l := InForce(trace, initial);
    var x := InFlight(trace);
    var before := if trace == [] then [] else trace[..|trace| - 1];
    var lost := LeaseLost(c, trace, initial, lostBefore);
    match ph
    case Bound(k) => k == l && !lost
    case Renew(k) => k == l && !lost && l.server.Some? && JustSlept(trace, l.t1)
    case Renew0(k, y) => k == l && !lost && x == Some(y) && LastIs(trace, Drew(y)) && l.server.Some? && JustSlept(before, l.t1)
    case Renewing(k, y) =>
      k == l && !lost && x == Some(y) && l.server.Some?
      && LastSent(trace) == Some(Sent(RenewPacket(c, y, l), Unicast(l.server.value), true))
    case Rebind(k) => k == l && !lost && TimeToRebind(c, trace, l)
    case Rebind0(k, y) => k == l && !lost && x == Some(y) && LastIs(trace, Drew(y)) && TimeToRebind(c, before, l)
    case Rebinding(k, y) =>
      k == l && !lost && x == Some(y) && LastSent(trace) == Some(Sent(RenewPacket(c, y, l), Broadcast, true))
    case Init(_) => lost
    case Discover0(_, y) => lost && x == Some(y) && LastIs(trace, Drew(y))
    case Selecting(_, y) => lost && x == Some(y)
    case Request0(_, y, o) => lost && x == Some(y) && EndsIn(c, trace, o, OFFER)
    case Requesting(_, y) => lost && x == Some(y)
    case Failed(_) => lost
    case Granted(k) => EndsIn(c, trace, k, ACK)
    case Stopped => true
  }

  predicate LastIs(trace: seq<Event>, e: Event) {
    trace != [] && trace[|trace| - 1] == e
  }

  /** A client starts bound to a lease, or with none and an Acquire to make. */
  predicate Starts(start: Phase, initial: Lease, lostBefore: bool) {
    if lostBefore then start.Init? else start == Bound(initial)
  }

  lemma OneMore(c: Config, trace: seq<Event>, e: Event, initial: Lease, lostBefore: bool)
    requires |c.mac| <= 16
    ensures InFlight(trace + [e]) == if e.Drew? then Some(e.xid) else InFlight(trace)
    ensures LastSent(trace + [e]) == if e.Drew? then None else if e.Sent? then Some(e) else LastSent(trace)
    ensures InForce(trace + [e], initial) == if e.Applied? then e.lease else InForce(trace, initial)
    ensures LeaseLost(c, trace + [e], initial, lostBefore) <==>
      (AskedInVain(c, trace + [e], InForce(trace + [e], initial), Broadcast)
       || (!e.Applied? && LeaseLost(c, trace, initial, lostBefore)))
    ensures (trace + [e])[..|trace|] == trace && |trace + [e]| == |trace| + 1
    ensures forall d :: JustSlept(trace + [e], d) <==> e == Slept(d, true)
    ensures forall f :: LastIs(trace + [e], f) <==> e == f
  {
    hide AskedInVain;
    assert (trace + [e])[..|trace|] == trace;
  }
}
