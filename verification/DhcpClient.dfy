/** The DHCP client (internal/dhcp/client.go): every action it takes is one the automaton allows. */
module DhcpClient {
  import opened Bytes
  import opened DhcpPacket
  import opened DhcpLease
  import opened DhcpProtocol
  import opened DhcpRuns

  datatype Failure = SendFailed | NoAnswer | Unexpected(msgType: byte) | NoServer | Done | ApplyFailed | Lost

  /** The phases in which the client listens for xid. */
  predicate Waits(ph: Phase, xid: Xid) {
    match ph
    case Renewing(_, x) => x == xid
    case Rebinding(_, x) => x == xid
    case Selecting(_, x) => x == xid
    case Requesting(_, x) => x == xid
    case _ => false
  }

  function AfterAnswer(c: Config, ph: Phase, a: Answer): Option<Phase> {
    match ph
    case Renewing(l, _) => AwaitAck(ph, a, Rebind(l))
    case Rebinding(_, _) => AwaitAck(ph, a, Init(Attempts(c)))
    case Requesting(left, _) => AwaitAck(ph, a, Failed(left))
    case Selecting(left, x) => (
      match a
      case NotAnAnswer => None
      case Waiting => Some(ph)
      case Silence => Some(Failed(left))
      case Message(o, msgType) => Some(if msgType == OFFER then Request0(left, x, o) else Failed(left))
    )
    case _ => None
  }

  lemma Answers(c: Config, ph: Phase, e: Event, xid: Xid)
    requires |c.mac| <= 16 && Waits(ph, xid)
    ensures Next(c, ph, e) == AfterAnswer(c, ph, AnswerIn(c, e, xid))
  {
    hide AnswerIn, AwaitAck;
  }

  /** Where discovery ends without a lease: its last exchange failed, or the context was done before or after one. */
  predicate GaveUp(ph: Phase) {
    ph == Failed(1) || ph == Stopped || ph.Init?
  }

  /** The first of the receives that is a reply to xid, if no receive fails before it. */
  function FirstReply(c: Config, inbox: seq<Option<seq<byte>>>, xid: Xid): Option<(Lease, byte)>
    requires |c.mac| <= 16
  {
    if inbox == [] || inbox[0].None? then None
    else if Heard(c, inbox[0].value, xid).Some? then Heard(c, inbox[0].value, xid)
    else FirstReply(c, inbox[1..], xid)
  }

  function AfterFirstReply(c: Config, inbox: seq<Option<seq<byte>>>, xid: Xid): seq<Option<seq<byte>>>
    requires |c.mac| <= 16
  {
    if inbox == [] then []
    else if inbox[0].None? || Heard(c, inbox[0].value, xid).Some? then inbox[1..]
    else AfterFirstReply(c, inbox[1..], xid)
  }

  /** Packets for others before it make no difference to the reply that is heard. */
  lemma {:induction false} OthersAreSkipped(c: Config, others: seq<seq<byte>>, reply: seq<byte>, rest: seq<Option<seq<byte>>>, xid: Xid)
    requires |c.mac| <= 16 && Parsed(reply, xid, c.mac).Ok?
    requires forall i :: 0 <= i < |others| ==> Parsed(others[i], xid, c.mac).Err?
    ensures var inbox := Delivered(others) + [Some(reply)] + rest;
      FirstReply(c, inbox, xid) == Some(Parsed(reply, xid, c.mac).value) && AfterFirstReply(c, inbox, xid) == rest
  {
    hide Parsed;
    var inbox := Delivered(others) + [Some(reply)] + rest;
    if others == [] {
      assert inbox[0] == Some(reply) && inbox[1..] == rest;
    } else {
      assert Delivered(others)[1..] == Delivered(others[1..]);
      assert inbox[0] == Some(others[0]) && inbox[1..] == Delivered(others[1..]) + [Some(reply)] + rest;
      OthersAreSkipped(c, others[1..], reply, rest, xid);
    }
  }

  function Delivered(packets: seq<seq<byte>>): (r: seq<Option<seq<byte>>>)
    ensures |r| == |packets|
  {
    seq(|packets|, i requires 0 <= i < |packets| => Some(packets[i]))
  }

  lemma OneMoreExchange(trace: seq<Event>, e: Event)
    ensures Exchanges(trace + [e]) == Exchanges(trace) + if e.Drew? then 1 else 0
  {
    assert (trace + [e])[..|trace|] == trace;
  }

  class Client {
    const config: Config
    // What the world does after n events: the number drawn, whether a packet leaves, whether a lease
    // can be applied, whether the context is done.
    const draws: nat -> Xid
    const leaves: nat -> bool
    const applies: nat -> bool
    const done: nat -> bool
    // What each receive returns (None is an error) and how each sleep ends; past the end, the deadline
    // passes and the context is done.
    var inbox: seq<Option<seq<byte>>>
    var naps: seq<bool>

    var trace: seq<Event>
    ghost const start: Phase
    ghost const initial: Lease
    ghost const unbound: bool

    ghost predicate Valid()
      reads this
    {
      && |config.mac| <= 16 && Starts(start, initial, unbound) && Follow(config, start, trace).Some?
      && forall i :: 0 <= i < |trace| ==> Honest(i, trace[i])
    }

    /** The i-th event is what the world makes of it: this number drawn, this packet sent or not, this lease applied or not. */
    predicate Honest(i: nat, e: Event) {
      match e
      case Drew(xid) => xid == draws(i)
      case Sent(_, _, ok) => ok == leaves(i)
      case Applied(_, ok) => ok == applies(i)
      case _ => true
    }

    ghost function Now(): Phase
      requires Valid()
      reads this
    {
      Follow(config, start, trace).value
    }

    /** A client with nothing yet, or with a lease in force. */
    constructor (config: Config, draws: nat -> Xid, leaves: nat -> bool, applies: nat -> bool, done: nat -> bool,
                 inbox: seq<Option<seq<byte>>>, naps: seq<bool>, ghost initial: Lease, ghost unbound: bool)
      requires |config.mac| <= 16
      ensures Valid() && trace == [] && this.config == config
      ensures Now() == if unbound then Init(Attempts(config)) else Bound(initial)
    {
      this.config := config;
      this.draws, this.leaves, this.applies, this.done := draws, leaves, applies, done;
      this.inbox, this.naps, this.trace := inbox, naps, [];
      this.initial, this.unbound := initial, unbound;
      this.start := if unbound then Init(Attempts(config)) else Bound(initial);
    }

    /** Take an action that the automaton allows now. */
    method Record(e: Event)
      requires Valid() && Next(config, Now(), e).Some? && Honest(|trace|, e)
      modifies this`trace
      ensures Valid() && trace == old(trace) + [e] && Next(config, old(Now()), e) == Some(Now())
      ensures Exchanges(trace) == Exchanges(old(trace)) + if e.Drew? then 1 else 0
    {
      hide Next;
      FollowStep(config, start, trace, e);
      OneMoreExchange(trace, e);
      trace := trace + [e];
    }

    method Draw() returns (xid: Xid)
      requires Valid() && Next(config, Now(), Drew(draws(|trace|))).Some?
      modifies this`trace
      ensures Valid() && trace == old(trace) + [Drew(xid)] && Next(config, old(Now()), Drew(xid)) == Some(Now())
      ensures xid == draws(|old(trace)|) && Exchanges(trace) == Exchanges(old(trace)) + 1
    {
      hide Next;
      xid := draws(|trace|);
      Record(Drew(xid));
    }

    method Send(packet: seq<byte>, dst: Dest) returns (ok: bool)
      requires Valid() && Next(config, Now(), Sent(packet, dst, leaves(|trace|))).Some?
      modifies this`trace
      ensures Valid() && trace == old(trace) + [Sent(packet, dst, ok)]
      ensures Next(config, old(Now()), Sent(packet, dst, ok)) == Some(Now())
      ensures ok == leaves(|old(trace)|) && Exchanges(trace) == Exchanges(old(trace))
    {
      hide Next;
      ok := leaves(|trace|);
      Record(Sent(packet, dst, ok));
    }

    method Sleep(d: nat) returns (ok: bool)
      requires Valid() && Next(config, Now(), Slept(d, true)).Some? && Next(config, Now(), Slept(d, false)).Some?
      modifies this`trace, this`naps
      ensures Valid() && trace == old(trace) + [Slept(d, ok)] && Next(config, old(Now()), Slept(d, ok)) == Some(Now())
      ensures ok <==> old(naps) != [] && old(naps)[0]
      ensures naps == if old(naps) == [] then [] else old(naps)[1..]
      ensures Exchanges(trace) == Exchanges(old(trace))
    {
      hide Next;
      ok := naps != [] && naps[0];
      if naps != [] {
        naps := naps[1..];
      }
      Record(Slept(d, ok));
    }

    /**
     * Read until something parses as a reply to xid, or a receive fails: what is returned is the first
     * reply received, and everything up to it, and nothing after it, has been read.
     */
    method Await(xid: Xid) returns (r: Result<(Lease, byte), Failure>)
      requires Valid() && Waits(Now(), xid)
      modifies this`trace, this`inbox
      ensures Valid() && old(trace) <= trace && Exchanges(trace) == Exchanges(old(trace))
      ensures AfterAnswer(config, old(Now()), if r.Ok? then Message(r.value.0, r.value.1) else Silence) == Some(Now())
      ensures r == match FirstReply(config, old(inbox), xid) { case None => Err(NoAnswer) case Some(m) => Ok(m) }
      ensures inbox == AfterFirstReply(config, old(inbox), xid)
    {
      hide Next, Parsed;
      ghost var ph, calls := Now(), Exchanges(trace);
      while true
        invariant Valid() && old(trace) <= trace && Now() == ph && Exchanges(trace) == calls
        invariant FirstReply(config, inbox, xid) == FirstReply(config, old(inbox), xid)
        invariant AfterFirstReply(config, inbox, xid) == AfterFirstReply(config, old(inbox), xid)
        decreases |inbox|
      {
        if inbox == [] || inbox[0].None? {
          if inbox != [] {
            inbox := inbox[1..];
          }
          Answers(config, ph, NoReply, xid);
          Record(NoReply);
          return Err(NoAnswer);
        }
        var p := inbox[0].value;
        inbox := inbox[1..];
        var m := Parse(p, xid, config.mac);
        Answers(config, ph, Ignored(p), xid);
        Answers(config, ph, Got(p), xid);
        if m.Err? {
          Record(Ignored(p)); // not ours, or malformed
        } else {
          Record(Got(p));
          return Ok(m.value);
        }
      }
    }

    /** One discover and request exchange. */
    method Once() returns (r: Result<Lease, Failure>)
      requires Valid() && Now().Init? && Now().left > 0
      modifies this`trace, this`inbox
      ensures Valid() && old(trace) <= trace
      ensures Now() == if r.Ok? then Granted(r.value) else Failed(old(Now()).left)
      ensures Exchanges(trace) == Exchanges(old(trace)) + 1 && (r.Err? ==> r.error != Done)
    {
      hide Follow, Packet, Parsed, Next, Exchanges, FirstReply, AfterFirstReply;
      DrawIsAllowed(config, Now());
      var xid := Draw();
      var discover := Build(DISCOVER, xid, config.mac, config.hostname, None, None);
      DiscoverIsAllowed(config, Now(), discover);
      var ok := Send(discover, Broadcast);
      if !ok {
        return Err(SendFailed);
      }
      var offer := Await(xid);
      if offer.Err? {
        return Err(offer.error);
      }
      if offer.value.1 != OFFER {
        return Err(Unexpected(offer.value.1));
      }
      var request := Build(REQUEST, xid, config.mac, config.hostname, Some(offer.value.0.ip), offer.value.0.server);
      RequestIsAllowed(config, Now(), request);
      ok := Send(request, Broadcast);
      if !ok {
        return Err(SendFailed);
      }
      var lease := Await(xid);
      if lease.Err? {
        return Err(lease.error);
      }
      if lease.value.1 == NAK {
        return Err(Unexpected(NAK)); // the offer was withdrawn
      }
      if lease.value.1 != ACK {
        return Err(Unexpected(lease.value.1));
      }
      return Ok(lease.value.0);
    }

    /**
     * Exchanges until one grants a lease, at most Attempts of them, with a pause between two. A lease
     * is returned only right after the ACK that granted it.
     */
    method Acquire() returns (r: Result<Lease, Failure>)
      requires Valid() && Now() == Init(Attempts(config))
      modifies this`trace, this`inbox, this`naps
      ensures Valid() && old(trace) <= trace && |naps| <= old(|naps|)
      ensures r.Ok? ==> Now() == Granted(r.value) && EndsIn(config, trace, r.value, ACK)
      ensures r.Err? ==> GaveUp(Now()) && LeaseLost(config, trace, initial, unbound)
      ensures done(|old(trace)|) ==> r == Err(Done) && trace == old(trace)
      ensures r == Err(Done) ==> (Now().Init? && done(|trace|)) || LastIs(trace, Slept(2_000_000_000, false))
      ensures r.Err? && r.error != Done ==> Now() == Failed(1)
      ensures Now() == Failed(1) ==>
        Exchanges(trace) == Exchanges(old(trace)) + if config.maxAttempts > 0 then config.maxAttempts else 6
    {
      hide Exchanges, Follow, Parsed, Packet, EndsIn, Next, LeaseLost, InFlight, LastSent, InForce, AskedInVain;
      var n := Attempts(config);
      r := Err(NoAnswer);
      var attempt := 0;
      while attempt < n
        invariant 0 <= attempt <= n
        invariant Valid() && old(trace) <= trace && |naps| <= old(|naps|)
        invariant attempt < n ==> Now() == Init(n - attempt)
        invariant attempt == n ==> Now() == Failed(1)
        invariant r.Err? && r.error != Done && Exchanges(trace) == Exchanges(old(trace)) + attempt
        invariant attempt == 0 ==> trace == old(trace)
        invariant done(|old(trace)|) ==> attempt == 0
      {
        if done(|trace|) {
          RunSupportsItsPhase(config, start, trace, initial, unbound);
          return Err(Done);
        }
        r := Once();
        if r.Ok? {
          GrantedByAck(config, start, trace, initial, unbound);
          return;
        }
        if attempt < n - 1 {
          PauseIsAllowed(config, n - attempt);
          RunSupportsItsPhase(config, start, trace, initial, unbound);
          ghost var before := trace;
          var ok := Sleep(BACKOFF);
          if !ok {
            OneMore(config, before, Slept(BACKOFF, ok), initial, unbound);
            return Err(Done);
          }
        }
        attempt := attempt + 1;
      }
      RunSupportsItsPhase(config, start, trace, initial, unbound);
    }

    /** A renewal asked of the issuing server alone. */
    method RenewOnce(lease: Lease) returns (r: Result<Lease, Failure>)
      requires Valid() && Now() == if lease.server.Some? then Phase.Renew(lease) else Phase.Rebind(lease)
      modifies this`trace, this`inbox
      ensures Valid() && old(trace) <= trace
      ensures Now() == if r.Ok? then Granted(r.value) else Phase.Rebind(lease)
    {
      hide Follow, Packet, Parsed, Next;
      DrawIsAllowed(config, Now());
      if lease.server.None? {
        return Err(NoServer);
      }
      var xid := Draw();
      var packet := BuildRenew(xid, config.mac, config.hostname, lease.ip);
      RenewalIsAllowed(config, Now(), packet);
      var ok := Send(packet, Unicast(lease.server.value));
      if !ok {
        return Err(SendFailed);
      }
      var got := Await(xid);
      if got.Err? {
        return Err(got.error);
      }
      if got.value.1 != ACK {
        return Err(Unexpected(got.value.1));
      }
      return Ok(got.value.0);
    }

    /** A renewal asked of every server on the link. */
    method Rebind(lease: Lease) returns (r: Result<Lease, Failure>)
      requires Valid() && Now() == Phase.Rebind(lease)
      modifies this`trace, this`inbox
      ensures Valid() && old(trace) <= trace
      ensures Now() == if r.Ok? then Granted(r.value) else Init(Attempts(config))
    {
      hide Follow, Packet, Parsed, Next;
      DrawIsAllowed(config, Now());
      var xid := Draw();
      var packet := BuildRenew(xid, config.mac, config.hostname, lease.ip);
      RebindIsAllowed(config, Now(), packet);
      var ok := Send(packet, Broadcast);
      if !ok {
        return Err(SendFailed);
      }
      var got := Await(xid);
      if got.Err? {
        return Err(got.error);
      }
      if got.value.1 != ACK {
        return Err(Unexpected(got.value.1));
      }
      return Ok(got.value.0);
    }

    /** The next lease: from the issuing server, else from any server, else from discovery. */
    method Replace(held: Lease) returns (next: Result<Lease, Failure>)
      requires Valid() && Now() == if held.server.Some? then Phase.Renew(held) else Phase.Rebind(held)
      modifies this`trace, this`inbox, this`naps
      ensures Valid() && old(trace) <= trace && |naps| <= old(|naps|)
      ensures next.Ok? ==> Now() == Granted(next.value)
      ensures next.Err? ==> LeaseLost(config, trace, initial, unbound) && GaveUp(Now())
    {
      hide Follow, Next, LeaseLost, EndsIn;
      next := RenewOnce(held);
      if next.Err? {
        next := Rebind(held);
      }
      if next.Err? {
        next := Acquire();
      }
    }

    /**
     * Keep the lease alive. It ends in three ways: the context is done, a new lease could not be
     * applied, or the lease was lost and discovery did not find another.
     */
    method Renew(lease: Lease) returns (why: Failure)
      requires Valid() && Now() == Bound(lease)
      modifies this`trace, this`inbox, this`naps
      ensures Valid() && old(trace) <= trace
      ensures why == Done ==> LastIs(trace, Slept(InForce(trace, initial).t1, false))
      ensures why == ApplyFailed ==> LastIs(trace, Applied(InForce(trace, initial), false))
      ensures why == Lost ==> LeaseLost(config, trace, initial, unbound) && GaveUp(Now())
      ensures why == Done || why == ApplyFailed || why == Lost
    {
      hide Follow, Next, EndsIn, LeaseLost, InFlight, LastSent, InForce, AskedInVain, JustSlept, TimeToRebind;
      var held := lease;
      while true
        invariant Valid() && old(trace) <= trace && Now() == Bound(held)
        decreases |naps|
      {
        SleepIsAllowed(config, held);
        RunSupportsItsPhase(config, start, trace, initial, unbound);
        ghost var before := trace;
        var ok := Sleep(held.t1);
        if !ok {
          OneMore(config, before, Slept(held.t1, ok), initial, unbound);
          return Done;
        }
        var next := Replace(held);
        if next.Err? {
          return Lost;
        }
        held := next.value;
        before := trace;
        ok := applies(|trace|);
        ApplyIsAllowed(config, held);
        Record(Applied(held, ok));
        if !ok {
          OneMore(config, before, Applied(held, ok), initial, unbound);
          return ApplyFailed;
        }
      }
    }
  }

  /** Each exchange starts with a number of its own. */
  lemma DrawIsAllowed(c: Config, ph: Phase)
    requires |c.mac| <= 16 && ((ph.Init? && ph.left > 0) || ph.Renew? || ph.Rebind?)
    ensures forall x :: (
      Next(c, ph, Drew(x)) ==
      Some(if ph.Init? then Discover0(ph.left, x) else if ph.Renew? then Renew0(ph.lease, x) else Rebind0(ph.lease, x)))
  {
  }

  lemma DiscoverIsAllowed(c: Config, ph: Phase, packet: seq<byte>)
    requires |c.mac| <= 16 && ph.Discover0? && packet == Packet(DISCOVER, ph.xid, [], c.mac, c.hostname, None, None)
    ensures forall ok :: (
      Next(c, ph, Sent(packet, Broadcast, ok)) ==
      Some(if ok then Selecting(ph.left, ph.xid) else Failed(ph.left)))
  {
    hide Packet;
  }

  lemma RequestIsAllowed(c: Config, ph: Phase, packet: seq<byte>)
    requires |c.mac| <= 16 && ph.Request0?
    requires packet == Packet(REQUEST, ph.xid, [], c.mac, c.hostname, Some(ph.offer.ip), ph.offer.server)
    ensures forall ok :: (
      Next(c, ph, Sent(packet, Broadcast, ok)) ==
      Some(if ok then Requesting(ph.left, ph.xid) else Failed(ph.left)))
  {
    hide Packet;
  }

  lemma RenewalIsAllowed(c: Config, ph: Phase, packet: seq<byte>)
    requires |c.mac| <= 16 && ph.Renew0? && ph.lease.server.Some?
    requires packet == Packet(REQUEST, ph.xid, To4(ph.lease.ip), c.mac, c.hostname, None, None)
    ensures forall ok :: (
      Next(c, ph, Sent(packet, Unicast(ph.lease.server.value), ok)) ==
      Some(if ok then Renewing(ph.lease, ph.xid) else Rebind(ph.lease)))
  {
    hide Packet, To4;
  }

  lemma RebindIsAllowed(c: Config, ph: Phase, packet: seq<byte>)
    requires |c.mac| <= 16 && ph.Rebind0?
    requires packet == Packet(REQUEST, ph.xid, To4(ph.lease.ip), c.mac, c.hostname, None, None)
    ensures forall ok :: (
      Next(c, ph, Sent(packet, Broadcast, ok)) ==
      Some(if ok then Rebinding(ph.lease, ph.xid) else Init(Attempts(c))))
  {
    hide Packet, To4;
  }

  lemma PauseIsAllowed(c: Config, left: nat)
    requires |c.mac| <= 16 && left >= 2
    ensures Next(c, Failed(left), Slept(BACKOFF, true)) == Some(Init(left - 1))
    ensures Next(c, Failed(left), Slept(BACKOFF, false)) == Some(Stopped)
  {
  }

  lemma SleepIsAllowed(c: Config, l: Lease)
    requires |c.mac| <= 16
    ensures Next(c, Bound(l), Slept(l.t1, true)) == Some(if l.server.Some? then Renew(l) else Rebind(l))
    ensures Next(c, Bound(l), Slept(l.t1, false)) == Some(Stopped)
  {
  }

  lemma ApplyIsAllowed(c: Config, l: Lease)
    requires |c.mac| <= 16
    ensures Next(c, Granted(l), Applied(l, true)) == Some(Bound(l))
    ensures Next(c, Granted(l), Applied(l, false)) == Some(Stopped)
  {
  }

  /** A link on which nothing can be sent, for a lease whose server is not known. */
  function LosingTrace(c: Config, l: Lease, x: Xid, y: Xid): seq<Event> {
    [Slept(l.t1, true), Drew(x), Sent(RenewPacket(c, x, l), Broadcast, false), Drew(y), Sent(DiscoverPacket(c, y), Broadcast, false)]
  }

  /**
   * A run of Renew that the automaton allows and that is over, although the context was never done and no
   * lease failed to apply: T1 passes, the broadcast fails, and so does the one discovery allowed.
   */
  lemma RenewCanLoseTheLease(c: Config, l: Lease, x: Xid, y: Xid)
    requires |c.mac| <= 16 && c.maxAttempts == 1 && l.server.None?
    ensures var trace := LosingTrace(c, l, x, y);
      && Follow(c, Bound(l), trace) == Some(Failed(1)) && LeaseLost(c, trace, l, false)
      && (forall e :: Next(c, Failed(1), e).None?)
      && (forall i :: 0 <= i < |trace| ==> trace[i] != Slept(l.t1, false) && !trace[i].Applied?)
  {
    hide RenewPacket, DiscoverPacket, Follow, LeaseLost;
    var e1, e2 := Slept(l.t1, true), Drew(x);
    var e3 := Sent(RenewPacket(c, x, l), Broadcast, false);
    var e4, e5 := Drew(y), Sent(DiscoverPacket(c, y), Broadcast, false);
    var start := Bound(l);
    FollowNothing(c, start);
    FollowStep(c, start, [], e1);
    FollowStep(c, start, [e1], e2);
    FollowStep(c, start, [e1, e2], e3);
    FollowStep(c, start, [e1, e2, e3], e4);
    FollowStep(c, start, [e1, e2, e3, e4], e5);
    assert [] + [e1] == [e1] && [e1] + [e2] == [e1, e2] && [e1, e2] + [e3] == [e1, e2, e3];
    assert [e1, e2, e3] + [e4] == [e1, e2, e3, e4] && [e1, e2, e3, e4] + [e5] == LosingTrace(c, l, x, y);
    hide Next;
    RunSupportsItsPhase(c, start, LosingTrace(c, l, x, y), l, false);
  }

  lemma FollowNothing(c: Config, start: Phase)
    requires |c.mac| <= 16
    ensures Follow(c, start, []) == Some(start)
  {
  }

  /** Whatever a client has done, by any of its methods and in any world, it did when that was due. */
  lemma EverythingItDidWasDue(k: Client, j: nat)
    requires k.Valid() && j < |k.trace|
    ensures IsDue(k.config, k.trace[..j], k.trace[j], k.initial, k.unbound)
  {
    EveryEventIsDue(k.config, k.start, k.trace, k.initial, k.unbound, j);
  }
}
