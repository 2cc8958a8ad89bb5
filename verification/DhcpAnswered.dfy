/** What the protocol comes to when a server answers: the paths of RFC 2131 that end in a lease. */
module DhcpAnswered {
  import opened Bytes
  import opened DhcpPacket
  import opened DhcpLease
  import opened DhcpProtocol
  import opened DhcpRuns
  import opened DhcpFields

  /** What a server sends: an address, and options in any order with any padding. */
  datatype Answering = Answering(yiaddr: seq<byte>, items: seq<Item>, rest: seq<byte>)

  predicate Sends(a: Answering, msgType: byte) {
    |a.yiaddr| == 4 && Encodable(a.items) && First(Kept(a.items), 53) == Some([msgType])
  }

  function ReplyTo(c: Config, xid: Xid, a: Answering): seq<byte> {
    DhcpLease.Reply(xid, a.yiaddr, c.mac, a.items, a.rest)
  }

  /** What the client makes of it. */
  lemma IsHeard(c: Config, xid: Xid, a: Answering, msgType: byte) returns (l: Lease)
    requires |c.mac| <= 16 && Sends(a, msgType)
    ensures Heard(c, ReplyTo(c, xid, a), xid) == Some((l, msgType)) && Grants(l, a.yiaddr, Kept(a.items))
    ensures AnswerIn(c, Got(ReplyTo(c, xid, a)), xid) == Message(l, msgType)
  {
    hide Grants, Parsed, Reply, First, Kept;
    ReplyGrants(xid, a.yiaddr, c.mac, a.items, a.rest, msgType);
    l := Parsed(ReplyTo(c, xid, a), xid, c.mac).value.0;
  }

  lemma Then(c: Config, start: Phase, trace: seq<Event>, e: Event, ph: Phase, next: Phase)
    requires |c.mac| <= 16 && Follow(c, start, trace) == Some(ph) && Next(c, ph, e) == Some(next)
    ensures Follow(c, start, trace + [e]) == Some(next)
  {
    hide Follow, Next;
    FollowStep(c, start, trace, e);
  }

  lemma Starting(c: Config, start: Phase)
    requires |c.mac| <= 16
    ensures Follow(c, start, []) == Some(start)
  {
  }

  /**
   * A server that offers (message type 2) and acknowledges (5) is granted from: the client discovers, requests
   * exactly what was offered, and ends with the lease that the acknowledgement's options describe.
   */
  lemma OfferThenAckGrants(c: Config, left: nat, x: Xid, offer: Answering, ack: Answering) returns (o: Lease, l: Lease)
    requires |c.mac| <= 16 && left > 0 && Sends(offer, 2) && Sends(ack, 5)
    ensures Grants(o, offer.yiaddr, Kept(offer.items)) && Grants(l, ack.yiaddr, Kept(ack.items))
    ensures Follow(c, Init(left),
        [Drew(x), Sent(DiscoverPacket(c, x), Broadcast, true), Got(ReplyTo(c, x, offer)),
         Sent(RequestPacket(c, x, o), Broadcast, true), Got(ReplyTo(c, x, ack))])
      == Some(Granted(l))
  {
    hide Grants, Heard, ReplyTo, Sends, Follow, DiscoverPacket, RequestPacket, RenewPacket, Kept, AnswerIn;
    o := IsHeard(c, x, offer, 2);
    l := IsHeard(c, x, ack, 5);
    var start := Init(left);
    var e1, e2 := Drew(x), Sent(DiscoverPacket(c, x), Broadcast, true);
    var e3 := Got(ReplyTo(c, x, offer));
    var e4, e5 := Sent(RequestPacket(c, x, o), Broadcast, true), Got(ReplyTo(c, x, ack));
    Starting(c, start);
    Then(c, start, [], e1, start, Discover0(left, x));
    Then(c, start, [] + [e1], e2, Discover0(left, x), Selecting(left, x));
    Then(c, start, [] + [e1] + [e2], e3, Selecting(left, x), Request0(left, x, o));
    Then(c, start, [] + [e1] + [e2] + [e3], e4, Request0(left, x, o), Requesting(left, x));
    Then(c, start, [] + [e1] + [e2] + [e3] + [e4], e5, Requesting(left, x), Granted(l));
    assert [] + [e1] + [e2] + [e3] + [e4] + [e5] == [e1, e2, e3, e4, e5];
  }

  /** A server that acknowledges the unicast after T1 renews the lease, and the new one is then in force. */
  lemma AckRenews(c: Config, held: Lease, x: Xid, ack: Answering) returns (l: Lease)
    requires |c.mac| <= 16 && held.server.Some? && Sends(ack, 5)
    ensures Grants(l, ack.yiaddr, Kept(ack.items))
    ensures Follow(c, Bound(held),
        [Slept(held.t1, true), Drew(x), Sent(RenewPacket(c, x, held), Unicast(held.server.value), true),
         Got(ReplyTo(c, x, ack)), Applied(l, true)])
      == Some(Bound(l))
  {
    hide Grants, Heard, ReplyTo, Sends, Follow, DiscoverPacket, RequestPacket, RenewPacket, Kept, AnswerIn;
    l := IsHeard(c, x, ack, 5);
    var start := Bound(held);
    var e1, e2 := Slept(held.t1, true), Drew(x);
    var e3 := Sent(RenewPacket(c, x, held), Unicast(held.server.value), true);
    var e4, e5 := Got(ReplyTo(c, x, ack)), Applied(l, true);
    Starting(c, start);
    Then(c, start, [], e1, start, Renew(held));
    Then(c, start, [] + [e1], e2, Renew(held), Renew0(held, x));
    Then(c, start, [] + [e1] + [e2], e3, Renew0(held, x), Renewing(held, x));
    Then(c, start, [] + [e1] + [e2] + [e3], e4, Renewing(held, x), Granted(l));
    Then(c, start, [] + [e1] + [e2] + [e3] + [e4], e5, Granted(l), Bound(l));
    assert [] + [e1] + [e2] + [e3] + [e4] + [e5] == [e1, e2, e3, e4, e5];
  }

  /** When the unicast goes unanswered, an acknowledgement of the broadcast does as well. */
  lemma AckRebinds(c: Config, held: Lease, x: Xid, y: Xid, ack: Answering) returns (l: Lease)
    requires |c.mac| <= 16 && held.server.Some? && Sends(ack, 5)
    ensures Grants(l, ack.yiaddr, Kept(ack.items))
    ensures Follow(c, Bound(held),
        [Slept(held.t1, true), Drew(x), Sent(RenewPacket(c, x, held), Unicast(held.server.value), true), NoReply,
         Drew(y), Sent(RenewPacket(c, y, held), Broadcast, true), Got(ReplyTo(c, y, ack))])
      == Some(Granted(l))
  {
    hide Grants, Heard, ReplyTo, Sends, Follow, DiscoverPacket, RequestPacket, RenewPacket, Kept;
    l := IsHeard(c, y, ack, 5);
    assert AnswerIn(c, NoReply, x) == Silence;
    hide AnswerIn;
    var start := Bound(held);
    var e1, e2 := Slept(held.t1, true), Drew(x);
    var e3 := Sent(RenewPacket(c, x, held), Unicast(held.server.value), true);
    var e5, e6, e7 := Drew(y), Sent(RenewPacket(c, y, held), Broadcast, true), Got(ReplyTo(c, y, ack));
    Starting(c, start);
    Then(c, start, [], e1, start, Renew(held));
    Then(c, start, [] + [e1], e2, Renew(held), Renew0(held, x));
    Then(c, start, [] + [e1] + [e2], e3, Renew0(held, x), Renewing(held, x));
    Then(c, start, [] + [e1] + [e2] + [e3], NoReply, Renewing(held, x), Rebind(held));
    Then(c, start, [] + [e1] + [e2] + [e3] + [NoReply], e5, Rebind(held), Rebind0(held, y));
    Then(c, start, [] + [e1] + [e2] + [e3] + [NoReply] + [e5], e6, Rebind0(held, y), Rebinding(held, y));
    Then(c, start, [] + [e1] + [e2] + [e3] + [NoReply] + [e5] + [e6], e7, Rebinding(held, y), Granted(l));
    assert [] + [e1] + [e2] + [e3] + [NoReply] + [e5] + [e6] + [e7] == [e1, e2, e3, NoReply, e5, e6, e7];
  }
}
