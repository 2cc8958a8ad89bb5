/** Reading a server's reply. */
module DhcpLease {
  import opened Bytes
  import opened DhcpPacket

  const SECOND: nat := 1_000_000_000

  /** An accepted offer; addresses are 4 bytes, durations nanoseconds. */
  datatype Lease = Lease(
    ip: seq<byte>, mask: Ip, router: Ip, dns: seq<seq<byte>>, server: Ip, leaseTime: nat, t1: nat, t2: nat)

  datatype ParseError = TooShort | NotReply | BadCookie | OtherXid | OtherMac | NoType

  /** An option's value, if it has exactly n bytes. */
  function Exactly(v: Option<seq<byte>>, n: nat): Option<seq<byte>> {
    if v.Some? && |v.value| == n then v else None
  }

  function FirstAddress(v: Option<seq<byte>>): Ip {
    if v.Some? && |v.value| >= 4 then Some(v.value[..4]) else None
  }

  function Addresses(v: seq<byte>): seq<seq<byte>> {
    if |v| < 4 then [] else [v[..4]] + Addresses(v[4..])
  }

  function Seconds(v: Option<seq<byte>>, otherwise: nat): nat {
    if v.Some? && |v.value| == 4 then FromBe32(v.value) * SECOND else otherwise
  }

  /** The lease that an address and a list of options grant. */
  function LeaseOf(ip: seq<byte>, os: seq<Opt>): Lease {
    var time := Seconds(First(os, OPT_LEASE_TIME), 0);
    Lease(ip,
          Exactly(First(os, OPT_SUBNET), 4),
          FirstAddress(First(os, OPT_ROUTER)),
          if First(os, OPT_DNS).Some? then Addresses(First(os, OPT_DNS).value) else [],
          Exactly(First(os, OPT_SERVER), 4),
          time,
          Seconds(First(os, OPT_T1), time / 2),
          Seconds(First(os, OPT_T2), time / 8 * 7))
  }

  /** What a packet says to the client that sent xid from mac. */
  function Parsed(p: seq<byte>, xid: nat, mac: seq<byte>): Result<(Lease, byte), ParseError>
    requires |mac| <= MIN_PACKET - 28
  {
    if |p| < MIN_PACKET then Err(TooShort)
    else if p[0] != 2 then Err(NotReply)
    else if FromBe32(p[236..]) != COOKIE then Err(BadCookie)
    else if FromBe32(p[4..]) != xid then Err(OtherXid)
    else if p[28..28 + |mac|] != mac then Err(OtherMac)
    else
      var os := Options(p, MIN_PACKET);
      var mt := First(os, OPT_TYPE);
      if mt.None? || |mt.value| != 1 then Err(NoType) else Ok((LeaseOf(p[16..20], os), mt.value[0]))
  }

  method ReadAddresses(v: seq<byte>) returns (dns: seq<seq<byte>>)
    ensures dns == Addresses(v)
  {
    hide Addresses;
    dns := [];
    var i := 0;
    assert v[0..] == v && [] + Addresses(v) == Addresses(v);
    while i + 4 <= |v|
      invariant 0 <= i <= |v|
      invariant Addresses(v) == dns + Addresses(v[i..])
    {
      NextAddress(v, i);
      var rest := Addresses(v[i + 4..]);
      assert dns + ([v[i..i + 4]] + rest) == (dns + [v[i..i + 4]]) + rest;
      dns := dns + [v[i..i + 4]];
      i := i + 4;
    }
    NoMoreAddresses(v[i..]);
    assert dns + [] == dns;
  }

  lemma NextAddress(v: seq<byte>, i: nat)
    requires i + 4 <= |v|
    ensures Addresses(v[i..]) == [v[i..i + 4]] + Addresses(v[i + 4..])
  {
    assert v[i..][..4] == v[i..i + 4] && v[i..][4..] == v[i + 4..];
  }

  lemma NoMoreAddresses(v: seq<byte>)
    requires |v| < 4
    ensures Addresses(v) == []
  {
  }

  method ReadSeconds(p: seq<byte>, code: byte, otherwise: nat) returns (t: nat)
    ensures t == Seconds(First(Options(p, MIN_PACKET), code), otherwise)
  {
    t := otherwise;
    var v := FindOption(p, code);
    if v.Some? && |v.value| == 4 {
      t := FromBe32(v.value) * SECOND;
    }
  }

  method ReadExactly(p: seq<byte>, code: byte, n: nat) returns (r: Option<seq<byte>>)
    ensures r == Exactly(First(Options(p, MIN_PACKET), code), n)
  {
    r := None;
    var v := FindOption(p, code);
    if v.Some? && |v.value| == n {
      r := v;
    }
  }

  /** Filling in the lease, option by option. */
  method ReadLease(p: seq<byte>) returns (l: Lease)
    requires |p| >= MIN_PACKET
    ensures l == LeaseOf(p[16..20], Options(p, MIN_PACKET))
  {
    hide Options, First, Addresses, Seconds, Exactly;
    l := Lease(p[16..20], None, None, [], None, 0, 0, 0);
    var mask := ReadExactly(p, OPT_SUBNET, 4);
    var router := FindOption(p, OPT_ROUTER);
    if router.Some? && |router.value| >= 4 {
      l := l.(router := Some(router.value[..4]));
    }
    var v := FindOption(p, OPT_DNS);
    if v.Some? {
      var dns := ReadAddresses(v.value);
      l := l.(dns := dns);
    }
    var server := ReadExactly(p, OPT_SERVER, 4);
    var time := ReadSeconds(p, OPT_LEASE_TIME, 0);
    var t1 := ReadSeconds(p, OPT_T1, time / 2);
    var t2 := ReadSeconds(p, OPT_T2, time / 8 * 7);
    l := l.(mask := mask, server := server, leaseTime := time, t1 := t1, t2 := t2);
  }

  method Parse(p: seq<byte>, xid: nat, mac: seq<byte>) returns (r: Result<(Lease, byte), ParseError>)
    requires |mac| <= MIN_PACKET - 28
    ensures r == Parsed(p, xid, mac)
  {
    hide Options, First, FromBe32, LeaseOf;
    if |p| < MIN_PACKET {
      return Err(TooShort);
    }
    if p[0] != 2 {
      return Err(NotReply);
    }
    if FromBe32(p[236..]) != COOKIE {
      return Err(BadCookie);
    }
    if FromBe32(p[4..]) != xid {
      return Err(OtherXid);
    }
    if p[28..28 + |mac|] != mac {
      return Err(OtherMac);
    }
    var mt := FindOption(p, OPT_TYPE);
    if mt.None? || |mt.value| != 1 {
      return Err(NoType);
    }
    var l := ReadLease(p);
    return Ok((l, mt.value[0]));
  }

  /** A reply as a server writes it. */
  function Reply(xid: nat, yiaddr: seq<byte>, mac: seq<byte>, items: seq<Item>, rest: seq<byte>): seq<byte>
    requires xid < TWO_32
  {
    Header(2, xid, [], yiaddr, mac) + Encode(items) + [END] + rest
  }

  lemma HeaderFields(op: byte, xid: nat, yiaddr: seq<byte>, mac: seq<byte>)
    requires xid < TWO_32 && |yiaddr| == 4 && |mac| <= 16
    ensures var h := Header(op, xid, [], yiaddr, mac);
      && h[0] == op && h[4..8] == Be32(xid) && h[16..20] == yiaddr && h[28..28 + |mac|] == mac && h[236..240] == Be32(COOKIE)
  {
    hide Be32, Be16;
  }

  /**
   * A client reads in any reply to it the address offered and the lease its options grant, whatever
   * their order, pads included, and whatever follows the end marker.
   */
  lemma {:induction false} ReplyReadsBack(xid: nat, yiaddr: seq<byte>, mac: seq<byte>, items: seq<Item>, rest: seq<byte>, msgType: byte)
    requires xid < TWO_32 && |yiaddr| == 4 && |mac| <= 16 && Encodable(items)
    requires First(Kept(items), OPT_TYPE) == Some([msgType])
    ensures Parsed(Reply(xid, yiaddr, mac, items, rest), xid, mac) == Ok((LeaseOf(yiaddr, Kept(items)), msgType))
  {
    hide Header, Options, LeaseOf, Encode, Be32, FromBe32;
    var p := Reply(xid, yiaddr, mac, items, rest);
    var h := Header(2, xid, [], yiaddr, mac);
    HeaderFields(2, xid, yiaddr, mac);
    DecodesWhatWasEncoded(h, items, rest);
    Be32RoundTrip(xid);
    Be32RoundTrip(COOKIE);
    assert h <= p;
    assert p[4..][..4] == h[4..8] && p[236..][..4] == h[236..240];
    NumberAt(p, 4, xid);
    NumberAt(p, 236, COOKIE);
    assert p[16..20] == h[16..20] && p[28..28 + |mac|] == h[28..28 + |mac|];
  }

  lemma NumberAt(p: seq<byte>, i: nat, n: nat)
    requires n < TWO_32 && i + 4 <= |p| && p[i..][..4] == Be32(n)
    ensures FromBe32(p[i..]) == n
  {
    Be32RoundTrip(n);
    assert FromBe32(p[i..]) == FromBe32(Be32(n)) by {
      var b := Be32(n);
      assert p[i..][0] == b[0] && p[i..][1] == b[1] && p[i..][2] == b[2] && p[i..][3] == b[3];
    }
  }

  /** RFC 2131 section 4.4.5: without timers from the server, renew at half the lease, rebind at seven eighths. */
  lemma {:induction false} DefaultTimers(ip: seq<byte>, os: seq<Opt>)
    requires First(os, OPT_T1).None? && First(os, OPT_T2).None?
    ensures var l := LeaseOf(ip, os); 2 * l.t1 == l.leaseTime && 8 * l.t2 == 7 * l.leaseTime && l.t1 <= l.t2 <= l.leaseTime
  {
    hide First, FromBe32, Addresses, Exactly, FirstAddress, Seconds;
    var v := First(os, OPT_LEASE_TIME);
    var eighth := WholeEighths(v);
    Timers(eighth);
    NoTimer(Seconds(v, 0) / 2);
    NoTimer(Seconds(v, 0) / 8 * 7);
  }

  lemma NoTimer(otherwise: nat)
    ensures Seconds(None, otherwise) == otherwise
  {
  }

  /** A lease of whole seconds divides into eighths of whole nanoseconds. */
  lemma WholeEighths(v: Option<seq<byte>>) returns (eighth: nat)
    ensures Seconds(v, 0) == 8 * eighth
  {
    hide FromBe32;
    eighth := if v.Some? && |v.value| == 4 then FromBe32(v.value) * 125_000_000 else 0;
  }

  lemma Timers(eighth: nat)
    ensures var time := 8 * eighth;
      2 * (time / 2) == time && 8 * (time / 8 * 7) == 7 * time && time / 2 <= time / 8 * 7 <= time
  {
    var time := 8 * eighth;
    var half := 4 * eighth;
    assert time == 2 * half;
    assert time / 2 == half;
    assert time / 8 == eighth;
    var late := time / 8 * 7;
    assert late == 7 * eighth;
    assert 8 * late == 7 * time && half <= late <= time;
  }

  /** Every duration fits the 64 bits Go keeps it in. */
  lemma DurationsFit(ip: seq<byte>, os: seq<Opt>)
    ensures var l := LeaseOf(ip, os); l.leaseTime < 0x8000_0000_0000_0000 && l.t1 < 0x8000_0000_0000_0000 && l.t2 < 0x8000_0000_0000_0000
  {
  }
}
