/**
 * What stands where in DHCP packets and what a lease takes from which option, in the numbers of RFC 2131
 * section 2 and of RFC 2132 sections 3, 8 and 9.
 */
module DhcpFields {
  import opened Bytes
  import opened DhcpPacket
  import opened DhcpLease
  import opened DhcpProtocol

  // ------------------------------------------------------------------ looking options up

  /** The first option with a code has this value. */
  predicate IsFirst(os: seq<Opt>, code: byte, v: seq<byte>) {
    exists i :: 0 <= i < |os| && os[i].code == code && os[i].value == v && forall j :: 0 <= j < i ==> os[j].code != code
  }

  predicate IsAbsent(os: seq<Opt>, code: byte) {
    forall i :: 0 <= i < |os| ==> os[i].code != code
  }

  lemma {:induction false} FirstExactly(os: seq<Opt>, code: byte)
    ensures First(os, code).None? <==> IsAbsent(os, code)
    ensures forall v :: First(os, code) == Some(v) <==> IsFirst(os, code, v)
  {
    if os != [] {
      var rest := os[1..];
      FirstExactly(rest, code);
      if os[0].code == code {
        assert IsFirst(os, code, os[0].value);
      } else {
        FirstLater(os, code);
      }
    }
  }

  lemma FirstLater(os: seq<Opt>, code: byte)
    requires os != [] && os[0].code != code
    ensures IsAbsent(os, code) <==> IsAbsent(os[1..], code)
    ensures forall v :: IsFirst(os, code, v) <==> IsFirst(os[1..], code, v)
  {
    var rest := os[1..];
    assert forall i :: 0 <= i < |rest| ==> rest[i] == os[i + 1];
    assert forall i :: 1 <= i < |os| ==> os[i] == rest[i - 1];
    forall v ensures IsFirst(os, code, v) <==> IsFirst(rest, code, v) {
      if IsFirst(os, code, v) {
        var i :| 0 <= i < |os| && os[i].code == code && os[i].value == v && forall j :: 0 <= j < i ==> os[j].code != code;
        assert rest[i - 1] == os[i] && forall j :: 0 <= j < i - 1 ==> rest[j] == os[j + 1];
      }
      if IsFirst(rest, code, v) {
        var i :| 0 <= i < |rest| && rest[i].code == code && rest[i].value == v && forall j :: 0 <= j < i ==> rest[j].code != code;
        assert os[i + 1] == rest[i] && forall j :: 1 <= j < i + 1 ==> os[j] == rest[j - 1];
      }
    }
  }

  /** An option whose value is cut off by the packet's end ends the list before it, whatever its code. */
  lemma TruncatedOptionEndsTheList(before: seq<byte>, items: seq<Item>, code: byte, length: byte, part: seq<byte>)
    requires Encodable(items) && code != 0 && code != 255 && |part| < length
    ensures Options(before + Encode(items) + ([code, length] + part), |before|) == Kept(items)
  {
    hide Encode, Kept, Options;
    var tail := [code, length] + part;
    var p := before + Encode(items) + tail;
    DecodesEncoded(before, items, tail);
    var i := |before| + |Encode(items)|;
    assert p[i] == tail[0] && p[i + 1] == tail[1];
    CutOff(p, i);
    assert Kept(items) + [] == Kept(items);
  }

  lemma CutOff(p: seq<byte>, i: nat)
    requires i + 2 <= |p| && p[i] != 0 && p[i] != 255 && i + 2 + p[i + 1] > |p|
    ensures Options(p, i) == []
  {
  }

  // ------------------------------------------------------------------ what a lease takes from a reply

  /** Seconds, big-endian, in nanoseconds. */
  function Nanoseconds(v: seq<byte>): nat
    requires |v| == 4
  {
    (v[0] as int * 16_777_216 + v[1] as int * 65_536 + v[2] as int * 256 + v[3] as int) * 1_000_000_000
  }

  lemma SecondsAre(v: Option<seq<byte>>, otherwise: nat)
    ensures Seconds(v, otherwise) == if v.Some? && |v.value| == 4 then Nanoseconds(v.value) else otherwise
  {
  }

  lemma {:induction false} AddressesAre(v: seq<byte>)
    ensures |Addresses(v)| == |v| / 4
    ensures forall i :: 0 <= i < |v| / 4 ==> Addresses(v)[i] == v[4 * i..4 * i + 4]
  {
    if |v| >= 4 {
      AddressesAre(v[4..]);
      assert |v[4..]| / 4 == |v| / 4 - 1;
      forall i | 0 <= i < |v| / 4 ensures Addresses(v)[i] == v[4 * i..4 * i + 4] {
        if i > 0 {
          assert Addresses(v)[i] == Addresses(v[4..])[i - 1];
          assert v[4..][4 * (i - 1)..4 * (i - 1) + 4] == v[4 * i..4 * i + 4];
        }
      }
    }
  }

  /** Each field of a lease, from the option that RFC 2132 gives it. */
  ghost predicate Grants(l: Lease, ip: seq<byte>, os: seq<Opt>) {
    && l.ip == ip
    && l.mask == (if First(os, 1).Some? && |First(os, 1).value| == 4 then First(os, 1) else None)
    && l.router == (if First(os, 3).Some? && |First(os, 3).value| >= 4 then Some(First(os, 3).value[..4]) else None)
    && (First(os, 6).None? ==> l.dns == [])
    && (First(os, 6).Some? ==>
          var v := First(os, 6).value;
          |l.dns| == |v| / 4 && forall i :: 0 <= i < |v| / 4 ==> l.dns[i] == v[4 * i..4 * i + 4])
    && l.server == (if First(os, 54).Some? && |First(os, 54).value| == 4 then First(os, 54) else None)
    && l.leaseTime == (if First(os, 51).Some? && |First(os, 51).value| == 4 then Nanoseconds(First(os, 51).value) else 0)
    && l.t1 == (if First(os, 58).Some? && |First(os, 58).value| == 4 then Nanoseconds(First(os, 58).value) else l.leaseTime / 2)
    && l.t2 == (if First(os, 59).Some? && |First(os, 59).value| == 4 then Nanoseconds(First(os, 59).value) else l.leaseTime / 8 * 7)
  }

  lemma LeaseGrants(ip: seq<byte>, os: seq<Opt>)
    ensures Grants(LeaseOf(ip, os), ip, os)
  {
    hide First, Nanoseconds, Addresses, Seconds;
    SecondsAre(First(os, 51), 0);
    var time := Seconds(First(os, 51), 0);
    SecondsAre(First(os, 58), time / 2);
    SecondsAre(First(os, 59), time / 8 * 7);
    if First(os, 6).Some? {
      AddressesAre(First(os, 6).value);
    }
  }

  /**
   * Any reply to this client grants what its options say: the mask from option 1, the router from 3, the
   * name servers from 6, the server from 54, and the times from 51, 58 and 59.
   */
  lemma ReplyGrants(xid: nat, yiaddr: seq<byte>, mac: seq<byte>, items: seq<Item>, rest: seq<byte>, msgType: byte)
    requires xid < TWO_32 && |yiaddr| == 4 && |mac| <= 16 && Encodable(items)
    requires First(Kept(items), 53) == Some([msgType])
    ensures var r := Parsed(Reply(xid, yiaddr, mac, items, rest), xid, mac);
      r.Ok? && r.value.1 == msgType && Grants(r.value.0, yiaddr, Kept(items))
  {
    hide Grants, LeaseOf, Parsed, Reply, First;
    ReplyReadsBack(xid, yiaddr, mac, items, rest, msgType);
    LeaseGrants(yiaddr, Kept(items));
  }

  /**
   * A packet is taken for a reply to this client exactly when it is long enough, is a BOOTREPLY, has the
   * cookie, the transaction id and the hardware address in their places, and a one-byte message type.
   */
  lemma AcceptsExactly(p: seq<byte>, xid: nat, mac: seq<byte>)
    requires xid < TWO_32 && |mac| <= 16
    ensures Parsed(p, xid, mac).Ok? <==>
      && |p| >= 240 && p[0] == 2 && p[236..240] == [0x63, 0x82, 0x53, 0x63] && p[4..8] == Be32(xid)
      && p[28..28 + |mac|] == mac
      && First(Options(p, 240), 53).Some? && |First(Options(p, 240), 53).value| == 1
    ensures Parsed(p, xid, mac).Ok? ==>
      Parsed(p, xid, mac).value.1 == First(Options(p, 240), 53).value[0] && Grants(Parsed(p, xid, mac).value.0, p[16..20], Options(p, 240))
  {
    hide Options, First, LeaseOf, Grants, Be32;
    if |p| >= 240 {
      NumberIs(p, 236, COOKIE);
      NumberIs(p, 4, xid);
      CookieBytes();
      LeaseGrants(p[16..20], Options(p, 240));
    }
  }

  lemma CookieBytes()
    ensures Be32(COOKIE) == [0x63, 0x82, 0x53, 0x63]
  {
  }

  lemma NumberIs(p: seq<byte>, i: nat, n: nat)
    requires n < TWO_32 && i + 4 <= |p|
    ensures FromBe32(p[i..]) == n <==> p[i..i + 4] == Be32(n)
  {
    hide Be32, FromBe32;
    var field := p[i..i + 4];
    assert p[i..][..4] == field;
    FromBe32Injective(field);
    Be32RoundTrip(n);
    SameNumber(p[i..], field);
  }

  lemma SameNumber(a: seq<byte>, b: seq<byte>)
    requires |b| == 4 && |a| >= 4 && a[..4] == b
    ensures FromBe32(a) == FromBe32(b)
  {
    assert forall i :: 0 <= i < 4 ==> a[..4][i] == a[i];
  }

  // ------------------------------------------------------------------ what a request carries

  /** The fixed fields of a client's packet. */
  ghost predicate FromClient(p: seq<byte>, xid: nat, ciaddr: seq<byte>, mac: seq<byte>)
    requires xid < TWO_32 && |mac| <= 16
  {
    && |p| >= 300
    && p[0] == 1 && p[1] == 1 && p[2] == |mac| % 256 && p[3] == 0
    && p[4..8] == Be32(xid) && p[8..10] == [0, 0] && p[10..12] == [0x80, 0]
    && p[12..16] == ciaddr && p[16..28] == Zeros(12)
    && p[28..28 + |mac|] == mac && p[28 + |mac|..236] == Zeros(208 - |mac|)
    && p[236..240] == [0x63, 0x82, 0x53, 0x63]
  }

  /** The fields of a header, in the order and of the lengths of RFC 2131 section 2. */
  lemma TenFields(a: seq<byte>, b: seq<byte>, c: seq<byte>, d: seq<byte>, e: seq<byte>, f: seq<byte>, g: seq<byte>,
                  m: seq<byte>, z: seq<byte>, k: seq<byte>, h: seq<byte>)
    requires |a| == 4 && |b| == 4 && |c| == 2 && |d| == 2 && |e| == 4 && |f| == 4 && |g| == 8 && |m| == 16 && |z| == 192 && |k| == 4
    requires h == a + b + c + d + e + f + g + m + z + k
    ensures h[..4] == a && h[4..8] == b && h[8..10] == c && h[10..12] == d && h[12..16] == e && h[16..20] == f
    ensures h[20..28] == g && h[28..44] == m && h[44..236] == z && h[236..240] == k
  {
  }

  lemma HeaderIsFromClient(xid: nat, ciaddr: seq<byte>, mac: seq<byte>, h: seq<byte>)
    requires xid < TWO_32 && (|ciaddr| == 4 || ciaddr == []) && |mac| <= 16 && h == Header(1, xid, ciaddr, [], mac)
    ensures h[0] == 1 && h[1] == 1 && h[2] == |mac| % 256 && h[3] == 0
    ensures h[4..8] == Be32(xid) && h[8..10] == [0, 0] && h[10..12] == [0x80, 0]
    ensures h[12..16] == (if ciaddr == [] then Zeros(4) else ciaddr) && h[16..28] == Zeros(12)
    ensures h[28..28 + |mac|] == mac && h[28 + |mac|..236] == Zeros(208 - |mac|)
    ensures h[236..240] == [0x63, 0x82, 0x53, 0x63]
  {
    CookieBytes();
    assert Be16(0x8000) == [0x80, 0];
    hide Be32, Be16;
    TenFields([1, 1, |mac| % 256, 0], Be32(xid), [0, 0], Be16(0x8000), Field(4, ciaddr), Field(4, []), Zeros(8),
              Field(16, mac), Zeros(192), Be32(COOKIE), h);
    hide Header;
    assert h[0] == h[..4][0] && h[1] == h[..4][1] && h[2] == h[..4][2] && h[3] == h[..4][3];
    assert Field(4, ciaddr) == if ciaddr == [] then Zeros(4) else ciaddr by { FieldOfFour(ciaddr); }
    assert Field(4, []) == Zeros(4);
    Joined(h, 16, 20, 28);
    MacField(h, mac);
  }

  lemma FieldOfFour(s: seq<byte>)
    requires |s| == 4 || s == []
    ensures Field(4, s) == if s == [] then Zeros(4) else s
  {
    assert s[..|s|] == s;
  }

  lemma Joined(h: seq<byte>, i: nat, j: nat, k: nat)
    requires i <= j <= k <= |h| && h[i..j] == Zeros(j - i) && h[j..k] == Zeros(k - j)
    ensures h[i..k] == Zeros(k - i)
  {
    assert h[i..k] == h[i..j] + h[j..k];
  }

  lemma MacField(h: seq<byte>, mac: seq<byte>)
    requires |h| >= 236 && |mac| <= 16 && h[28..44] == Field(16, mac) && h[44..236] == Zeros(192)
    ensures h[28..28 + |mac|] == mac && h[28 + |mac|..236] == Zeros(208 - |mac|)
  {
    var n := |mac|;
    assert Field(16, mac)[..n] == mac && Field(16, mac)[n..] == Zeros(16 - n);
    assert h[28..28 + n] == h[28..44][..n] && h[28 + n..44] == h[28..44][n..];
    Joined(h, 28 + n, 44, 236);
  }

  lemma PacketStartsWithHeader(msgType: byte, xid: nat, ciaddr: seq<byte>, mac: seq<byte>, hostname: text, requested: Ip, server: Ip)
    requires xid < TWO_32
    ensures Header(1, xid, ciaddr, [], mac) <= Packet(msgType, xid, ciaddr, mac, hostname, requested, server)
  {
    hide Header, RequestOptions;
  }

  lemma PacketIsFromClient(msgType: byte, xid: nat, ciaddr: seq<byte>, mac: seq<byte>, hostname: text, requested: Ip, server: Ip)
    requires xid < TWO_32 && (|ciaddr| == 4 || ciaddr == []) && |mac| <= 16
    ensures FromClient(Packet(msgType, xid, ciaddr, mac, hostname, requested, server), xid,
                       if ciaddr == [] then [0, 0, 0, 0] else ciaddr, mac)
  {
    hide Header, Packet, Be32;
    PacketStartsWithHeader(msgType, xid, ciaddr, mac, hostname, requested, server);
    var h := Header(1, xid, ciaddr, [], mac);
    var p := Packet(msgType, xid, ciaddr, mac, hostname, requested, server);
    HeaderIsFromClient(xid, ciaddr, mac, h);
    assert Zeros(4) == [0, 0, 0, 0];
    assert forall i, j :: 0 <= i <= j <= 240 ==> p[i..j] == h[i..j];
  }

  /** What a server finds in a packet: a message type, the addresses asked for, the host name and the parameters. */
  ghost predicate Asks(os: seq<Opt>, msgType: byte, requested: Ip, server: Ip, hostname: text) {
    && First(os, 53) == Some([msgType])
    && First(os, 50) == (if requested.Some? then Some(To4(requested.value)) else None)
    && First(os, 54) == (if server.Some? then Some(To4(server.value)) else None)
    && First(os, 12) == (if hostname != [] then Some(hostname) else None)
    && First(os, 55) == Some([1, 3, 6, 51])
  }

  lemma FirstOfTwo(a: seq<Opt>, b: seq<Opt>, code: byte)
    ensures First(a + b, code) == if First(a, code).Some? then First(a, code) else First(b, code)
    decreases |a|
  {
    if a == [] {
      assert a + b == b;
    } else {
      assert (a + b)[1..] == a[1..] + b;
      FirstOfTwo(a[1..], b, code);
    }
  }

  lemma OneOption(code: byte, v: seq<byte>, c: byte)
    ensures First([Opt(code, v)], c) == if c == code then Some(v) else None
  {
    assert First([Opt(code, v)][1..], c) == None;
  }

  lemma NoOption(c: byte)
    ensures First([], c) == None
  {
  }

  lemma AskedParts(msgType: byte, hostname: text, requested: Ip, server: Ip)
    ensures Asked(msgType, hostname, requested, server) ==
      [Opt(53, [msgType])]
      + (if requested.Some? then [Opt(50, To4(requested.value))] else [])
      + (if server.Some? then [Opt(54, To4(server.value))] else [])
      + (if hostname != [] then [Opt(12, hostname)] else [])
      + [Opt(55, [1, 3, 6, 51])]
  {
    hide To4;
    var a := [Item(Opt(53, [msgType]))];
    var b: seq<Item> := if requested.Some? then [Item(Opt(50, To4(requested.value)))] else [];
    var c: seq<Item> := if server.Some? then [Item(Opt(54, To4(server.value)))] else [];
    KeptAppend(a + b, c);
    KeptAppend(a, b);
    KeptOne(Opt(53, [msgType]));
    if requested.Some? { KeptOne(Opt(50, To4(requested.value))); }
    if server.Some? { KeptOne(Opt(54, To4(server.value))); }
    hide Kept;
    assert Leading(msgType, requested, server) == a + b + c;
  }

  lemma {:induction false} KeptAppend(a: seq<Item>, b: seq<Item>)
    ensures Kept(a + b) == Kept(a) + Kept(b)
  {
    if a == [] {
      assert a + b == b;
    } else {
      assert (a + b)[0] == a[0] && (a + b)[1..] == a[1..] + b;
      KeptAppend(a[1..], b);
    }
  }

  lemma KeptOne(o: Opt)
    ensures Kept([Item(o)]) == [o] && Kept([]) == []
  {
    assert Kept([Item(o)][1..]) == [];
  }

  lemma AskedAsks(msgType: byte, hostname: text, requested: Ip, server: Ip)
    ensures Asks(Asked(msgType, hostname, requested, server), msgType, requested, server, hostname)
  {
    hide First, Asked, To4;
    AskedParts(msgType, hostname, requested, server);
    var a := [Opt(53, [msgType])];
    var b := if requested.Some? then [Opt(50, To4(requested.value))] else [];
    var c := if server.Some? then [Opt(54, To4(server.value))] else [];
    var d := if hostname != [] then [Opt(12, hostname)] else [];
    var e := [Opt(55, [1, 3, 6, 51])];
    forall code: byte ensures First(a + b + c + d + e, code) ==
      if code == 53 then Some([msgType])
      else if code == 50 && requested.Some? then Some(To4(requested.value))
      else if code == 54 && server.Some? then Some(To4(server.value))
      else if code == 12 && hostname != [] then Some(hostname)
      else if code == 55 then Some([1, 3, 6, 51]) else None
    {
      FirstOfTwo(a + b + c + d, e, code);
      FirstOfTwo(a + b + c, d, code);
      FirstOfTwo(a + b, c, code);
      FirstOfTwo(a, b, code);
      NoOption(code);
      OneOption(53, [msgType], code);
      if requested.Some? { OneOption(50, To4(requested.value), code); }
      if server.Some? { OneOption(54, To4(server.value), code); }
      OneOption(12, hostname, code);
      OneOption(55, [1, 3, 6, 51], code);
    }
  }

  lemma PacketAsks(msgType: byte, xid: nat, ciaddr: seq<byte>, mac: seq<byte>, hostname: text, requested: Ip, server: Ip)
    requires xid < TWO_32 && V4(requested) && V4(server) && |hostname| <= 255
    ensures Asks(Options(Packet(msgType, xid, ciaddr, mac, hostname, requested, server), 240), msgType, requested, server, hostname)
  {
    hide Packet, Options, Asks, Asked, V4;
    RequestReadsBack(msgType, xid, ciaddr, mac, hostname, requested, server);
    AskedAsks(msgType, hostname, requested, server);
  }

  /** A DHCPDISCOVER: message type 1, no address of its own, none asked for. */
  lemma DiscoverCarries(c: Config, xid: Xid)
    requires |c.mac| <= 16 && |c.hostname| <= 255
    ensures FromClient(DiscoverPacket(c, xid), xid, [0, 0, 0, 0], c.mac)
    ensures Asks(Options(DiscoverPacket(c, xid), 240), 1, None, None, c.hostname)
  {
    hide Packet, Options, Asks, FromClient;
    PacketIsFromClient(1, xid, [], c.mac, c.hostname, None, None);
    PacketAsks(1, xid, [], c.mac, c.hostname, None, None);
  }

  /** A DHCPREQUEST for an offer: message type 3, the offered address in option 50 and its server in option 54. */
  lemma RequestCarriesTheOffer(c: Config, xid: Xid, offer: Lease)
    requires |c.mac| <= 16 && |c.hostname| <= 255 && |offer.ip| == 4 && (offer.server.Some? ==> |offer.server.value| == 4)
    ensures FromClient(RequestPacket(c, xid, offer), xid, [0, 0, 0, 0], c.mac)
    ensures Asks(Options(RequestPacket(c, xid, offer), 240), 3, Some(offer.ip), offer.server, c.hostname)
    ensures To4(offer.ip) == offer.ip && (offer.server.Some? ==> To4(offer.server.value) == offer.server.value)
  {
    hide Packet, Options, Asks, FromClient;
    PacketIsFromClient(3, xid, [], c.mac, c.hostname, Some(offer.ip), offer.server);
    PacketAsks(3, xid, [], c.mac, c.hostname, Some(offer.ip), offer.server);
  }

  /** A renewal: message type 3, the leased address in ciaddr and neither option 50 nor option 54 (RFC 2131 section 4.3.2). */
  lemma RenewalCarriesTheLease(c: Config, xid: Xid, l: Lease)
    requires |c.mac| <= 16 && |c.hostname| <= 255 && |l.ip| == 4
    ensures FromClient(RenewPacket(c, xid, l), xid, l.ip, c.mac)
    ensures Asks(Options(RenewPacket(c, xid, l), 240), 3, None, None, c.hostname)
  {
    hide Packet, Options, Asks, FromClient;
    PacketIsFromClient(3, xid, l.ip, c.mac, c.hostname, None, None);
    PacketAsks(3, xid, l.ip, c.mac, c.hostname, None, None);
  }
}
