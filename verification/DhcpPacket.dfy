/** DHCPv4 packets: the fixed BOOTP fields of RFC 2131 section 2 and the options of RFC 2132 section 2. */
module DhcpPacket {
  import opened Bytes

  const MIN_PACKET: nat := 240
  const BOOTP_MIN: nat := 300
  const COOKIE: nat := 0x63825363

  const DISCOVER: byte := 1
  const OFFER: byte := 2
  const REQUEST: byte := 3
  const ACK: byte := 5
  const NAK: byte := 6

  const OPT_SUBNET: byte := 1
  const OPT_ROUTER: byte := 3
  const OPT_DNS: byte := 6
  const OPT_HOSTNAME: byte := 12
  const OPT_REQUESTED: byte := 50
  const OPT_LEASE_TIME: byte := 51
  const OPT_TYPE: byte := 53
  const OPT_SERVER: byte := 54
  const OPT_PARAMS: byte := 55
  const OPT_T1: byte := 58
  const OPT_T2: byte := 59
  const PAD: byte := 0
  const END: byte := 255

  /** A Go net.IP: nil, or 4 or 16 bytes. */
  type Ip = Option<seq<byte>>

  const V4_IN_V6: seq<byte> := [0, 0, 0, 0, 0, 0, 0, 0, 0, 0, 255, 255]

  function To4(ip: seq<byte>): seq<byte> {
    if |ip| == 4 then ip
    else if |ip| == 16 && ip[..12] == V4_IN_V6 then ip[12..]
    else []
  }

  // ------------------------------------------------------------------ options

  datatype Opt = Opt(code: byte, value: seq<byte>)

  /** The plain list that the bytes from i on hold, up to the end marker or the first cut-off option. */
  function Options(p: seq<byte>, i: nat): seq<Opt>
    decreases |p| - i
  {
    if i >= |p| || p[i] == END then []
    else if p[i] == PAD then Options(p, i + 1)
    else if i + 2 > |p| || i + 2 + p[i + 1] > |p| then []
    else [Opt(p[i], p[i + 2..i + 2 + p[i + 1]])] + Options(p, i + 2 + p[i + 1])
  }

  function First(os: seq<Opt>, code: byte): Option<seq<byte>> {
    if os == [] then None
    else if os[0].code == code then Some(os[0].value)
    else First(os[1..], code)
  }

  /** The scan for one option agrees with looking it up in the whole list, on any bytes. */
  method FindOption(p: seq<byte>, code: byte) returns (r: Option<seq<byte>>)
    ensures r == First(Options(p, MIN_PACKET), code)
  {
    if |p| <= MIN_PACKET {
      return None;
    }
    var i := MIN_PACKET;
    while i < |p|
      invariant First(Options(p, MIN_PACKET), code) == First(Options(p, i), code)
    {
      if p[i] == END {
        return None;
      } else if p[i] == PAD {
        i := i + 1;
        continue;
      }
      if i + 2 > |p| {
        return None;
      }
      var length := p[i + 1];
      if i + 2 + length > |p| {
        return None;
      }
      var value := p[i + 2..i + 2 + length];
      assert Options(p, i) == [Opt(p[i], value)] + Options(p, i + 2 + length);
      assert Options(p, i)[1..] == Options(p, i + 2 + length);
      if p[i] == code {
        return Some(value);
      }
      i := i + 2 + length;
    }
    return None;
  }

  /** What a sender may put between the cookie and the end marker. */
  datatype Item = Padding | Item(o: Opt)

  predicate Encodable(items: seq<Item>) {
    forall i :: 0 <= i < |items| && items[i].Item? ==>
      items[i].o.code != PAD && items[i].o.code != END && |items[i].o.value| <= 255
  }

  function EncodeItem(item: Item): seq<byte> {
    match item
    case Padding => [PAD]
    case Item(o) => [o.code, |o.value| % 256] + o.value
  }

  function Encode(items: seq<Item>): seq<byte> {
    if items == [] then [] else EncodeItem(items[0]) + Encode(items[1..])
  }

  function Kept(items: seq<Item>): seq<Opt> {
    if items == [] then []
    else (if items[0].Item? then [items[0].o] else []) + Kept(items[1..])
  }

  lemma OptionThere(p: seq<byte>, i: nat, o: Opt)
    requires o.code != PAD && o.code != END && |o.value| <= 255
    requires i + 2 + |o.value| <= |p| && p[i..i + 2 + |o.value|] == EncodeItem(Item(o))
    ensures Options(p, i) == [o] + Options(p, i + 2 + |o.value|)
  {
    var e := p[i..i + 2 + |o.value|];
    assert p[i] == e[0] && p[i + 1] == e[1];
    assert p[i + 2..i + 2 + |o.value|] == e[2..] == o.value;
  }

  lemma PaddingThere(p: seq<byte>, i: nat)
    requires i < |p| && p[i..i + 1] == [PAD]
    ensures Options(p, i) == Options(p, i + 1)
  {
    assert p[i] == p[i..i + 1][0];
  }

  lemma ItemThere(p: seq<byte>, i: nat, items: seq<Item>, tail: seq<Opt>)
    requires items != [] && Encodable(items)
    requires i + |EncodeItem(items[0])| <= |p| && p[i..i + |EncodeItem(items[0])|] == EncodeItem(items[0])
    requires Options(p, i + |EncodeItem(items[0])|) == Kept(items[1..]) + tail
    ensures Options(p, i) == Kept(items) + tail
  {
    hide Options;
    var rest := Kept(items[1..]);
    if items[0].Item? {
      OptionThere(p, i, items[0].o);
      assert [items[0].o] + (rest + tail) == ([items[0].o] + rest) + tail;
    } else {
      PaddingThere(p, i);
      assert [] + rest == rest;
    }
  }

  lemma SplitSlice(p: seq<byte>, i: nat, a: seq<byte>, b: seq<byte>)
    requires i + |a| + |b| <= |p| && p[i..i + |a| + |b|] == a + b
    ensures p[i..i + |a|] == a && p[i + |a|..i + |a| + |b|] == b
  {
    var s := p[i..i + |a| + |b|];
    assert p[i..i + |a|] == s[..|a|] && p[i + |a|..i + |a| + |b|] == s[|a|..];
  }

  /** Encoded options decode to themselves, and then decoding goes on where they end. */
  lemma {:induction false} DecodesAt(p: seq<byte>, i: nat, items: seq<Item>)
    requires Encodable(items)
    requires i + |Encode(items)| <= |p| && p[i..i + |Encode(items)|] == Encode(items)
    ensures Options(p, i) == Kept(items) + Options(p, i + |Encode(items)|)
    decreases |items|
  {
    hide Options, Kept, Encode, EncodeItem, Encodable;
    if items == [] {
      NothingEncoded();
    } else {
      EncodedFirst(items);
      var e, rest := EncodeItem(items[0]), Encode(items[1..]);
      SplitSlice(p, i, e, rest);
      DecodesAt(p, i + |e|, items[1..]);
      ItemThere(p, i, items, Options(p, i + |e| + |rest|));
    }
  }

  lemma NothingEncoded()
    ensures Encode([]) == [] && Kept([]) == []
  {
  }

  lemma EncodedFirst(items: seq<Item>)
    requires items != [] && Encodable(items)
    ensures Encode(items) == EncodeItem(items[0]) + Encode(items[1..]) && Encodable(items[1..])
  {
    hide EncodeItem;
  }

  lemma DecodesEncoded(before: seq<byte>, items: seq<Item>, rest: seq<byte>)
    requires Encodable(items)
    ensures var p := before + Encode(items) + rest;
      Options(p, |before|) == Kept(items) + Options(p, |before| + |Encode(items)|)
  {
    hide Options, Kept, Encode;
    var p := before + Encode(items) + rest;
    assert p[|before|..|before| + |Encode(items)|] == Encode(items);
    DecodesAt(p, |before|, items);
  }

  /** Every option list, with pads anywhere in it, decodes to itself, whatever follows the end marker. */
  lemma DecodesWhatWasEncoded(before: seq<byte>, items: seq<Item>, rest: seq<byte>)
    requires Encodable(items)
    ensures Options(before + Encode(items) + [END] + rest, |before|) == Kept(items)
  {
    hide Kept, Encode;
    var p := before + Encode(items) + [END] + rest;
    assert p == before + Encode(items) + ([END] + rest);
    DecodesEncoded(before, items, [END] + rest);
    assert p[|before| + |Encode(items)|] == END;
    assert Kept(items) + [] == Kept(items);
  }

  // ------------------------------------------------------------------ requests

  /** A field of n bytes that s is copied into. */
  function Field(n: nat, s: seq<byte>): (r: seq<byte>)
    ensures |r| == n
  {
    if |s| >= n then s[..n] else s + Zeros(n - |s|)
  }

  function Header(op: byte, xid: nat, ciaddr: seq<byte>, yiaddr: seq<byte>, mac: seq<byte>): (r: seq<byte>)
    requires xid < TWO_32
    ensures |r| == MIN_PACKET
  {
    [op, 1, |mac| % 256, 0] + Be32(xid) + [0, 0] + Be16(0x8000) + Field(4, ciaddr) + Field(4, yiaddr) + Zeros(8) +
    Field(16, mac) + Zeros(192) + Be32(COOKIE)
  }

  function AddressOption(code: byte, ip: Ip): seq<byte> {
    if ip.Some? then [code, 4] + To4(ip.value) else []
  }

  const PARAMS: seq<byte> := [OPT_SUBNET, OPT_ROUTER, OPT_DNS, OPT_LEASE_TIME]

  /** The options of a request from the host name on. */
  function Trailing(hostname: text): seq<byte> {
    (if hostname != [] then [OPT_HOSTNAME, |hostname| % 256] + hostname else []) + (([OPT_PARAMS, 4] + PARAMS) + [END])
  }

  function RequestOptions(msgType: byte, hostname: text, requested: Ip, server: Ip): seq<byte> {
    ([OPT_TYPE, 1, msgType] + AddressOption(OPT_REQUESTED, requested) + AddressOption(OPT_SERVER, server)) +
    Trailing(hostname)
  }

  function PadTo(n: nat, p: seq<byte>): (r: seq<byte>)
    ensures |r| >= n && p <= r
  {
    if |p| >= n then p else p + Zeros(n - |p|)
  }

  function Packet(msgType: byte, xid: nat, ciaddr: seq<byte>, mac: seq<byte>, hostname: text, requested: Ip, server: Ip): (r: seq<byte>)
    requires xid < TWO_32
    ensures |r| >= BOOTP_MIN
  {
    PadTo(BOOTP_MIN, Header(1, xid, ciaddr, [], mac) + RequestOptions(msgType, hostname, requested, server))
  }

  /** The fixed fields, written in place. */
  method WriteHeader(xid: nat, mac: seq<byte>) returns (p: seq<byte>)
    requires xid < TWO_32
    ensures p == Header(1, xid, [], [], mac)
  {
    var r := new byte[MIN_PACKET](i => 0);
    r[0], r[1], r[2] := 1, 1, |mac| % 256;
    var id, flags, cookie := Be32(xid), Be16(0x8000), Be32(COOKIE);
    forall i | 0 <= i < 4 { r[4 + i] := id[i]; }
    forall i | 0 <= i < 2 { r[10 + i] := flags[i]; }
    var copied := if |mac| < 16 then |mac| else 16;
    forall i | 0 <= i < copied { r[28 + i] := mac[i]; }
    forall i | 0 <= i < 4 { r[236 + i] := cookie[i]; }
    p := r[..];
    HeaderAt(xid, mac, p);
  }

  lemma HeaderAt(xid: nat, mac: seq<byte>, p: seq<byte>)
    requires xid < TWO_32 && |p| == MIN_PACKET
    requires p[0] == 1 && p[1] == 1 && p[2] == |mac| % 256 && p[3] == 0
    requires forall i :: 0 <= i < 4 ==> p[4 + i] == Be32(xid)[i]
    requires p[8] == 0 && p[9] == 0
    requires forall i :: 0 <= i < 2 ==> p[10 + i] == Be16(0x8000)[i]
    requires forall i :: 12 <= i < 28 ==> p[i] == 0
    requires forall i :: 0 <= i < 16 ==> p[28 + i] == if i < |mac| then mac[i] else 0
    requires forall i :: 44 <= i < 236 ==> p[i] == 0
    requires forall i :: 0 <= i < 4 ==> p[236 + i] == Be32(COOKIE)[i]
    ensures p == Header(1, xid, [], [], mac)
  {
    hide Be32, Be16, Field, Zeros;
    assert p[..4] == [1, 1, |mac| % 256, 0];
    assert p[4..8] == Be32(xid);
    assert p[8..10] == [0, 0];
    assert p[10..12] == Be16(0x8000);
    ZerosAt(p[12..16]);
    ZerosAt(p[16..20]);
    ZerosAt(p[20..28]);
    FieldAt(mac, p[28..44]);
    ZerosAt(p[44..236]);
    assert p[236..] == Be32(COOKIE);
    assert Field(4, []) == Zeros(4) by { FieldAt([], Zeros(4)); }
    FieldByField(p);
  }

  lemma ZerosAt(f: seq<byte>)
    requires forall i :: 0 <= i < |f| ==> f[i] == 0
    ensures f == Zeros(|f|)
  {
  }

  lemma FieldAt(s: seq<byte>, f: seq<byte>)
    requires forall i :: 0 <= i < |f| ==> f[i] == if i < |s| then s[i] else 0
    ensures f == Field(|f|, s)
  {
  }

  lemma FieldByField(p: seq<byte>)
    requires |p| == MIN_PACKET
    ensures p == p[..4] + p[4..8] + p[8..10] + p[10..12] + p[12..16] + p[16..20] + p[20..28] + p[28..44] + p[44..236] + p[236..]
  {
  }

  method AppendAddress(opts: seq<byte>, code: byte, ip: Ip) returns (r: seq<byte>)
    ensures r == opts + AddressOption(code, ip)
  {
    r := opts;
    if ip.Some? {
      r := r + [code, 4];
      r := r + To4(ip.value);
    }
  }

  method AppendTrailing(opts: seq<byte>, hostname: text) returns (r: seq<byte>)
    ensures r == opts + Trailing(hostname)
  {
    r := opts;
    if hostname != [] {
      r := r + [OPT_HOSTNAME, |hostname| % 256];
      r := r + hostname;
    }
    r := r + [OPT_PARAMS, 4, OPT_SUBNET, OPT_ROUTER, OPT_DNS, OPT_LEASE_TIME];
    r := r + [END];
  }

  method AppendOptions(msgType: byte, hostname: text, requested: Ip, server: Ip) returns (opts: seq<byte>)
    ensures opts == RequestOptions(msgType, hostname, requested, server)
  {
    hide AddressOption, Trailing;
    opts := [OPT_TYPE, 1, msgType];
    opts := AppendAddress(opts, OPT_REQUESTED, requested);
    opts := AppendAddress(opts, OPT_SERVER, server);
    opts := AppendTrailing(opts, hostname);
  }

  /** The whole packet: the options appended, and zeros up to the BOOTP minimum. */
  method Build(msgType: byte, xid: nat, mac: seq<byte>, hostname: text, requested: Ip, server: Ip) returns (p: seq<byte>)
    requires xid < TWO_32
    ensures p == Packet(msgType, xid, [], mac, hostname, requested, server)
  {
    hide Header, RequestOptions;
    p := WriteHeader(xid, mac);
    var opts := AppendOptions(msgType, hostname, requested, server);
    p := p + opts;
    ghost var unpadded := p;
    while |p| < BOOTP_MIN
      invariant |unpadded| <= |p| && p == unpadded + Zeros(|p| - |unpadded|)
      invariant |p| <= BOOTP_MIN || p == unpadded
    {
      p := p + [0];
    }
  }

  method BuildRenew(xid: nat, mac: seq<byte>, hostname: text, current: seq<byte>) returns (p: seq<byte>)
    requires xid < TWO_32
    ensures p == Packet(REQUEST, xid, To4(current), mac, hostname, None, None)
  {
    p := Build(REQUEST, xid, mac, hostname, None, None);
    var v4 := To4(current);
    ghost var before := p;
    p := p[..12] + v4 + p[12 + |v4|..];
    AddressInHeader(xid, mac, v4, before[MIN_PACKET..]);
    assert before == Header(1, xid, [], [], mac) + before[MIN_PACKET..];
  }

  lemma AddressInHeader(xid: nat, mac: seq<byte>, v4: seq<byte>, rest: seq<byte>)
    requires xid < TWO_32 && (|v4| == 4 || v4 == [])
    ensures var p := Header(1, xid, [], [], mac) + rest;
      p[..12] + v4 + p[12 + |v4|..] == Header(1, xid, v4, [], mac) + rest
  {
    hide Be32, Be16;
  }

  // ------------------------------------------------------------------ what a server reads in a request

  predicate V4(ip: Ip) {
    ip.Some? ==> |To4(ip.value)| == 4
  }

  /** The options before the host name. */
  function Leading(msgType: byte, requested: Ip, server: Ip): (items: seq<Item>)
    ensures V4(requested) && V4(server) ==> Encodable(items)
  {
    [Item(Opt(OPT_TYPE, [msgType]))] +
    (if requested.Some? then [Item(Opt(OPT_REQUESTED, To4(requested.value)))] else []) +
    (if server.Some? then [Item(Opt(OPT_SERVER, To4(server.value)))] else [])
  }

  /** Everything a request is meant to carry, in order. */
  function Asked(msgType: byte, hostname: text, requested: Ip, server: Ip): seq<Opt> {
    Kept(Leading(msgType, requested, server)) + Named(hostname)
  }

  lemma LeadingBytes(msgType: byte, requested: Ip, server: Ip)
    requires V4(requested) && V4(server)
    ensures Encode(Leading(msgType, requested, server)) ==
      [OPT_TYPE, 1, msgType] + AddressOption(OPT_REQUESTED, requested) + AddressOption(OPT_SERVER, server)
  {
    hide To4;
    var a := [Item(Opt(OPT_TYPE, [msgType]))];
    var b: seq<Item> := if requested.Some? then [Item(Opt(OPT_REQUESTED, To4(requested.value)))] else [];
    var c: seq<Item> := if server.Some? then [Item(Opt(OPT_SERVER, To4(server.value)))] else [];
    EncodeAppend(a + b, c);
    EncodeAppend(a, b);
    EncodeOne(Opt(OPT_TYPE, [msgType]));
    if requested.Some? { EncodeOne(Opt(OPT_REQUESTED, To4(requested.value))); }
    if server.Some? { EncodeOne(Opt(OPT_SERVER, To4(server.value))); }
  }

  lemma {:induction false} EncodeAppend(a: seq<Item>, b: seq<Item>)
    ensures Encode(a + b) == Encode(a) + Encode(b)
  {
    if a == [] {
      assert a + b == b;
    } else {
      assert (a + b)[0] == a[0] && (a + b)[1..] == a[1..] + b;
      EncodeAppend(a[1..], b);
    }
  }

  lemma EncodeOne(o: Opt)
    ensures Encode([Item(o)]) == EncodeItem(Item(o))
  {
    assert Encode([Item(o)]) == EncodeItem(Item(o)) + Encode([]);
  }

  lemma PacketParts(msgType: byte, xid: nat, ciaddr: seq<byte>, mac: seq<byte>, hostname: text, requested: Ip, server: Ip)
    returns (rest: seq<byte>)
    requires xid < TWO_32 && V4(requested) && V4(server)
    ensures Packet(msgType, xid, ciaddr, mac, hostname, requested, server) ==
      Header(1, xid, ciaddr, [], mac) + Encode(Leading(msgType, requested, server)) + (Trailing(hostname) + rest)
  {
    LeadingBytes(msgType, requested, server);
    hide Header, AddressOption, Leading, Encode, To4, Trailing;
    var unpadded := Header(1, xid, ciaddr, [], mac) + RequestOptions(msgType, hostname, requested, server);
    rest := if |unpadded| >= BOOTP_MIN then [] else Zeros(BOOTP_MIN - |unpadded|);
    Regroup(Header(1, xid, ciaddr, [], mac), Encode(Leading(msgType, requested, server)), Trailing(hostname), rest);
  }

  lemma Regroup(a: seq<byte>, b: seq<byte>, c: seq<byte>, d: seq<byte>)
    ensures (a + (b + c)) + d == a + b + (c + d)
    ensures d == [] ==> a + (b + c) == a + b + (c + d)
  {
  }

  lemma ParamsThere(p: seq<byte>, i: nat, rest: seq<byte>)
    requires i <= |p| && p[i..] == (([OPT_PARAMS, 4] + PARAMS) + [END]) + rest
    ensures Options(p, i) == [Opt(OPT_PARAMS, PARAMS)]
  {
    var t := p[i..];
    assert t[..6] == EncodeItem(Item(Opt(OPT_PARAMS, PARAMS)));
    assert p[i..i + 6] == t[..6];
    OptionThere(p, i, Opt(OPT_PARAMS, PARAMS));
    assert p[i + 6] == t[6] == END;
  }

  lemma OptionHere(p: seq<byte>, i: nat)
    requires i + 2 <= |p| && p[i] != PAD && p[i] != END && i + 2 + p[i + 1] <= |p|
    ensures Options(p, i) == [Opt(p[i], p[i + 2..i + 2 + p[i + 1]])] + Options(p, i + 2 + p[i + 1])
  {
  }

  lemma NameThere(p: seq<byte>, i: nat, hostname: text, rest: seq<byte>)
    requires i <= |p| && hostname != [] && p[i..] == Trailing(hostname) + rest
    ensures var m := |hostname| % 256;
      && i + 2 + |hostname| <= |p|
      && Options(p, i) == [Opt(OPT_HOSTNAME, p[i + 2..i + 2 + m])] + Options(p, i + 2 + m)
      && p[i + 2..i + 2 + |hostname|] == hostname
      && p[i + 2 + |hostname|..] == (([OPT_PARAMS, 4] + PARAMS) + [END]) + rest
  {
    hide Options;
    var t := p[i..];
    var tail := (([OPT_PARAMS, 4] + PARAMS) + [END]) + rest;
    assert t == [OPT_HOSTNAME, |hostname| % 256] + hostname + tail;
    assert p[i] == t[0] && p[i + 1] == t[1];
    assert p[i + 2..i + 2 + |hostname|] == t[2..2 + |hostname|];
    assert p[i + 2 + |hostname|..] == t[2 + |hostname|..] == tail;
    OptionHere(p, i);
  }

  function Named(hostname: text): seq<Opt> {
    (if hostname != [] then [Opt(OPT_HOSTNAME, hostname)] else []) + [Opt(OPT_PARAMS, PARAMS)]
  }

  /** The end of a request decodes as meant exactly when the host name's length fits its byte. */
  lemma TrailingDecodes(p: seq<byte>, i: nat, hostname: text, rest: seq<byte>)
    requires i <= |p| && p[i..] == Trailing(hostname) + rest
    ensures Options(p, i) == Named(hostname) <==> |hostname| <= 255
  {
    hide Options;
    if hostname == [] {
      assert Trailing(hostname) == ([OPT_PARAMS, 4] + PARAMS) + [END];
      ParamsThere(p, i, rest);
    } else {
      NameThere(p, i, hostname, rest);
      hide Trailing;
      if |hostname| <= 255 {
        ParamsThere(p, i + 2 + |hostname|, rest);
      } else {
        var value := p[i + 2..i + 2 + |hostname| % 256];
        assert |value| != |hostname|;
        assert Named(hostname)[0] == Opt(OPT_HOSTNAME, hostname);
      }
    }
  }

  /**
   * A server reads in a request exactly the message type, the addresses, the host name and the
   * parameter list that were asked for, and nothing else, if and only if the host name has at most
   * 255 bytes.
   */
  lemma RequestReadsBack(msgType: byte, xid: nat, ciaddr: seq<byte>, mac: seq<byte>, hostname: text, requested: Ip, server: Ip)
    requires xid < TWO_32 && V4(requested) && V4(server)
    ensures var p := Packet(msgType, xid, ciaddr, mac, hostname, requested, server);
      Options(p, MIN_PACKET) == Asked(msgType, hostname, requested, server) <==> |hostname| <= 255
  {
    hide Header, Packet, To4, Options, Encode, Kept;
    var rest := PacketParts(msgType, xid, ciaddr, mac, hostname, requested, server);
    var p := Packet(msgType, xid, ciaddr, mac, hostname, requested, server);
    var items := Leading(msgType, requested, server);
    hide Leading;
    var head := Header(1, xid, ciaddr, [], mac);
    DecodesEncoded(head, items, Trailing(hostname) + rest);
    var i := |head| + |Encode(items)|;
    assert p[i..] == Trailing(hostname) + rest;
    TrailingDecodes(p, i, hostname, rest);
    SameAfter(Kept(items), Options(p, i), Named(hostname));
  }

  lemma SameAfter(a: seq<Opt>, b: seq<Opt>, c: seq<Opt>)
    ensures a + b == a + c <==> b == c
  {
    assert (a + b)[|a|..] == b && (a + c)[|a|..] == c;
  }
}
