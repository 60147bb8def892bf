/** The frame parser of the capture thread, and the frames it accepts. */
module Capture {
  import opened Net

  const ETHERNET_HEADER_LEN: nat := 14
  const VLAN_ETHERNET_HEADER_LEN: nat := 18
  const ETHERTYPE_IPV4: U16 := 0x0800
  const ETHERTYPE_IPV6: U16 := 0x86dd
  const ETHERTYPE_VLAN_8021Q: U16 := 0x8100
  const ETHERTYPE_VLAN_8021AD: U16 := 0x88a8
  const IPV4_MIN_HEADER_LEN: nat := 20
  const IPV6_HEADER_LEN: nat := 40
  const IP_PROTOCOL_TCP: Byte := 6
  const IP_PROTOCOL_UDP: Byte := 17

  /** `u16::from_be_bytes`. */
  function U16FromBe(hi: Byte, lo: Byte): U16 {
    hi * 256 + lo
  }

  function ClassifyDirection(localIps: seq<IpAddr>, src: IpAddr, dst: IpAddr): Direction {
    if src in localIps then Tx
    else if dst in localIps then Rx
    else Tx
  }

  function ProtocolFromNum(number: Byte): Protocol {
    if number == IP_PROTOCOL_TCP then Tcp
    else if number == IP_PROTOCOL_UDP then Udp
    else Other(number)
  }

  /** The ports at `l4`, if the transport is one that has them. */
  function ParsePorts(bytes: seq<Byte>, l4: nat, protocol: Protocol, src: IpAddr, dst: IpAddr): Option<FlowKey> {
    if |bytes| < l4 + 4 then None
    else if protocol.Other? then None
    else Some(FlowKey(src, dst, U16FromBe(bytes[l4], bytes[l4 + 1]), U16FromBe(bytes[l4 + 2], bytes[l4 + 3]), protocol))
  }

  function ParseIpv4(bytes: seq<Byte>, l3: nat): Option<FlowKey> {
    if |bytes| < l3 + IPV4_MIN_HEADER_LEN then None
    else if bytes[l3] / 16 != 4 then None
    else
      var ihl := bytes[l3] % 16 * 4;
      if ihl < IPV4_MIN_HEADER_LEN || |bytes| < l3 + ihl then None
      else ParsePorts(bytes, l3 + ihl, ProtocolFromNum(bytes[l3 + 9]),
                      V4(bytes[l3 + 12..l3 + 16]), V4(bytes[l3 + 16..l3 + 20]))
  }

  function ParseIpv6(bytes: seq<Byte>, l3: nat): Option<FlowKey> {
    if |bytes| < l3 + IPV6_HEADER_LEN then None
    else if bytes[l3] / 16 != 6 then None
    else ParsePorts(bytes, l3 + IPV6_HEADER_LEN, ProtocolFromNum(bytes[l3 + 6]),
                    V6(bytes[l3 + 8..l3 + 24]), V6(bytes[l3 + 24..l3 + 40]))
  }

  // ---- The frames of the wire ----

  type Pair = s: seq<Byte> | |s| == 2 witness [0, 0]

  /** An 802.1Q or 802.1ad tag: which of the two, and its control information. */
  datatype Tag = Tag(provider: bool, tci: Pair)

  /** A network header. Fields that the parser does not look at are carried as they are. */
  datatype Header =
    | Ipv4Header(beforeProtocol: seq<Byte>, checksum: Pair, src4: Octets4, dst4: Octets4, options: seq<Byte>)
    | Ipv6Header(trafficClass: Byte, beforeNext: seq<Byte>, hopLimit: Byte, src6: Octets16, dst6: Octets16)
  {
    /** RFC 791 section 3.1 allows 5 to 15 words; RFC 8200 section 3 fixes 40 bytes. */
    predicate Valid() {
      if Ipv4Header? then |beforeProtocol| == 8 && |options| <= 40 && |options| % 4 == 0
      else trafficClass < 16 && |beforeNext| == 5
    }

    function EtherType(): U16 { if Ipv4Header? then ETHERTYPE_IPV4 else ETHERTYPE_IPV6 }

    function Bytes(protocol: Byte): (r: seq<Byte>)
      requires Valid()
    {
      if Ipv4Header? then
        var ihl := 5 + |options| / 4;
        [4 * 16 + ihl] + beforeProtocol + [protocol] + checksum + src4 + dst4 + options
      else
        [6 * 16 + trafficClass] + beforeNext + [protocol] + [hopLimit] + src6 + dst6
    }

    function Source(): IpAddr { if Ipv4Header? then V4(src4) else V6(src6) }
    function Destination(): IpAddr { if Ipv4Header? then V4(dst4) else V6(dst6) }
  }

  datatype Frame = Frame(macs: seq<Byte>, tag: Option<Tag>, header: Header, isTcp: bool,
                         srcPort: U16, dstPort: U16, payload: seq<Byte>)
  {
    predicate Valid() { |macs| == 12 && header.Valid() }
  }

  function U16ToBe(n: U16): Pair {
    [n / 256, n % 256]
  }

  function TagBytes(tag: Option<Tag>): seq<Byte> {
    if tag.None? then []
    else U16ToBe(if tag.value.provider then ETHERTYPE_VLAN_8021AD else ETHERTYPE_VLAN_8021Q) + tag.value.tci
  }

  function Serialize(f: Frame): seq<Byte>
    requires f.Valid()
  {
    f.macs + TagBytes(f.tag) + U16ToBe(f.header.EtherType())
    + f.header.Bytes(if f.isTcp then IP_PROTOCOL_TCP else IP_PROTOCOL_UDP)
    + U16ToBe(f.srcPort) + U16ToBe(f.dstPort) + f.payload
  }

  function KeyOf(f: Frame): FlowKey {
    FlowKey(f.header.Source(), f.header.Destination(), f.srcPort, f.dstPort, if f.isTcp then Tcp else Udp)
  }

  // ---- The parser ----

  predicate IsTag(etherType: U16) {
    etherType == ETHERTYPE_VLAN_8021Q || etherType == ETHERTYPE_VLAN_8021AD
  }

  /** Where the network header starts and what the parser takes it for. */
  function Layer3(bytes: seq<Byte>): Option<(nat, U16)> {
    if |bytes| < ETHERNET_HEADER_LEN then None
    else
      var etherType := U16FromBe(bytes[12], bytes[13]);
      if !IsTag(etherType) then Some((ETHERNET_HEADER_LEN, etherType))
      else if |bytes| < VLAN_ETHERNET_HEADER_LEN then None
      else Some((VLAN_ETHERNET_HEADER_LEN, U16FromBe(bytes[16], bytes[17])))
  }

  function ParseKey(bytes: seq<Byte>): Option<FlowKey> {
    var l3 := Layer3(bytes);
    if l3.None? then None
    else if l3.value.1 == ETHERTYPE_IPV4 then ParseIpv4(bytes, l3.value.0)
    else if l3.value.1 == ETHERTYPE_IPV6 then ParseIpv6(bytes, l3.value.0)
    else None
  }

  method ParsePacket(bytes: seq<Byte>, packetLen: U32, localIps: seq<IpAddr>) returns (r: Option<FlowRecord>)
    ensures r.Some? <==> exists f: Frame :: f.Valid() && Serialize(f) == bytes
    ensures forall f: Frame :: f.Valid() && Serialize(f) == bytes ==>
              r == Some(FlowRecord(KeyOf(f), packetLen,
                                   ClassifyDirection(localIps, f.header.Source(), f.header.Destination())))
    ensures r.Some? ==> (r.value.direction.Rx? <==> r.value.key.srcIp !in localIps && r.value.key.dstIp in localIps)
  {
    AcceptsExactly(bytes);
    if |bytes| < ETHERNET_HEADER_LEN { return None; }
    var l3Offset := ETHERNET_HEADER_LEN;
    var currentEtherType := U16FromBe(bytes[12], bytes[13]);
    if currentEtherType == ETHERTYPE_VLAN_8021Q || currentEtherType == ETHERTYPE_VLAN_8021AD {
      if |bytes| < VLAN_ETHERNET_HEADER_LEN { return None; }
      currentEtherType := U16FromBe(bytes[16], bytes[17]);
      l3Offset := VLAN_ETHERNET_HEADER_LEN;
    }
    var parsed := None;
    if currentEtherType == ETHERTYPE_IPV4 {
      parsed := ParseIpv4(bytes, l3Offset);
    } else if currentEtherType == ETHERTYPE_IPV6 {
      parsed := ParseIpv6(bytes, l3Offset);
    }
    if parsed.None? { return None; }
    var direction := ClassifyDirection(localIps, parsed.value.srcIp, parsed.value.dstIp);
    r := Some(FlowRecord(parsed.value, packetLen, direction));
  }

  // ---- Parsing undoes serialising ----

  lemma BigEndian(n: U16)
    ensures U16FromBe(U16ToBe(n)[0], U16ToBe(n)[1]) == n
  {
  }

  lemma BigEndianBack(hi: Byte, lo: Byte)
    ensures U16ToBe(U16FromBe(hi, lo)) == [hi, lo]
  {
  }

  lemma ShiftedParse(bytes: seq<Byte>, l3: nat)
    requires l3 <= |bytes|
    ensures ParseIpv4(bytes, l3) == ParseIpv4(bytes[l3..], 0)
    ensures ParseIpv6(bytes, l3) == ParseIpv6(bytes[l3..], 0)
  {
    var tail := bytes[l3..];
    assert forall i :: 0 <= i < |tail| ==> bytes[l3 + i] == tail[i];
    if IPV4_MIN_HEADER_LEN <= |tail| {
      assert bytes[l3 + 12..l3 + 16] == tail[12..16] && bytes[l3 + 16..l3 + 20] == tail[16..20];
    }
    if IPV6_HEADER_LEN <= |tail| {
      assert bytes[l3 + 8..l3 + 24] == tail[8..24] && bytes[l3 + 24..l3 + 40] == tail[24..40];
    }
  }

  lemma Ipv4Parses(h: Header, protocol: Byte, rest: seq<Byte>)
    requires h.Valid() && h.Ipv4Header?
    ensures var bytes := h.Bytes(protocol) + rest;
            ParseIpv4(bytes, 0)
            == ParsePorts(bytes, |h.Bytes(protocol)|, ProtocolFromNum(protocol), h.Source(), h.Destination())
  {
    var head := h.Bytes(protocol);
    var bytes := head + rest;
    var fixed := [4 * 16 + 5 + |h.options| / 4] + h.beforeProtocol + [protocol] + h.checksum;
    assert head == fixed + h.src4 + h.dst4 + h.options;
    assert bytes[9] == fixed[9] == protocol && bytes[0] == fixed[0];
    assert bytes[12..16] == h.src4 && bytes[16..20] == h.dst4;
  }

  lemma Ipv6Parses(h: Header, protocol: Byte, rest: seq<Byte>)
    requires h.Valid() && h.Ipv6Header?
    ensures var bytes := h.Bytes(protocol) + rest;
            ParseIpv6(bytes, 0)
            == ParsePorts(bytes, |h.Bytes(protocol)|, ProtocolFromNum(protocol), h.Source(), h.Destination())
  {
    var head := h.Bytes(protocol);
    var bytes := head + rest;
    var fixed := [6 * 16 + h.trafficClass] + h.beforeNext + [protocol] + [h.hopLimit];
    assert head == fixed + h.src6 + h.dst6;
    assert bytes[6] == fixed[6] == protocol && bytes[0] == fixed[0];
    assert bytes[8..24] == h.src6 && bytes[24..40] == h.dst6;
  }

  lemma PortsParse(head: seq<Byte>, srcPort: U16, dstPort: U16, payload: seq<Byte>, protocol: Protocol, src: IpAddr,
                   dst: IpAddr)
    requires !protocol.Other?
    ensures ParsePorts(head + (U16ToBe(srcPort) + U16ToBe(dstPort) + payload), |head|, protocol, src, dst)
         == Some(FlowKey(src, dst, srcPort, dstPort, protocol))
  {
    var rest := U16ToBe(srcPort) + U16ToBe(dstPort) + payload;
    var bytes := head + rest;
    assert bytes[|head|] == rest[0] && bytes[|head| + 1] == rest[1] && bytes[|head| + 2] == rest[2]
        && bytes[|head| + 3] == rest[3];
    BigEndian(srcPort);
    BigEndian(dstPort);
  }

  lemma SerializeParses(f: Frame)
    requires f.Valid()
    ensures ParseKey(Serialize(f)) == Some(KeyOf(f))
  {
    var bytes := Serialize(f);
    var front := f.macs + TagBytes(f.tag) + U16ToBe(f.header.EtherType());
    var h := f.header.Bytes(if f.isTcp then IP_PROTOCOL_TCP else IP_PROTOCOL_UDP);
    var rest := U16ToBe(f.srcPort) + U16ToBe(f.dstPort) + f.payload;
    assert bytes == front + (h + rest);
    assert forall i :: 0 <= i < |front| ==> bytes[i] == front[i];
    assert Layer3(bytes) == Some((|front|, f.header.EtherType()));
    ShiftedParse(bytes, |front|);
    assert bytes[|front|..] == h + rest;
    var protocol := if f.isTcp then IP_PROTOCOL_TCP else IP_PROTOCOL_UDP;
    if f.header.Ipv4Header? { Ipv4Parses(f.header, protocol, rest); } else { Ipv6Parses(f.header, protocol, rest); }
    PortsParse(h, f.srcPort, f.dstPort, f.payload, ProtocolFromNum(protocol), f.header.Source(),
               f.header.Destination());
  }

  /** Every accepted byte string is one frame, field by field. */
  ghost function FrameOf(bytes: seq<Byte>): Frame
    requires ParseKey(bytes).Some?
  {
    var l3 := Layer3(bytes).value.0;
    var tag := if l3 == ETHERNET_HEADER_LEN then None
               else Some(Tag(U16FromBe(bytes[12], bytes[13]) == ETHERTYPE_VLAN_8021AD, bytes[14..16]));
    var key := ParseKey(bytes).value;
    if Layer3(bytes).value.1 == ETHERTYPE_IPV4 then
      var l4 := l3 + bytes[l3] % 16 * 4;
      Frame(bytes[..12], tag,
            Ipv4Header(bytes[l3 + 1..l3 + 9], bytes[l3 + 10..l3 + 12], bytes[l3 + 12..l3 + 16], bytes[l3 + 16..l3 + 20],
                       bytes[l3 + 20..l4]),
            key.protocol.Tcp?, key.srcPort, key.dstPort, bytes[l4 + 4..])
    else
      Frame(bytes[..12], tag,
            Ipv6Header(bytes[l3] % 16, bytes[l3 + 1..l3 + 6], bytes[l3 + 7], bytes[l3 + 8..l3 + 24],
                       bytes[l3 + 24..l3 + 40]),
            key.protocol.Tcp?, key.srcPort, key.dstPort, bytes[l3 + 44..])
  }

  lemma FrontOf(bytes: seq<Byte>)
    requires ParseKey(bytes).Some?
    ensures var f := FrameOf(bytes); var l3 := Layer3(bytes).value.0;
            f.macs + TagBytes(f.tag) + U16ToBe(f.header.EtherType()) == bytes[..l3]
  {
    var f := FrameOf(bytes);
    BigEndianBack(bytes[12], bytes[13]);
    if Layer3(bytes).value.0 == VLAN_ETHERNET_HEADER_LEN {
      BigEndianBack(bytes[16], bytes[17]);
      assert TagBytes(f.tag) == bytes[12..16];
    }
  }

  ghost function Header4(h: seq<Byte>): Header
    requires 20 <= |h|
  {
    Ipv4Header(h[1..9], h[10..12], h[12..16], h[16..20], h[20..])
  }

  lemma Ipv4Back(h: seq<Byte>)
    requires 20 <= |h| <= 60 && |h| % 4 == 0 && h[0] == 4 * 16 + |h| / 4
    ensures Header4(h).Valid() && Header4(h).Bytes(h[9]) == h
  {
    var fixed := [h[0]] + h[1..9] + [h[9]] + h[10..12];
    assert fixed == h[..12];
    assert h == h[..12] + h[12..16] + h[16..20] + h[20..];
  }

  lemma Ipv6Back(h: seq<Byte>)
    requires |h| == 40 && h[0] / 16 == 6
    ensures Ipv6Header(h[0] % 16, h[1..6], h[7], h[8..24], h[24..40]).Bytes(h[6]) == h
  {
    var fixed := [h[0]] + h[1..6] + [h[6]] + [h[7]];
    assert fixed == h[..8];
    assert h == h[..8] + h[8..24] + h[24..40];
  }

  /** How long the network header of an accepted byte string is. */
  ghost function HeaderLen(bytes: seq<Byte>): nat
    requires ParseKey(bytes).Some?
  {
    if Layer3(bytes).value.1 == ETHERTYPE_IPV4 then bytes[Layer3(bytes).value.0] % 16 * 4 else IPV6_HEADER_LEN
  }

  lemma SameSlice(bytes: seq<Byte>, l3: nat, n: nat, lo: nat, hi: nat)
    requires lo <= hi <= n && l3 + n <= |bytes|
    ensures bytes[l3 + lo..l3 + hi] == bytes[l3..l3 + n][lo..hi]
  {
    var whole := bytes[l3..l3 + n];
    var a, b := bytes[l3 + lo..l3 + hi], whole[lo..hi];
    forall i | 0 <= i < hi - lo ensures a[i] == b[i] {
      assert a[i] == bytes[l3 + lo + i];
      assert b[i] == whole[lo + i] == bytes[l3 + (lo + i)];
    }
    assert a == b;
  }

  lemma Header4Of(bytes: seq<Byte>, l3: nat, n: nat)
    requires 20 <= n <= 60 && n % 4 == 0 && l3 + n <= |bytes| && bytes[l3] == 4 * 16 + n / 4
    ensures Header4(bytes[l3..l3 + n])
         == Ipv4Header(bytes[l3 + 1..l3 + 9], bytes[l3 + 10..l3 + 12], bytes[l3 + 12..l3 + 16],
                       bytes[l3 + 16..l3 + 20], bytes[l3 + 20..l3 + n])
    ensures Header4(bytes[l3..l3 + n]).Valid()
    ensures Header4(bytes[l3..l3 + n]).Bytes(bytes[l3 + 9]) == bytes[l3..l3 + n]
  {
    SameSlice(bytes, l3, n, 1, 9);
    SameSlice(bytes, l3, n, 10, 12);
    SameSlice(bytes, l3, n, 12, 16);
    SameSlice(bytes, l3, n, 16, 20);
    SameSlice(bytes, l3, n, 20, n);
    Ipv4Back(bytes[l3..l3 + n]);
  }

  lemma Header6Of(bytes: seq<Byte>, l3: nat)
    requires l3 + 40 <= |bytes| && bytes[l3] / 16 == 6
    ensures Ipv6Header(bytes[l3] % 16, bytes[l3 + 1..l3 + 6], bytes[l3 + 7],
                       bytes[l3 + 8..l3 + 24], bytes[l3 + 24..l3 + 40]).Bytes(bytes[l3 + 6])
         == bytes[l3..l3 + 40]
  {
    SameSlice(bytes, l3, 40, 1, 6);
    SameSlice(bytes, l3, 40, 8, 24);
    SameSlice(bytes, l3, 40, 24, 40);
    Ipv6Back(bytes[l3..l3 + 40]);
  }

  ghost predicate HeaderMatches(bytes: seq<Byte>, f: Frame)
    requires ParseKey(bytes).Some?
  {
    var l3 := Layer3(bytes).value.0;
    && f.Valid()
    && l3 + HeaderLen(bytes) <= |bytes|
    && f.header.Bytes(if f.isTcp then IP_PROTOCOL_TCP else IP_PROTOCOL_UDP) == bytes[l3..l3 + HeaderLen(bytes)]
  }

  lemma HeaderOf4(bytes: seq<Byte>)
    requires ParseKey(bytes).Some? && Layer3(bytes).value.1 == ETHERTYPE_IPV4
    ensures HeaderMatches(bytes, FrameOf(bytes))
  {
    Header4Of(bytes, Layer3(bytes).value.0, HeaderLen(bytes));
  }

  /** What an accepted IPv6 frame is known to hold. */
  lemma Frame6(bytes: seq<Byte>)
    requires ParseKey(bytes).Some? && Layer3(bytes).value.1 != ETHERTYPE_IPV4
    ensures var l3, f := Layer3(bytes).value.0, FrameOf(bytes);
            && l3 + 44 <= |bytes| && bytes[l3] / 16 == 6 && |f.macs| == 12
            && f.header == Ipv6Header(bytes[l3] % 16, bytes[l3 + 1..l3 + 6], bytes[l3 + 7],
                                      bytes[l3 + 8..l3 + 24], bytes[l3 + 24..l3 + 40])
            && bytes[l3 + 6] == if f.isTcp then IP_PROTOCOL_TCP else IP_PROTOCOL_UDP
  {
  }

  lemma HeaderOf6(bytes: seq<Byte>)
    requires ParseKey(bytes).Some? && Layer3(bytes).value.1 != ETHERTYPE_IPV4
    ensures HeaderMatches(bytes, FrameOf(bytes))
  {
    Frame6(bytes);
    Header6Of(bytes, Layer3(bytes).value.0);
  }

  lemma PortsOf(bytes: seq<Byte>)
    requires ParseKey(bytes).Some?
    ensures var f := FrameOf(bytes); var l4 := Layer3(bytes).value.0 + HeaderLen(bytes);
            && l4 + 4 <= |bytes|
            && U16ToBe(f.srcPort) + U16ToBe(f.dstPort) + f.payload == bytes[l4..]
  {
    var l4 := Layer3(bytes).value.0 + HeaderLen(bytes);
    BigEndianBack(bytes[l4], bytes[l4 + 1]);
    BigEndianBack(bytes[l4 + 2], bytes[l4 + 3]);
    assert bytes[l4..] == [bytes[l4], bytes[l4 + 1]] + [bytes[l4 + 2], bytes[l4 + 3]] + bytes[l4 + 4..];
  }

  lemma ParsedIsFrame(bytes: seq<Byte>)
    requires ParseKey(bytes).Some?
    ensures FrameOf(bytes).Valid() && Serialize(FrameOf(bytes)) == bytes
  {
    FrontOf(bytes);
    if Layer3(bytes).value.1 == ETHERTYPE_IPV4 { HeaderOf4(bytes); } else { HeaderOf6(bytes); }
    PortsOf(bytes);
    var l3, n := Layer3(bytes).value.0, HeaderLen(bytes);
    Reassemble(FrameOf(bytes), bytes, l3, n);
  }

  lemma Reassemble(f: Frame, bytes: seq<Byte>, l3: nat, n: nat)
    requires f.Valid() && l3 + n <= |bytes|
    requires f.macs + TagBytes(f.tag) + U16ToBe(f.header.EtherType()) == bytes[..l3]
    requires f.header.Bytes(if f.isTcp then IP_PROTOCOL_TCP else IP_PROTOCOL_UDP) == bytes[l3..l3 + n]
    requires U16ToBe(f.srcPort) + U16ToBe(f.dstPort) + f.payload == bytes[l3 + n..]
    ensures Serialize(f) == bytes
  {
    assert bytes == bytes[..l3] + bytes[l3..l3 + n] + bytes[l3 + n..];
    assert Serialize(f)
        == f.macs + TagBytes(f.tag) + U16ToBe(f.header.EtherType())
           + f.header.Bytes(if f.isTcp then IP_PROTOCOL_TCP else IP_PROTOCOL_UDP)
           + (U16ToBe(f.srcPort) + U16ToBe(f.dstPort) + f.payload);
  }

  /** The parser accepts exactly the serialised frames, and returns their key. */
  lemma AcceptsExactly(bytes: seq<Byte>)
    ensures ParseKey(bytes).Some? <==> exists f: Frame :: f.Valid() && Serialize(f) == bytes
    ensures forall f: Frame :: f.Valid() && Serialize(f) == bytes ==> ParseKey(bytes) == Some(KeyOf(f))
  {
    if ParseKey(bytes).Some? { ParsedIsFrame(bytes); }
    forall f: Frame | f.Valid() && Serialize(f) == bytes ensures ParseKey(bytes) == Some(KeyOf(f)) {
      SerializeParses(f);
    }
  }

  // ---- Direction ----

  /** Exactly one end is local just when the two directions of a conversation differ. */
  lemma OppositeDirections(localIps: seq<IpAddr>, a: IpAddr, b: IpAddr)
    ensures (a in localIps) != (b in localIps)
       <==> ClassifyDirection(localIps, a, b) != ClassifyDirection(localIps, b, a)
  {
  }
}
