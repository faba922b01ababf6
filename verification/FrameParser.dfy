/** What both frame parsers share: byte access, protocols and error classes. */
module Frames {
  import opened Prelude

  datatype Proto = Tcp | Udp | Icmp | Icmpv6 | Other

  /** `Unsupported` is a frame of a protocol that is not analysed; `Malformed` is a broken one. */
  datatype ParseError = Unsupported | Malformed

  datatype Result<+T> = Ok(value: T) | Err(error: ParseError) {
    predicate IsFailure() { Err? }
    function PropagateFailure<U>(): Result<U> requires Err? { Err(error) }
    function Extract(): T requires Ok? { value }
  }

  const ETH_HEADER_LEN := 14
  const ETHERTYPE_IPV4 := 0x0800
  const ETHERTYPE_IPV6 := 0x86DD
  const IPV4_MIN_HEADER_LEN := 20
  const IPV6_HEADER_LEN := 40
  const IP_PROTO_ICMP := 1
  const IP_PROTO_TCP := 6
  const IP_PROTO_UDP := 17
  const IP_PROTO_ICMPV6 := 58
  const TCP_MIN_HEADER_LEN := 20
  const UDP_HEADER_LEN := 8
  const ICMP_MIN_HEADER_LEN := 4

  function Be16(raw: seq<Byte>, at: nat): (n: nat)
    requires at + 2 <= |raw|
    ensures n < 0x1_0000
  {
    raw[at] as int * 256 + raw[at + 1]
  }

  function Be32(raw: seq<Byte>, at: nat): (n: nat)
    requires at + 4 <= |raw|
    ensures n < 0x1_0000_0000
  {
    Be16(raw, at) * 0x1_0000 + Be16(raw, at + 2)
  }

  /** The flag bit of weight `bit` (a power of two) in a TCP flags byte. */
  predicate FlagSet(flags: nat, bit: nat)
    requires bit > 0
  {
    flags / bit % 2 == 1
  }

  const FIN := 0x01
  const SYN := 0x02
  const RST := 0x04
  const PSH := 0x08
  const ACK := 0x10
  const URG := 0x20
}

/** The native parser. Every `raw[..]` below carries the proof that it cannot panic. */
module NativeParser {
  import opened Prelude
  import opened Frames

  datatype Packet = Packet(
    tsUs: int,
    srcMac: nat,
    dstMac: nat,
    ipv4: bool,
    src: nat,
    dst: nat,
    proto: Proto,
    sport: Option<nat>,
    dport: Option<nat>,
    tcpFlags: Option<nat>,
    totalLength: nat,
    payloadLength: nat,
    tcpPayloadOffset: Option<nat>)

  datatype L4 = L4(proto: Proto, sport: Option<nat>, dport: Option<nat>, tcpFlags: Option<nat>, headerLength: nat)

  /** Left fold of `count` octets, big endian. */
  function FoldOctets(raw: seq<Byte>, at: nat, count: nat): nat
    requires at + count <= |raw|
  {
    if count == 0 then 0 else FoldOctets(raw, at, count - 1) * 256 + raw[at + count - 1]
  }

  function Parse(raw: seq<Byte>, tsUs: int): Result<Packet> {
    if |raw| < ETH_HEADER_LEN then Err(Malformed)
    else if Be16(raw, 12) == ETHERTYPE_IPV4 then ParseIpv4(raw, ETH_HEADER_LEN, tsUs)
    else if Be16(raw, 12) == ETHERTYPE_IPV6 then ParseIpv6(raw, ETH_HEADER_LEN, tsUs)
    else Err(Unsupported)
  }

  function ParseIpv4(raw: seq<Byte>, offset: nat, tsUs: int): Result<Packet>
    requires |raw| >= ETH_HEADER_LEN
  {
    var (ihl, totalLength) :- Ipv4Lengths(raw, offset);
    var l4 :- ParseL4(raw, offset + ihl, raw[offset + 9], totalLength - ihl);
    FinishIpv4(raw, offset, tsUs, ihl, totalLength, l4)
  }

  /** Header length and total length, once both are known to lie inside the frame. */
  function Ipv4Lengths(raw: seq<Byte>, offset: nat): (r: Result<(nat, nat)>)
    ensures r.Ok? ==> IPV4_MIN_HEADER_LEN <= r.value.0 <= r.value.1 <= |raw| - offset
  {
    if |raw| < offset + IPV4_MIN_HEADER_LEN then Err(Malformed)
    else if raw[offset] / 16 != 4 then Err(Malformed)
    else
      var ihl := raw[offset] % 16 * 4;
      if ihl < IPV4_MIN_HEADER_LEN || |raw| < offset + ihl then Err(Malformed)
      else
        var totalLength := Be16(raw, offset + 2);
        if totalLength < ihl || |raw| < offset + totalLength then Err(Malformed)
        else Ok((ihl, totalLength))
  }

  function FinishIpv4(raw: seq<Byte>, offset: nat, tsUs: int, ihl: nat, totalLength: nat, l4: L4): Result<Packet>
    requires |raw| >= ETH_HEADER_LEN && |raw| >= offset + IPV4_MIN_HEADER_LEN && ihl <= totalLength
  {
    var available := totalLength - ihl;
    if available < l4.headerLength then Err(Malformed)
    else
      Ok(Packet(tsUs, FoldOctets(raw, 6, 6), FoldOctets(raw, 0, 6), true,
                Be32(raw, offset + 12), Be32(raw, offset + 16),
                l4.proto, l4.sport, l4.dport, l4.tcpFlags,
                totalLength, available - l4.headerLength,
                if l4.proto == Tcp then Some(offset + ihl + l4.headerLength) else None))
  }

  function ParseIpv6(raw: seq<Byte>, offset: nat, tsUs: int): Result<Packet>
    requires |raw| >= ETH_HEADER_LEN
  {
    if |raw| < offset + IPV6_HEADER_LEN then Err(Malformed)
    else if raw[offset] / 16 != 6 then Err(Malformed)
    else
      var declared := Be16(raw, offset + 4);
      var l4Offset := offset + IPV6_HEADER_LEN;
      var available := Min(declared, |raw| - l4Offset);
      var l4 :- ParseL4(raw, l4Offset, raw[offset + 6], available);
      if available < l4.headerLength then Err(Malformed)
      else
        Ok(Packet(tsUs, FoldOctets(raw, 6, 6), FoldOctets(raw, 0, 6), false, 0, 0,
                  l4.proto, l4.sport, l4.dport, l4.tcpFlags,
                  IPV6_HEADER_LEN + declared, available - l4.headerLength, None))
  }

  function ParseL4(raw: seq<Byte>, offset: nat, protocol: Byte, available: nat): Result<L4> {
    if protocol == IP_PROTO_TCP then
      if available < TCP_MIN_HEADER_LEN || |raw| < offset + TCP_MIN_HEADER_LEN then Err(Malformed)
      else
        var dataOffset := raw[offset + 12] / 16 * 4;
        if dataOffset < TCP_MIN_HEADER_LEN then Err(Malformed)
        else if available < dataOffset || |raw| < offset + dataOffset then Err(Malformed)
        else Ok(L4(Tcp, Some(Be16(raw, offset)), Some(Be16(raw, offset + 2)), Some(raw[offset + 13]), dataOffset))
    else if protocol == IP_PROTO_UDP then
      if available < UDP_HEADER_LEN || |raw| < offset + UDP_HEADER_LEN then Err(Malformed)
      else Ok(L4(Udp, Some(Be16(raw, offset)), Some(Be16(raw, offset + 2)), None, UDP_HEADER_LEN))
    else if protocol == IP_PROTO_ICMP || protocol == IP_PROTO_ICMPV6 then
      if available < ICMP_MIN_HEADER_LEN || |raw| < offset + ICMP_MIN_HEADER_LEN then Err(Malformed)
      else Ok(L4(if protocol == IP_PROTO_ICMP then Icmp else Icmpv6, None, None, None, ICMP_MIN_HEADER_LEN))
    else Ok(L4(Other, None, None, None, 0))
  }

  function TcpPayload(raw: seq<Byte>, packet: Packet): Option<seq<Byte>> {
    match packet.tcpPayloadOffset
    case None => None
    case Some(start) =>
      var end := Min(ETH_HEADER_LEN + packet.totalLength, |raw|);
      if start <= end then Some(raw[start..end]) else None
  }
}

/** The Python parser, with Python's clamping slices and `struct.unpack` on them. */
module PythonParser {
  import opened Prelude
  import opened Frames
  import opened PythonBytes

  datatype Family = IPv4 | IPv6

  datatype TcpFlags = TcpFlags(fin: bool, syn: bool, rst: bool, psh: bool, ack: bool, urg: bool)

  datatype PacketMetadata = PacketMetadata(
    timestamp: int,
    family: Family,
    sourceIp: seq<Byte>,
    destinationIp: seq<Byte>,
    protocol: Proto,
    sourcePort: Option<nat>,
    destinationPort: Option<nat>,
    tcpFlags: Option<TcpFlags>,
    totalLength: nat,
    payloadLength: nat,
    sourceMac: string,
    destinationMac: string)

  datatype L4Info = L4Info(protocol: Proto, sourcePort: Option<nat>, destinationPort: Option<nat>,
                           tcpFlags: Option<TcpFlags>, headerLength: nat)

  const HEX := "0123456789abcdef"

  /** `data.hex(":")`. */
  function HexColon(data: seq<Byte>): string {
    if data == [] then ""
    else
      var octet := [HEX[data[0] / 16], HEX[data[0] % 16]];
      if |data| == 1 then octet else octet + ":" + HexColon(data[1..])
  }

  function ParsePacket(raw: seq<Byte>, capturedAt: int): Result<PacketMetadata> {
    if |raw| < ETH_HEADER_LEN then Err(Malformed)
    else
      var ethertype := UnpackH(Slice(raw, 12, 14));
      var source, destination := HexColon(Slice(raw, 6, 12)), HexColon(Slice(raw, 0, 6));
      if ethertype == ETHERTYPE_IPV4 then ParseIpv4(raw, ETH_HEADER_LEN, capturedAt, source, destination)
      else if ethertype == ETHERTYPE_IPV6 then ParseIpv6(raw, ETH_HEADER_LEN, capturedAt, source, destination)
      else Err(Unsupported)
  }

  function ParseIpv4(raw: seq<Byte>, offset: nat, capturedAt: int, source: string, destination: string)
    : Result<PacketMetadata>
  {
    var (ihl, totalLength) :- Ipv4Lengths(raw, offset);
    var l4 :- ParseL4(raw, offset + ihl, raw[offset + 9], totalLength - ihl);
    FinishIpv4(raw, offset, capturedAt, ihl, totalLength, l4, source, destination)
  }

  function Ipv4Lengths(raw: seq<Byte>, offset: nat): (r: Result<(nat, nat)>)
    ensures r.Ok? ==> IPV4_MIN_HEADER_LEN <= r.value.0 <= r.value.1 <= |raw| - offset
  {
    if |raw| < offset + IPV4_MIN_HEADER_LEN then Err(Malformed)
    else if raw[offset] / 16 != 4 then Err(Malformed)
    else
      var ihl := raw[offset] % 16 * 4;
      if ihl < IPV4_MIN_HEADER_LEN then Err(Malformed)
      else if |raw| < offset + ihl then Err(Malformed)
      else
        var totalLength := UnpackH(Slice(raw, offset + 2, offset + 4));
        if totalLength < ihl then Err(Malformed)
        else if |raw| < offset + totalLength then Err(Malformed)
        else Ok((ihl, totalLength))
  }

  function FinishIpv4(raw: seq<Byte>, offset: nat, capturedAt: int, ihl: nat, totalLength: nat, l4: L4Info,
                      source: string, destination: string)
    : Result<PacketMetadata>
  {
    var payloadLength := totalLength - ihl - l4.headerLength;
    if payloadLength < 0 then Err(Malformed)
    else
      Ok(PacketMetadata(capturedAt, IPv4,
                        Slice(raw, offset + 12, offset + 16), Slice(raw, offset + 16, offset + 20),
                        l4.protocol, l4.sourcePort, l4.destinationPort, l4.tcpFlags,
                        totalLength, payloadLength, source, destination))
  }

  function ParseIpv6(raw: seq<Byte>, offset: nat, capturedAt: int, source: string, destination: string)
    : Result<PacketMetadata>
  {
    if |raw| < offset + IPV6_HEADER_LEN then Err(Malformed)
    else if raw[offset] / 16 != 6 then Err(Malformed)
    else
      var declared := UnpackH(Slice(raw, offset + 4, offset + 6));
      var l4Offset := offset + IPV6_HEADER_LEN;
      var available := Min(declared, |raw| - l4Offset);
      var l4 :- ParseL4(raw, l4Offset, raw[offset + 6], available);
      var payloadLength := available - l4.headerLength;
      if payloadLength < 0 then Err(Malformed)
      else
        Ok(PacketMetadata(capturedAt, IPv6,
                          Slice(raw, offset + 8, offset + 24), Slice(raw, offset + 24, offset + 40),
                          l4.protocol, l4.sourcePort, l4.destinationPort, l4.tcpFlags,
                          IPV6_HEADER_LEN + declared, payloadLength, source, destination))
  }

  function ParseL4(raw: seq<Byte>, offset: nat, protocol: Byte, available: nat): Result<L4Info> {
    if protocol == IP_PROTO_TCP then ParseTcp(raw, offset, available)
    else if protocol == IP_PROTO_UDP then ParseUdp(raw, offset, available)
    else if protocol == IP_PROTO_ICMP then ParseIcmp(raw, offset, available, Icmp)
    else if protocol == IP_PROTO_ICMPV6 then ParseIcmp(raw, offset, available, Icmpv6)
    else Ok(L4Info(Other, None, None, None, 0))
  }

  function ParseTcp(raw: seq<Byte>, offset: nat, available: nat): Result<L4Info> {
    if available < TCP_MIN_HEADER_LEN || |raw| < offset + TCP_MIN_HEADER_LEN then Err(Malformed)
    else
      var sourcePort := UnpackH(Slice(raw, offset, offset + 4)[..2]);
      var destinationPort := UnpackH(Slice(raw, offset, offset + 4)[2..]);
      var dataOffset := raw[offset + 12] / 16 * 4;
      if dataOffset < TCP_MIN_HEADER_LEN then Err(Malformed)
      else if available < dataOffset || |raw| < offset + dataOffset then Err(Malformed)
      else Ok(L4Info(Tcp, Some(sourcePort), Some(destinationPort), Some(Flags(raw[offset + 13])), dataOffset))
  }

  function Flags(flags: nat): TcpFlags {
    TcpFlags(FlagSet(flags, FIN), FlagSet(flags, SYN), FlagSet(flags, RST),
             FlagSet(flags, PSH), FlagSet(flags, ACK), FlagSet(flags, URG))
  }

  function ParseUdp(raw: seq<Byte>, offset: nat, available: nat): Result<L4Info> {
    if available < UDP_HEADER_LEN || |raw| < offset + UDP_HEADER_LEN then Err(Malformed)
    else
      Ok(L4Info(Udp, Some(UnpackH(Slice(raw, offset, offset + 4)[..2])),
                Some(UnpackH(Slice(raw, offset, offset + 4)[2..])), None, UDP_HEADER_LEN))
  }

  function ParseIcmp(raw: seq<Byte>, offset: nat, available: nat, protocol: Proto): Result<L4Info> {
    if available < ICMP_MIN_HEADER_LEN || |raw| < offset + ICMP_MIN_HEADER_LEN then Err(Malformed)
    else Ok(L4Info(protocol, None, None, None, ICMP_MIN_HEADER_LEN))
  }

  function ExtractTcpPayload(raw: seq<Byte>): Option<seq<Byte>> {
    if |raw| < ETH_HEADER_LEN + IPV4_MIN_HEADER_LEN then None
    else if UnpackH(Slice(raw, 12, 14)) != ETHERTYPE_IPV4 then None
    else
      var offset := ETH_HEADER_LEN;
      var ihl := raw[offset] % 16 * 4;
      if raw[offset] / 16 != 4 then None
      else if ihl < IPV4_MIN_HEADER_LEN || |raw| < offset + ihl then None
      else if raw[offset + 9] != IP_PROTO_TCP then None
      else
        var totalLength := UnpackH(Slice(raw, offset + 2, offset + 4));
        var l4Offset := offset + ihl;
        if |raw| < l4Offset + TCP_MIN_HEADER_LEN then None
        else
          var dataOffset := raw[l4Offset + 12] / 16 * 4;
          if dataOffset < TCP_MIN_HEADER_LEN || |raw| < l4Offset + dataOffset then None
          else
            var payloadOffset := l4Offset + dataOffset;
            var payloadEnd := Min(offset + totalLength, |raw|);
            if payloadOffset > payloadEnd then None else Some(Slice(raw, payloadOffset, payloadEnd))
  }
}

/** The two parsers are one function. */
module ParserParity {
  import opened Prelude
  import opened Frames
  import opened PythonBytes
  import N = NativeParser
  import P = PythonParser

  /** The low `count` octets of a number, most significant first. */
  function Octets(n: nat, count: nat): seq<Byte> {
    if count == 0 then [] else Octets(n / 256, count - 1) + [n % 256]
  }

  /** A 48-bit address in the normalised text form. */
  function MacText(mac: nat): string {
    P.HexColon(Octets(mac, 6))
  }

  function TranslateFlags(flags: Option<nat>): Option<P.TcpFlags> {
    match flags
    case None => None
    case Some(f) => Some(P.Flags(f))
  }

  function TranslateL4(l4: N.L4): P.L4Info {
    P.L4Info(l4.proto, l4.sport, l4.dport, TranslateFlags(l4.tcpFlags), l4.headerLength)
  }

  /** The Python record that says what a native one says, with the addresses in the Python form. */
  function Record(n: N.Packet, sourceIp: seq<Byte>, destinationIp: seq<Byte>, source: string, destination: string)
    : P.PacketMetadata
  {
    P.PacketMetadata(n.tsUs, if n.ipv4 then P.IPv4 else P.IPv6, sourceIp, destinationIp,
                     n.proto, n.sport, n.dport, TranslateFlags(n.tcpFlags),
                     n.totalLength, n.payloadLength, source, destination)
  }

  /** Everything comes from the native record but the IPv6 addresses, which it does not keep. */
  function Translate(n: N.Packet, raw: seq<Byte>): P.PacketMetadata {
    Record(n, if n.ipv4 then Octets(n.src, 4) else Slice(raw, 22, 38),
           if n.ipv4 then Octets(n.dst, 4) else Slice(raw, 38, 54),
           MacText(n.srcMac), MacText(n.dstMac))
  }

  lemma {:induction false} OctetsOfFold(raw: seq<Byte>, at: nat, count: nat)
    requires at + count <= |raw|
    ensures Octets(N.FoldOctets(raw, at, count), count) == raw[at..at + count]
  {
    if count > 0 {
      OctetsOfFold(raw, at, count - 1);
      var high, low: int := N.FoldOctets(raw, at, count - 1), raw[at + count - 1];
      assert (high * 256 + low) / 256 == high && (high * 256 + low) % 256 == low;
      assert raw[at..at + count] == raw[at..at + count - 1] + [raw[at + count - 1]];
    }
  }

  lemma AddressParity(raw: seq<Byte>, at: nat)
    requires at + 4 <= |raw|
    ensures Slice(raw, at, at + 4) == Octets(Be32(raw, at), 4)
  {
    OctetsOfFold(raw, at, 4);
    assert N.FoldOctets(raw, at, 1) == raw[at];
    assert N.FoldOctets(raw, at, 2) == Be16(raw, at);
    assert N.FoldOctets(raw, at, 3) == Be16(raw, at) * 256 + raw[at + 2];
    assert N.FoldOctets(raw, at, 4) == Be32(raw, at);
  }

  lemma UnpackIsBe16(raw: seq<Byte>, at: nat)
    requires at + 2 <= |raw|
    ensures |Slice(raw, at, at + 2)| == 2 && UnpackH(Slice(raw, at, at + 2)) == Be16(raw, at)
  {
  }

  lemma L4Parity(raw: seq<Byte>, offset: nat, protocol: Byte, available: nat)
    ensures P.ParseL4(raw, offset, protocol, available) ==
      match N.ParseL4(raw, offset, protocol, available)
      case Ok(l4) => Ok(TranslateL4(l4))
      case Err(e) => Err(e)
  {
  }

  lemma FinishParity(raw: seq<Byte>, ts: int, ihl: nat, total: nat, l4: N.L4, source: string, destination: string)
    requires |raw| >= ETH_HEADER_LEN + IPV4_MIN_HEADER_LEN && ihl <= total
    ensures P.FinishIpv4(raw, ETH_HEADER_LEN, ts, ihl, total, TranslateL4(l4), source, destination) ==
      match N.FinishIpv4(raw, ETH_HEADER_LEN, ts, ihl, total, l4)
      case Ok(n) => Ok(Record(n, Slice(raw, 26, 30), Slice(raw, 30, 34), source, destination))
      case Err(e) => Err(e)
  {
  }

  lemma Ipv4Parity(raw: seq<Byte>, ts: int, source: string, destination: string)
    requires |raw| >= ETH_HEADER_LEN
    ensures P.ParseIpv4(raw, ETH_HEADER_LEN, ts, source, destination) ==
      match N.ParseIpv4(raw, ETH_HEADER_LEN, ts)
      case Ok(n) => Ok(Record(n, Slice(raw, 26, 30), Slice(raw, 30, 34), source, destination))
      case Err(e) => Err(e)
  {
    var o := ETH_HEADER_LEN;
    LengthsParity(raw, o);
    var lengths := N.Ipv4Lengths(raw, o);
    if lengths.Ok? {
      var (ihl, total) := lengths.value;
      var n4, p4 := N.ParseL4(raw, o + ihl, raw[o + 9], total - ihl), P.ParseL4(raw, o + ihl, raw[o + 9], total - ihl);
      L4Parity(raw, o + ihl, raw[o + 9], total - ihl);
      if n4.Ok? {
        FinishParity(raw, ts, ihl, total, n4.value, source, destination);
        assert N.ParseIpv4(raw, o, ts) == N.FinishIpv4(raw, o, ts, ihl, total, n4.value);
        assert P.ParseIpv4(raw, o, ts, source, destination)
            == P.FinishIpv4(raw, o, ts, ihl, total, p4.value, source, destination);
      }
    }
  }

  lemma LengthsParity(raw: seq<Byte>, o: nat)
    ensures P.Ipv4Lengths(raw, o) == N.Ipv4Lengths(raw, o)
  {
    if |raw| >= o + IPV4_MIN_HEADER_LEN {
      UnpackIsBe16(raw, o + 2);
    }
  }

  lemma Ipv6Parity(raw: seq<Byte>, ts: int, source: string, destination: string)
    requires |raw| >= ETH_HEADER_LEN
    ensures P.ParseIpv6(raw, ETH_HEADER_LEN, ts, source, destination) ==
      match N.ParseIpv6(raw, ETH_HEADER_LEN, ts)
      case Ok(n) => Ok(Record(n, Slice(raw, 22, 38), Slice(raw, 38, 54), source, destination))
      case Err(e) => Err(e)
  {
    var o := ETH_HEADER_LEN;
    if |raw| >= o + IPV6_HEADER_LEN {
      UnpackIsBe16(raw, o + 4);
      L4Parity(raw, o + IPV6_HEADER_LEN, raw[o + 6], Min(Be16(raw, o + 4), |raw| - o - IPV6_HEADER_LEN));
    }
  }

  /** Where the native record's address fields come from. */
  lemma NativeAddresses(raw: seq<Byte>, ts: int)
    requires N.Parse(raw, ts).Ok?
    ensures
      var n := N.Parse(raw, ts).value;
      && |raw| >= ETH_HEADER_LEN + IPV4_MIN_HEADER_LEN
      && n.srcMac == N.FoldOctets(raw, 6, 6) && n.dstMac == N.FoldOctets(raw, 0, 6)
      && n.ipv4 == (Be16(raw, 12) == ETHERTYPE_IPV4)
      && (n.ipv4 ==> n.src == Be32(raw, 26) && n.dst == Be32(raw, 30))
  {
  }

  lemma AddressTexts(raw: seq<Byte>, ts: int)
    requires N.Parse(raw, ts).Ok?
    ensures
      var n := N.Parse(raw, ts).value;
      && P.HexColon(Slice(raw, 6, 12)) == MacText(n.srcMac) && P.HexColon(Slice(raw, 0, 6)) == MacText(n.dstMac)
      && (n.ipv4 ==> Slice(raw, 26, 30) == Octets(n.src, 4) && Slice(raw, 30, 34) == Octets(n.dst, 4))
  {
    NativeAddresses(raw, ts);
    AddressParity(raw, 26);
    AddressParity(raw, 30);
    OctetsOfFold(raw, 6, 6);
    OctetsOfFold(raw, 0, 6);
    assert Slice(raw, 6, 12) == raw[6..12] && Slice(raw, 0, 6) == raw[0..6];
  }

  /**
   The Python parser is the native one up to `Translate`: same frames accepted, same class for every
   rejection, same value in every shared field.
   */
  lemma Parity(raw: seq<Byte>, ts: int)
    ensures P.ParsePacket(raw, ts) ==
      match N.Parse(raw, ts)
      case Ok(n) => Ok(Translate(n, raw))
      case Err(e) => Err(e)
  {
    if |raw| >= ETH_HEADER_LEN {
      UnpackIsBe16(raw, 12);
      var source, destination := P.HexColon(Slice(raw, 6, 12)), P.HexColon(Slice(raw, 0, 6));
      Ipv4Parity(raw, ts, source, destination);
      Ipv6Parity(raw, ts, source, destination);
      if N.Parse(raw, ts).Ok? {
        NativeAddresses(raw, ts);
        AddressTexts(raw, ts);
      }
    }
  }

  /** A frame is an IPv4/TCP frame for the native parser. */
  predicate AcceptedTcp(raw: seq<Byte>, ts: int) {
    var r := N.Parse(raw, ts);
    r.Ok? && r.value.ipv4 && r.value.proto == Tcp
  }

  /** On every accepted IPv4/TCP frame both extractors return the same `payload_length` bytes. */
  lemma PayloadParity(raw: seq<Byte>, ts: int)
    requires AcceptedTcp(raw, ts)
    ensures
      var packet := N.Parse(raw, ts).value;
      && packet.tcpPayloadOffset.Some?
      && packet.tcpPayloadOffset.value + packet.payloadLength == ETH_HEADER_LEN + packet.totalLength <= |raw|
      && N.TcpPayload(raw, packet) == Some(raw[packet.tcpPayloadOffset.value..ETH_HEADER_LEN + packet.totalLength])
      && P.ExtractTcpPayload(raw) == N.TcpPayload(raw, packet)
  {
  }

  /**
   Off the accepted frames the extractors part ways in one case only: the Python extractor still
   answers when the captured bytes end before the IPv4 total length, where the parser refuses.
   */
  lemma ExtractBeyondParser(raw: seq<Byte>, ts: int)
    requires P.ExtractTcpPayload(raw).Some?
    ensures |raw| >= ETH_HEADER_LEN + IPV4_MIN_HEADER_LEN
    ensures AcceptedTcp(raw, ts) <==> |raw| >= ETH_HEADER_LEN + Be16(raw, ETH_HEADER_LEN + 2)
  {
    var o := ETH_HEADER_LEN;
    UnpackIsBe16(raw, 12);
    UnpackIsBe16(raw, o + 2);
    LengthsParity(raw, o);
    var ihl, total := raw[o] % 16 * 4, Be16(raw, o + 2);
    var lengths := N.Ipv4Lengths(raw, o);
    assert N.Parse(raw, ts) == N.ParseIpv4(raw, o, ts);
    if |raw| < o + total {
      assert lengths.Err?;
    } else {
      assert lengths == Ok((ihl, total));
      var l4 := N.ParseL4(raw, o + ihl, raw[o + 9], total - ihl);
      assert l4.Ok? && l4.value.proto == Tcp;
      assert N.ParseIpv4(raw, o, ts) == N.FinishIpv4(raw, o, ts, ihl, total, l4.value);
    }
  }

  /** An IPv4/TCP frame of 54 captured bytes that declares a total length of 60. */
  const CUT_FRAME: seq<Byte> := [
    2, 0, 0, 0, 0, 1, 2, 0, 0, 0, 0, 2, 8, 0,
    0x45, 0, 0, 60, 0, 0, 0, 0, 64, 6, 0, 0, 10, 0, 0, 1, 10, 0, 0, 2,
    1, 187, 200, 0, 0, 0, 0, 1, 0, 0, 0, 1, 0x50, 0x18, 0, 0, 0, 0, 0, 0]

  lemma ShortFrame(raw: seq<Byte>)
    requires |raw| == 54 && raw[12] == 8 && raw[13] == 0 && raw[14] == 0x45 && raw[16] == 0 && raw[17] == 60
    requires raw[23] == 6 && raw[46] == 0x50
    ensures P.ExtractTcpPayload(raw) == Some([]) && Be16(raw, 16) == 60
  {
    var kind, length := Slice(raw, 12, 14), Slice(raw, 16, 18);
    assert kind[0] == raw[12] && kind[1] == raw[13] && length[0] == raw[16] && length[1] == raw[17];
    assert UnpackH(kind) == ETHERTYPE_IPV4 && UnpackH(length) == 60;
    assert raw[14] / 16 == 4 && raw[14] % 16 * 4 == 20 && raw[46] / 16 * 4 == 20;
    assert Slice(raw, 54, 54) == [];
  }

  /** The extractor answers on it, and neither parser accepts it. */
  lemma ExtractAnswersAlone(ts: int)
    ensures P.ExtractTcpPayload(CUT_FRAME) == Some([]) && !AcceptedTcp(CUT_FRAME, ts)
  {
    ShortFrame(CUT_FRAME);
    ExtractBeyondParser(CUT_FRAME, ts);
  }
}
