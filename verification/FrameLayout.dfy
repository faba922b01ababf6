/** Frames laid out octet by octet, and what both parsers read off them. */
module FrameLayout {
  import opened Prelude
  import opened Frames
  import N = NativeParser
  import P = PythonParser
  import ParserParity

  // ------------------------------------------------------------------ transport headers

  /** A transport header: TCP and UDP ports, TCP flags, and the octets no parser looks at. */
  datatype Segment =
    | TcpSegment(sport: nat, dport: nat, numbers: seq<Byte>, words: nat, reserved: nat, flags: P.TcpFlags, ecn: nat,
                 tail: seq<Byte>, options: seq<Byte>)
    | UdpSegment(sport: nat, dport: nat, tail: seq<Byte>)
    | IcmpSegment(v6: bool, head: seq<Byte>)
    | OtherSegment(protocol: Byte)
  {
    predicate Fits() {
      match this
      case TcpSegment(sport, dport, numbers, words, reserved, _, ecn, tail, options) =>
        && sport < 0x1_0000 && dport < 0x1_0000 && |numbers| == 8 && 5 <= words <= 15 && reserved < 16 && ecn < 4
        && |tail| == 6 && |options| == 4 * words - 20
      case UdpSegment(sport, dport, tail) => sport < 0x1_0000 && dport < 0x1_0000 && |tail| == 4
      case IcmpSegment(_, head) => |head| == 4
      case OtherSegment(protocol) => protocol != 1 && protocol != 6 && protocol != 17 && protocol != 58
    }

    function Protocol(): Byte {
      match this
      case TcpSegment(_, _, _, _, _, _, _, _, _) => 6
      case UdpSegment(_, _, _) => 17
      case IcmpSegment(v6, _) => if v6 then 58 else 1
      case OtherSegment(protocol) => protocol
    }

    function Header(): (h: seq<Byte>)
      requires Fits()
      ensures |h| == match this
                     case TcpSegment(_, _, _, words, _, _, _, _, _) => 4 * words
                     case UdpSegment(_, _, _) => 8
                     case IcmpSegment(_, _) => 4
                     case OtherSegment(_) => 0
    {
      match this
      case TcpSegment(sport, dport, numbers, words, reserved, flags, ecn, tail, options) =>
        [sport / 256, sport % 256, dport / 256, dport % 256] + numbers
        + [16 * words + reserved, FlagsOctet(flags, ecn)] + tail + options
      case UdpSegment(sport, dport, tail) => [sport / 256, sport % 256, dport / 256, dport % 256] + tail
      case IcmpSegment(_, head) => head
      case OtherSegment(_) => []
    }

    /** What the native parser should make of it. */
    function Read(): N.L4
      requires Fits()
    {
      match this
      case TcpSegment(sport, dport, _, words, _, flags, ecn, _, _) =>
        N.L4(Tcp, Some(sport), Some(dport), Some(FlagsOctet(flags, ecn)), 4 * words)
      case UdpSegment(sport, dport, _) => N.L4(Udp, Some(sport), Some(dport), None, 8)
      case IcmpSegment(v6, _) => N.L4(if v6 then Icmpv6 else Icmp, None, None, None, 4)
      case OtherSegment(_) => N.L4(Other, None, None, None, 0)
    }
  }

  function Bit(on: bool): nat { if on then 1 else 0 }

  /** The flags octet of section 3.1 of RFC 9293: CWR, ECE, URG, ACK, PSH, RST, SYN, FIN from the top. */
  function FlagsOctet(f: P.TcpFlags, ecn: nat): Byte
    requires ecn < 4
  {
    Bit(f.fin) + 2 * Bit(f.syn) + 4 * Bit(f.rst) + 8 * Bit(f.psh) + 16 * Bit(f.ack) + 32 * Bit(f.urg) + 64 * ecn
  }

  /** Each flag is read back from its own bit, whatever the others are. */
  lemma FlagsRoundTrip(f: P.TcpFlags, ecn: nat)
    requires ecn < 4
    ensures P.Flags(FlagsOctet(f, ecn)) == f
    ensures FlagSet(FlagsOctet(f, ecn), FIN) == f.fin && FlagSet(FlagsOctet(f, ecn), SYN) == f.syn
    ensures FlagSet(FlagsOctet(f, ecn), RST) == f.rst && FlagSet(FlagsOctet(f, ecn), PSH) == f.psh
    ensures FlagSet(FlagsOctet(f, ecn), ACK) == f.ack && FlagSet(FlagsOctet(f, ecn), URG) == f.urg
  {
    var fromUrg := Bit(f.urg) + 2 * ecn;
    var fromAck := Bit(f.ack) + 2 * fromUrg;
    var fromPsh := Bit(f.psh) + 2 * fromAck;
    var fromRst := Bit(f.rst) + 2 * fromPsh;
    var fromSyn := Bit(f.syn) + 2 * fromRst;
    var b: int := FlagsOctet(f, ecn);
    assert b == Bit(f.fin) + 2 * fromSyn;
    assert b / 2 == fromSyn && b / 4 == fromRst && b / 8 == fromPsh && b / 16 == fromAck && b / 32 == fromUrg;
  }

  /** These octets are in the frame from `at` on. */
  predicate Holds(raw: seq<Byte>, at: nat, octets: seq<Byte>) {
    at + |octets| <= |raw| && raw[at..at + |octets|] == octets
  }

  lemma HeldAt(raw: seq<Byte>, at: nat, octets: seq<Byte>, i: nat)
    requires Holds(raw, at, octets) && i < |octets|
    ensures raw[at + i] == octets[i]
  {
    assert raw[at..at + |octets|][i] == raw[at + i];
  }

  lemma SegmentReads(raw: seq<Byte>, at: nat, s: Segment, available: nat)
    requires s.Fits() && Holds(raw, at, s.Header()) && |s.Header()| <= available
    ensures N.ParseL4(raw, at, s.Protocol(), available) == Ok(s.Read())
  {
    var h := s.Header();
    if s.TcpSegment? || s.UdpSegment? {
      HeldAt(raw, at, h, 0);
      HeldAt(raw, at, h, 1);
      HeldAt(raw, at, h, 2);
      HeldAt(raw, at, h, 3);
      assert Be16(raw, at) == s.sport && Be16(raw, at + 2) == s.dport;
    }
    if s.TcpSegment? {
      HeldAt(raw, at, h, 12);
      HeldAt(raw, at, h, 13);
      assert raw[at + 12] / 16 == s.words;
    }
  }

  /** Every header the native parser accepts is one of these. */
  lemma SegmentAt(raw: seq<Byte>, at: nat, protocol: Byte, available: nat) returns (s: Segment)
    requires at + available <= |raw| && N.ParseL4(raw, at, protocol, available).Ok?
    ensures s.Fits() && s.Protocol() == protocol && Holds(raw, at, s.Header()) && |s.Header()| <= available
  {
    if protocol == 6 {
      s := TcpAt(raw[at..at + raw[at + 12] / 16 * 4]);
    } else if protocol == 17 {
      s := UdpSegment(Be16(raw, at), Be16(raw, at + 2), raw[at + 4..at + 8]);
      assert s.Header() == raw[at..at + 8];
    } else if protocol == 1 || protocol == 58 {
      s := IcmpSegment(protocol == 58, raw[at..at + 4]);
    } else {
      s := OtherSegment(protocol);
    }
  }

  lemma TcpAt(h: seq<Byte>) returns (s: Segment)
    requires 20 <= |h| == h[12] / 16 * 4
    ensures s.TcpSegment? && s.Fits() && s.Header() == h
  {
    var flags, ecn := FlagsOf(h[13]);
    s := TcpSegment(Be16(h, 0), Be16(h, 2), h[4..12], h[12] / 16, h[12] % 16, flags, ecn, h[14..20], h[20..]);
    assert h[..4] == [h[0], h[1], h[2], h[3]] && h[12..14] == [h[12], h[13]];
    assert h == h[..4] + h[4..12] + h[12..14] + h[14..20] + h[20..];
  }

  lemma FlagsOf(octet: Byte) returns (f: P.TcpFlags, ecn: nat)
    ensures ecn < 4 && FlagsOctet(f, ecn) == octet
  {
    var b: int := octet;
    f := P.TcpFlags(b % 2 == 1, b / 2 % 2 == 1, b / 4 % 2 == 1, b / 8 % 2 == 1, b / 16 % 2 == 1, b / 32 % 2 == 1);
    ecn := b / 64;
    Halves(b);
  }

  lemma Halves(b: nat)
    ensures b == b % 2 + 2 * (b / 2 % 2) + 4 * (b / 4 % 2) + 8 * (b / 8 % 2) + 16 * (b / 16 % 2) + 32 * (b / 32 % 2)
                 + 64 * (b / 64)
  {
    assert b / 4 == b / 2 / 2 && b / 8 == b / 4 / 2 && b / 16 == b / 8 / 2;
    assert b / 32 == b / 16 / 2 && b / 64 == b / 32 / 2;
  }

  // ----------------------------------------------------------------------- IPv4 frames

  /** An Ethernet frame with an IPv4 packet in it; `service`, `middle`, `ttl` and the checksum are not looked at. */
  datatype Ipv4Frame = Ipv4Frame(
    dstMac: seq<Byte>, srcMac: seq<Byte>, words: nat, service: Byte, middle: seq<Byte>, ttl: Byte, checksum: seq<Byte>,
    src: seq<Byte>, dst: seq<Byte>, options: seq<Byte>, segment: Segment, payload: seq<Byte>, trailer: seq<Byte>)
  {
    predicate Fits() {
      && |dstMac| == 6 && |srcMac| == 6 && 5 <= words <= 15 && |middle| == 4 && |checksum| == 2
      && |src| == 4 && |dst| == 4 && |options| == 4 * words - 20 && segment.Fits() && TotalLength() < 0x1_0000
    }

    function TotalLength(): nat
      requires segment.Fits()
    {
      4 * words + |segment.Header()| + |payload|
    }

    /** Section 3.1 of RFC 791 behind an Ethernet header. */
    function Head(): (h: seq<Byte>)
      requires Fits()
      ensures |h| == 34
    {
      dstMac + srcMac
      + [8, 0, 64 + words, service, TotalLength() / 256, TotalLength() % 256] + middle + [ttl, segment.Protocol()]
      + checksum + src + dst
    }

    function Octets(): seq<Byte>
      requires Fits()
    {
      Head() + options + segment.Header() + payload + trailer
    }

    /** What the native parser should make of it. */
    function Read(tsUs: int): N.Packet
      requires Fits()
    {
      var l4 := segment.Read();
      N.Packet(tsUs, Number(srcMac), Number(dstMac), true, Number(src), Number(dst), l4.proto, l4.sport, l4.dport,
               l4.tcpFlags, TotalLength(), |payload|,
               if segment.TcpSegment? then Some(14 + 4 * words + 4 * segment.words) else None)
    }
  }

  /** The number these octets write, the most significant first. */
  function Number(octets: seq<Byte>): nat {
    if octets == [] then 0 else 256 * Number(octets[..|octets| - 1]) + octets[|octets| - 1]
  }

  lemma {:induction false} FoldIsNumber(raw: seq<Byte>, at: nat, octets: seq<Byte>)
    requires Holds(raw, at, octets)
    ensures N.FoldOctets(raw, at, |octets|) == Number(octets)
  {
    if octets != [] {
      var rest := octets[..|octets| - 1];
      HeldAt(raw, at, octets, |octets| - 1);
      assert raw[at..at + |rest|] == raw[at..at + |octets|][..|rest|] == rest;
      FoldIsNumber(raw, at, rest);
    }
  }

  lemma AddressIsNumber(raw: seq<Byte>, at: nat, octets: seq<Byte>)
    requires Holds(raw, at, octets) && |octets| == 4
    ensures Be32(raw, at) == Number(octets)
  {
    FoldIsNumber(raw, at, octets);
    assert N.FoldOctets(raw, at, 1) == raw[at];
    assert N.FoldOctets(raw, at, 2) == Be16(raw, at);
    assert N.FoldOctets(raw, at, 3) == Be16(raw, at) * 256 + raw[at + 2];
  }

  /** Where each field of a laid-out frame is found. */
  lemma FieldsFound(f: Ipv4Frame)
    requires f.Fits()
    ensures
      var raw := f.Octets();
      && |raw| >= 14 + f.TotalLength()
      && Holds(raw, 0, f.dstMac) && Holds(raw, 6, f.srcMac) && raw[12] == 8 && raw[13] == 0 && raw[14] == 64 + f.words
      && raw[16] == f.TotalLength() / 256 && raw[17] == f.TotalLength() % 256 && raw[23] == f.segment.Protocol()
      && Holds(raw, 26, f.src) && Holds(raw, 30, f.dst) && Holds(raw, 14 + 4 * f.words, f.segment.Header())
  {
    var raw, head := f.Octets(), f.Head();
    assert raw[..34] == head;
    assert head[0..6] == f.dstMac && head[6..12] == f.srcMac && head[26..30] == f.src && head[30..34] == f.dst;
    assert raw[0..6] == head[0..6] && raw[6..12] == head[6..12] && raw[26..30] == head[26..30]
        && raw[30..34] == head[30..34];
    assert head[12..18] == [8, 0, 64 + f.words, f.service, f.TotalLength() / 256, f.TotalLength() % 256];
    assert head[22..24] == [f.ttl, f.segment.Protocol()];
    var at := 14 + 4 * f.words;
    assert |head + f.options| == at;
    assert raw[at..at + |f.segment.Header()|] == f.segment.Header();
  }

  /** The native parser reads back exactly what was laid out. */
  lemma NativeRoundTrip(f: Ipv4Frame, tsUs: int)
    requires f.Fits()
    ensures N.Parse(f.Octets(), tsUs) == Ok(f.Read(tsUs))
  {
    var raw := f.Octets();
    FieldsFound(f);
    LengthsRead(raw, f.words, f.TotalLength());
    SegmentReads(raw, 14 + 4 * f.words, f.segment, f.TotalLength() - 4 * f.words);
    FoldIsNumber(raw, 0, f.dstMac);
    FoldIsNumber(raw, 6, f.srcMac);
    AddressIsNumber(raw, 26, f.src);
    AddressIsNumber(raw, 30, f.dst);
    PacketReads(raw, tsUs, f.words, f.TotalLength(), f.segment.Protocol(), f.segment.Read());
  }

  lemma LengthsRead(raw: seq<Byte>, words: nat, total: nat)
    requires 5 <= words <= 15 && 4 * words <= total < 0x1_0000 && |raw| >= 14 + total
    requires raw[14] == 64 + words && raw[16] == total / 256 && raw[17] == total % 256
    ensures N.Ipv4Lengths(raw, 14) == Ok((4 * words, total))
  {
    assert raw[14] / 16 == 4 && raw[14] % 16 == words;
    assert Be16(raw, 16) == total;
  }

  lemma PacketReads(raw: seq<Byte>, tsUs: int, words: nat, total: nat, protocol: Byte, l4: N.L4)
    requires |raw| >= 34 && raw[12] == 8 && raw[13] == 0 && raw[23] == protocol
    requires N.Ipv4Lengths(raw, 14) == Ok((4 * words, total))
    requires N.ParseL4(raw, 14 + 4 * words, protocol, total - 4 * words) == Ok(l4)
    requires 4 * words + l4.headerLength <= total
    ensures N.Parse(raw, tsUs) ==
      Ok(N.Packet(tsUs, N.FoldOctets(raw, 6, 6), N.FoldOctets(raw, 0, 6), true, Be32(raw, 26), Be32(raw, 30), l4.proto,
                  l4.sport, l4.dport, l4.tcpFlags, total, total - 4 * words - l4.headerLength,
                  if l4.proto == Tcp then Some(14 + 4 * words + l4.headerLength) else None))
  {
    assert Be16(raw, 12) == 0x0800;
    assert N.Parse(raw, tsUs) == N.ParseIpv4(raw, 14, tsUs);
    assert N.ParseIpv4(raw, 14, tsUs) == N.FinishIpv4(raw, 14, tsUs, 4 * words, total, l4);
  }

  /** And it accepts no other IPv4 frame: whatever it accepts was laid out so. */
  lemma AcceptedWasLaidOut(raw: seq<Byte>, tsUs: int) returns (f: Ipv4Frame)
    requires N.Parse(raw, tsUs).Ok? && N.Parse(raw, tsUs).value.ipv4
    ensures f.Fits() && f.Octets() == raw
  {
    var words, total := Lengths4(raw, tsUs);
    var s := SegmentAt(raw, 14 + 4 * words, raw[23], total - 4 * words);
    f := FrameAround(raw, words, total, s);
  }

  /** The frame around a transport header. */
  lemma FrameAround(raw: seq<Byte>, words: nat, total: nat, s: Segment) returns (f: Ipv4Frame)
    requires |raw| >= 34 && raw[12] == 8 && raw[13] == 0 && raw[14] == 64 + words && 5 <= words <= 15
    requires total == raw[16] as int * 256 + raw[17] && 14 + total <= |raw| && raw[23] == s.Protocol()
    requires s.Fits() && Holds(raw, 14 + 4 * words, s.Header()) && 4 * words + |s.Header()| <= total
    ensures f.Fits() && f.Octets() == raw
  {
    var at := 14 + 4 * words;
    var end := at + |s.Header()|;
    f := Ipv4Frame(raw[..6], raw[6..12], words, raw[15], raw[18..22], raw[22], raw[24..26], raw[26..30], raw[30..34],
                   raw[34..at], s, raw[end..14 + total], raw[14 + total..]);
    HeadOf(raw, f);
    Cut(raw, 34, at, end, 14 + total);
  }

  /** What acceptance says about the lengths. */
  lemma Lengths4(raw: seq<Byte>, tsUs: int) returns (words: nat, total: nat)
    requires N.Parse(raw, tsUs).Ok? && N.Parse(raw, tsUs).value.ipv4
    ensures |raw| >= 34 && raw[12] == 8 && raw[13] == 0 && raw[14] == 64 + words && 5 <= words <= 15
    ensures total == raw[16] as int * 256 + raw[17] && 4 * words <= total && 14 + total <= |raw|
    ensures N.ParseL4(raw, 14 + 4 * words, raw[23], total - 4 * words).Ok?
  {
    assert Be16(raw, 12) == 0x0800 && N.Parse(raw, tsUs) == N.ParseIpv4(raw, 14, tsUs);
    assert N.Ipv4Lengths(raw, 14).Ok?;
    words, total := raw[14] % 16, Be16(raw, 16);
    assert N.Ipv4Lengths(raw, 14) == Ok((4 * words, total));
  }

  lemma Cut(raw: seq<Byte>, a: nat, b: nat, c: nat, d: nat)
    requires a <= b <= c <= d <= |raw|
    ensures raw == raw[..a] + raw[a..b] + raw[b..c] + raw[c..d] + raw[d..]
  {
  }

  lemma HeadOf(raw: seq<Byte>, f: Ipv4Frame)
    requires |raw| >= 34 && f.Fits() && raw[12] == 8 && raw[13] == 0 && raw[14] == 64 + f.words && raw[15] == f.service
    requires raw[16] as int * 256 + raw[17] == f.TotalLength() && raw[22] == f.ttl && raw[23] == f.segment.Protocol()
    requires raw[..6] == f.dstMac && raw[6..12] == f.srcMac && raw[18..22] == f.middle && raw[24..26] == f.checksum
    requires raw[26..30] == f.src && raw[30..34] == f.dst
    ensures raw[..34] == f.Head()
  {
    assert raw[12..18] == [8, 0, 64 + f.words, f.service, f.TotalLength() / 256, f.TotalLength() % 256];
    assert raw[22..24] == [f.ttl, f.segment.Protocol()];
    Cut(raw[..34], 6, 12, 18, 22);
    Cut(raw[22..34], 2, 4, 8, 12);
    assert raw[22..34][..2] == raw[22..24] && raw[22..34][2..4] == raw[24..26] && raw[22..34][4..8] == raw[26..30];
    assert raw[22..34][8..12] == raw[30..34] && raw[..34][22..] == raw[22..34];
  }

  // ------------------------------------------------------------------ the Python parser

  /** Six octets as text: two lower-case hexadecimal digits each, colons between. */
  function ColonHex(o: seq<Byte>): string
    requires |o| == 6
  {
    var d := "0123456789abcdef";
    [d[o[0] / 16], d[o[0] % 16], ':', d[o[1] / 16], d[o[1] % 16], ':', d[o[2] / 16], d[o[2] % 16], ':',
     d[o[3] / 16], d[o[3] % 16], ':', d[o[4] / 16], d[o[4] % 16], ':', d[o[5] / 16], d[o[5] % 16]]
  }

  lemma HexColonIsText(o: seq<Byte>)
    requires |o| == 6
    ensures P.HexColon(o) == ColonHex(o)
  {
    HexColonStep(o[1..][1..][1..][1..]);
    HexColonStep(o[1..][1..][1..]);
    HexColonStep(o[1..][1..]);
    HexColonStep(o[1..]);
    HexColonStep(o);
    assert P.HexColon(o[1..][1..][1..][1..][1..]) == [P.HEX[o[5] / 16], P.HEX[o[5] % 16]];
  }

  lemma HexColonStep(o: seq<Byte>)
    requires |o| >= 2
    ensures P.HexColon(o) == [P.HEX[o[0] / 16], P.HEX[o[0] % 16], ':'] + P.HexColon(o[1..])
  {
  }

  function PythonFlags(s: Segment): Option<P.TcpFlags> {
    if s.TcpSegment? then Some(s.flags) else None
  }

  /** The Python parser reads back exactly what was laid out, in its own form. */
  lemma PythonRoundTrip(f: Ipv4Frame, at: int)
    requires f.Fits()
    ensures
      var l4 := f.segment.Read();
      P.ParsePacket(f.Octets(), at) ==
        Ok(P.PacketMetadata(at, P.IPv4, f.src, f.dst, l4.proto, l4.sport, l4.dport, PythonFlags(f.segment),
                            f.TotalLength(), |f.payload|, ColonHex(f.srcMac), ColonHex(f.dstMac)))
  {
    var raw := f.Octets();
    NativeRoundTrip(f, at);
    ParserParity.Parity(raw, at);
    ParserParity.AddressTexts(raw, at);
    FieldsFound(f);
    HexColonIsText(f.srcMac);
    HexColonIsText(f.dstMac);
    if f.segment.TcpSegment? {
      FlagsRoundTrip(f.segment.flags, f.segment.ecn);
    }
  }

  // ----------------------------------------------------------------------- IPv6 frames

  /** An Ethernet frame with an IPv6 packet; the traffic class, the flow label and the hop limit are not looked at. */
  datatype Ipv6Frame = Ipv6Frame(
    dstMac: seq<Byte>, srcMac: seq<Byte>, traffic: nat, rest: seq<Byte>, declared: nat, hops: Byte, src: seq<Byte>,
    dst: seq<Byte>, segment: Segment, payload: seq<Byte>)
  {
    predicate Fits() {
      && |dstMac| == 6 && |srcMac| == 6 && traffic < 16 && |rest| == 3 && declared < 0x1_0000 && |src| == 16
      && |dst| == 16 && segment.Fits() && |segment.Header()| <= declared
    }

    /** Section 3 of RFC 8200 behind an Ethernet header. */
    function Head(): (h: seq<Byte>)
      requires Fits()
      ensures |h| == 54
    {
      dstMac + srcMac + [0x86, 0xDD, 96 + traffic] + rest
      + [declared / 256, declared % 256, segment.Protocol(), hops] + src + dst
    }

    function Octets(): seq<Byte>
      requires Fits()
    {
      Head() + segment.Header() + payload
    }

    /** The declared length counts, as far as the capture holds it. */
    function PayloadLength(): int
      requires Fits()
    {
      Min(declared - |segment.Header()|, |payload|)
    }
  }

  lemma Fields6Found(f: Ipv6Frame)
    requires f.Fits()
    ensures
      var raw := f.Octets();
      && |raw| >= 54 && Holds(raw, 0, f.dstMac) && Holds(raw, 6, f.srcMac) && raw[12] == 0x86 && raw[13] == 0xDD
      && raw[14] == 96 + f.traffic && raw[18] == f.declared / 256 && raw[19] == f.declared % 256
      && raw[20] == f.segment.Protocol() && Holds(raw, 22, f.src) && Holds(raw, 38, f.dst)
      && Holds(raw, 54, f.segment.Header())
  {
    var raw, head := f.Octets(), f.Head();
    assert raw[..54] == head;
    assert head[0..6] == f.dstMac && head[6..12] == f.srcMac && head[22..38] == f.src && head[38..54] == f.dst;
    assert raw[0..6] == head[0..6] && raw[6..12] == head[6..12] && raw[22..38] == head[22..38]
        && raw[38..54] == head[38..54];
    assert head[12..15] == [0x86, 0xDD, 96 + f.traffic];
    assert head[18..22] == [f.declared / 256, f.declared % 256, f.segment.Protocol(), f.hops];
  }

  /** The same for IPv6, whose addresses the native record does not keep. */
  lemma Native6RoundTrip(f: Ipv6Frame, tsUs: int)
    requires f.Fits()
    ensures
      var l4 := f.segment.Read();
      N.Parse(f.Octets(), tsUs) ==
        Ok(N.Packet(tsUs, Number(f.srcMac), Number(f.dstMac), false, 0, 0, l4.proto, l4.sport, l4.dport, l4.tcpFlags,
                    40 + f.declared, f.PayloadLength(), None))
  {
    var raw := f.Octets();
    Fields6Found(f);
    assert Be16(raw, 12) == 0x86DD && Be16(raw, 18) == f.declared && raw[14] / 16 == 6;
    SegmentReads(raw, 54, f.segment, Min(f.declared, |raw| - 54));
    FoldIsNumber(raw, 0, f.dstMac);
    FoldIsNumber(raw, 6, f.srcMac);
  }

  lemma Python6RoundTrip(f: Ipv6Frame, at: int)
    requires f.Fits()
    ensures
      var l4 := f.segment.Read();
      P.ParsePacket(f.Octets(), at) ==
        Ok(P.PacketMetadata(at, P.IPv6, f.src, f.dst, l4.proto, l4.sport, l4.dport, PythonFlags(f.segment),
                            40 + f.declared, f.PayloadLength(), ColonHex(f.srcMac), ColonHex(f.dstMac)))
  {
    var raw := f.Octets();
    Native6RoundTrip(f, at);
    ParserParity.Parity(raw, at);
    ParserParity.AddressTexts(raw, at);
    Fields6Found(f);
    HexColonIsText(f.srcMac);
    HexColonIsText(f.dstMac);
    if f.segment.TcpSegment? {
      FlagsRoundTrip(f.segment.flags, f.segment.ecn);
    }
  }

  /** And whatever IPv6 frame it accepts was laid out so. */
  lemma Accepted6WasLaidOut(raw: seq<Byte>, tsUs: int) returns (f: Ipv6Frame)
    requires N.Parse(raw, tsUs).Ok? && !N.Parse(raw, tsUs).value.ipv4
    ensures f.Fits() && f.Octets() == raw
  {
    var declared := Length6(raw, tsUs);
    var s := SegmentAt(raw, 54, raw[20], Min(declared, |raw| - 54));
    var end := 54 + |s.Header()|;
    f := Ipv6Frame(raw[..6], raw[6..12], raw[14] % 16, raw[15..18], declared, raw[21], raw[22..38], raw[38..54], s,
                   raw[end..]);
    Head6Of(raw, f);
    Cut(raw, 54, end, end, end);
  }

  lemma Length6(raw: seq<Byte>, tsUs: int) returns (declared: nat)
    requires N.Parse(raw, tsUs).Ok? && !N.Parse(raw, tsUs).value.ipv4
    ensures |raw| >= 54 && raw[12] == 0x86 && raw[13] == 0xDD && raw[14] / 16 == 6
    ensures declared == raw[18] as int * 256 + raw[19]
    ensures N.ParseL4(raw, 54, raw[20], Min(declared, |raw| - 54)).Ok?
  {
    assert Be16(raw, 12) == 0x86DD && N.Parse(raw, tsUs) == N.ParseIpv6(raw, 14, tsUs);
    declared := Be16(raw, 18);
  }

  lemma Head6Of(raw: seq<Byte>, f: Ipv6Frame)
    requires |raw| >= 54 && f.Fits() && raw[12] == 0x86 && raw[13] == 0xDD && raw[14] == 96 + f.traffic
    requires raw[18] as int * 256 + raw[19] == f.declared && raw[20] == f.segment.Protocol() && raw[21] == f.hops
    requires raw[..6] == f.dstMac && raw[6..12] == f.srcMac && raw[15..18] == f.rest && raw[22..38] == f.src
    requires raw[38..54] == f.dst
    ensures raw[..54] == f.Head()
  {
    assert raw[12..15] == [0x86, 0xDD, 96 + f.traffic];
    assert raw[18..22] == [f.declared / 256, f.declared % 256, f.segment.Protocol(), f.hops];
    assert raw[..54] == raw[..6] + raw[6..12] + raw[12..15] + raw[15..18] + raw[18..22] + raw[22..38] + raw[38..54];
  }

  /** A frame of another protocol is told from a broken one by its type field alone. */
  lemma UnsupportedExactly(raw: seq<Byte>, tsUs: int)
    ensures N.Parse(raw, tsUs) == Err(Unsupported)
            <==> |raw| >= 14 && !(raw[12] == 8 && raw[13] == 0) && !(raw[12] == 0x86 && raw[13] == 0xDD)
  {
  }

  /** A frame is accepted exactly when it was laid out in one of the two ways. */
  lemma AcceptedExactly(raw: seq<Byte>, tsUs: int)
    ensures N.Parse(raw, tsUs).Ok?
            <==> (exists f: Ipv4Frame :: f.Fits() && f.Octets() == raw)
                 || (exists f: Ipv6Frame :: f.Fits() && f.Octets() == raw)
  {
    if N.Parse(raw, tsUs).Ok? {
      if N.Parse(raw, tsUs).value.ipv4 {
        var f := AcceptedWasLaidOut(raw, tsUs);
      } else {
        var f := Accepted6WasLaidOut(raw, tsUs);
      }
    }
    forall f: Ipv4Frame | f.Fits() && f.Octets() == raw ensures N.Parse(raw, tsUs).Ok? {
      NativeRoundTrip(f, tsUs);
    }
    forall f: Ipv6Frame | f.Fits() && f.Octets() == raw ensures N.Parse(raw, tsUs).Ok? {
      Native6RoundTrip(f, tsUs);
    }
  }
}
