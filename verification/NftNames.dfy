/** The names the firewall template, the simulator and the poller share: guards, offender codes, devices. */
module NftNames {
  import opened Prelude

  type Mac = m: nat | m < 0x1_0000_0000_0000

  datatype Guard = Raw | Input | Forward

  datatype Code =
    SynPps | UdpLocalPps | IcmpPps | LocalPps | ClosedPort | Newconn | NewconnDst | UdpFwd | Unbound | DnsQps | Dhcp
    | PortalConcurrency

  /** The codes that have a meter; the portal rule counts connections instead. */
  type MeterCode = c: Code | c != PortalConcurrency witness SynPps

  function OffenderGuard(code: Code): Guard {
    match code
    case SynPps | UdpLocalPps | IcmpPps | LocalPps | Unbound | Dhcp => Raw
    case ClosedPort | DnsQps | PortalConcurrency => Input
    case Newconn | NewconnDst | UdpFwd => Forward
  }

  predicate IsUnicast(mac: Mac) { mac / 0x100_0000_0000 % 2 == 0 && mac != 0 }

  /** A code number as the template writes it. */
  function CodeOf(raw: int): Option<Code> {
    match raw
    case 1 => Some(SynPps)
    case 2 => Some(UdpLocalPps)
    case 3 => Some(IcmpPps)
    case 4 => Some(LocalPps)
    case 5 => Some(ClosedPort)
    case 6 => Some(Newconn)
    case 7 => Some(NewconnDst)
    case 8 => Some(UdpFwd)
    case 10 => Some(Unbound)
    case 53 => Some(DnsQps)
    case 67 => Some(Dhcp)
    case 8080 => Some(PortalConcurrency)
    case _ => None
  }

  /** The number each code is written as. */
  function NumberOf(code: Code): nat {
    match code
    case SynPps => 1
    case UdpLocalPps => 2
    case IcmpPps => 3
    case LocalPps => 4
    case ClosedPort => 5
    case Newconn => 6
    case NewconnDst => 7
    case UdpFwd => 8
    case Unbound => 10
    case DnsQps => 53
    case Dhcp => 67
    case PortalConcurrency => 8080
  }

  /** Every code is read back from its number, and nothing else is read as a code. */
  lemma CodeRoundTrip(raw: int, code: Code)
    ensures CodeOf(raw) == Some(code) <==> raw == NumberOf(code)
  {
  }
}
