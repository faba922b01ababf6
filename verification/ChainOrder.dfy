/** The order of the rate rules: no rule sees a frame before those that stand above it. */
module ChainOrder {
  import opened NftNames
  import opened M = MeterSim
  import opened MeterTrace
  import opened MeterVerdicts
  import PortalLaw

  /** Where a rule stands: the gate, the raw chain, then input or forward. */
  function Rank(rule: RateRule): nat {
    match rule
    case Metered(Dhcp) => 0
    case Metered(Unbound) => 1
    case Backstopped(BkUnbound) => 2
    case Metered(SynPps) => 3
    case Metered(IcmpPps) => 4
    case Metered(UdpLocalPps) => 5
    case Metered(LocalPps) => 6
    case Backstopped(BkSyn) => 7
    case Backstopped(BkIcmp) => 8
    case Backstopped(BkUdp) => 9
    case Metered(DnsQps) => 10
    case Metered(ClosedPort) => 11
    case Metered(Newconn) => 10
    case Metered(NewconnDst) => 11
    case Metered(UdpFwd) => 12
    case Backstopped(BkNewconn) => 13
  }

  /** The lines of a chain stand in the order of their rules. */
  ghost predicate Ranked(chain: seq<Line>) {
    forall i, j :: 0 <= i < j < |chain| ==> Rank(chain[i].check) <= Rank(chain[j].check)
  }

  /** Every rule of the chain that matches is asked: always if the chain was passed, else up to the asked `b`. */
  lemma {:induction false} ChainInOrder(
    spec: Spec, s: Sim, chain: seq<Line>, f: Ipv4, at: real, a: RateRule, b: RateRule)
    requires Present(spec, a) && Present(spec, b) && Ranked(chain) && Asks(chain, a) && Rank(a) < Rank(b)
    requires RunChain(spec, s, chain, f, at).1 || ChainLog(spec, s, chain, f, at, b) != []
    ensures ChainLog(spec, s, chain, f, at, a) != []
    decreases |chain|
  {
    AsksLater(chain, a);
    var rest := chain[1..];
    assert forall i :: 0 <= i < |rest| ==> rest[i] == chain[i + 1];
    if chain[0].matches {
      var (after, passed) := RunCheck(spec, s, chain[0].check, f, at);
      assert RunChain(spec, s, chain, f, at) == RunMatch(spec, s, chain, f, at);
      assert ChainLog(spec, s, chain, f, at, a) == MatchLog(spec, s, chain, f, at, a);
      assert ChainLog(spec, s, chain, f, at, b) == MatchLog(spec, s, chain, f, at, b);
      if chain[0].check != a {
        NotYet(chain, a, b);
        ChainInOrder(spec, after, rest, f, at, a, b);
      }
    } else {
      ChainInOrder(spec, s, rest, f, at, a, b);
    }
  }

  /** While `a` is still to come, the first line is not `b`. */
  lemma NotYet(chain: seq<Line>, a: RateRule, b: RateRule)
    requires chain != [] && Ranked(chain) && Asks(chain, a) && Rank(a) < Rank(b)
    ensures chain[0].check != b
  {
    var i :| 0 <= i < |chain| && chain[i].matches && chain[i].check == a;
  }

  lemma ChainsRanked(spec: Spec, f: Ipv4, bound: bool, isNew: bool)
    ensures Ranked(FloodChain(spec, f, bound)) && Ranked(InputChain(spec, f, isNew)) && Ranked(ForwardChain(f, isNew))
  {
  }

  lemma UnicastInOrder(spec: Spec, s: Sim, f: Ipv4, at: real, a: RateRule, b: RateRule)
    requires Present(spec, a) && Present(spec, b) && Rank(a) < Rank(b) && !Bypasses(spec, f)
    requires a != Metered(Dhcp) && RawSubject(spec, s.core, f, a)
    requires PrerouteUnicast(spec, s, f, at).1 || UnicastLog(spec, s, f, at, b) != []
    ensures UnicastLog(spec, s, f, at, a) != []
  {
    var bindings := Learn(spec, s.core.bindings, f);
    var learnt, chain := s.(core := s.core.(bindings := bindings)), FloodChain(spec, f, f.src in bindings);
    FloodAsks(spec, s.core, f, a);
    ChainsRanked(spec, f, f.src in bindings, true);
    ChainInOrder(spec, learnt, chain, f, at, a, b);
  }

  lemma GateAsked(spec: Spec, s: Sim, f: Ipv4, at: real)
    requires DhcpRequest(f)
    ensures ChainLog(spec, s, [Line(IsDhcp(f), Metered(Dhcp))], f, at, Metered(Dhcp)) != []
  {
    var gate := [Line(IsDhcp(f), Metered(Dhcp))];
    assert ChainLog(spec, s, gate, f, at, Metered(Dhcp)) == MatchLog(spec, s, gate, f, at, Metered(Dhcp));
  }

  lemma PrerouteInOrder(spec: Spec, s: Sim, f: Ipv4, at: real, a: RateRule, b: RateRule)
    requires Present(spec, a) && Present(spec, b) && Rank(a) < Rank(b) && RawSubject(spec, s.core, f, a)
    requires Preroute(spec, s, f, at).1 || PrerouteLog(spec, s, f, at, b) != []
    ensures PrerouteLog(spec, s, f, at, a) != []
  {
    PrerouteSplits(spec, s, f, at, a);
    RawSplits(spec, s.core, f, a);
    if a == Metered(Dhcp) {
      GateAsked(spec, s, f, at);
    } else {
      PastTheGate(spec, s, f, at, b);
      ChainKeepsCore(spec, s, [Line(IsDhcp(f), Metered(Dhcp))], f, at);
      UnicastInOrder(spec, RunChain(spec, s, [Line(IsDhcp(f), Metered(Dhcp))], f, at).0, f, at, a, b);
    }
  }

  /** A frame that reaches a rule behind the gate, or gets through, has passed the gate. */
  lemma PastTheGate(spec: Spec, s: Sim, f: Ipv4, at: real, b: RateRule)
    requires Present(spec, b) && b != Metered(Dhcp) && !Bypasses(spec, f)
    requires Preroute(spec, s, f, at).1 || PrerouteLog(spec, s, f, at, b) != []
    ensures
      var (gated, passed) := RunChain(spec, s, [Line(IsDhcp(f), Metered(Dhcp))], f, at);
      passed && (PrerouteUnicast(spec, gated, f, at).1 || UnicastLog(spec, gated, f, at, b) != [])
  {
    PrerouteSplits(spec, s, f, at, b);
    GateAsks(spec, s, f, at, b);
  }

  lemma HookInOrder(spec: Spec, s: Sim, f: Ipv4, at: real, a: RateRule, b: RateRule)
    requires Present(spec, a) && Present(spec, b) && Rank(a) < Rank(b) && HookSubject(spec, s.core.ct, f, at, a)
    requires HookLog(spec, s, f, at, b) != []
    ensures HookLog(spec, s, f, at, a) != []
  {
    var isNew := IsNew(s.core.ct, f, at);
    ChainsRanked(spec, f, true, isNew);
    if Inward(spec, f) {
      InputAsks(spec, s.core.ct, f, at, a);
      ChainInOrder(spec, s, InputChain(spec, f, isNew), f, at, a, b);
    } else {
      ForwardAsks(spec, s.core.ct, f, at, a);
      ChainInOrder(spec, s, ForwardChain(f, isNew), f, at, a, b);
    }
  }

  lemma Ipv4InOrder(spec: Spec, s: Sim, f: Ipv4, at: real, a: RateRule, b: RateRule)
    requires Present(spec, a) && Present(spec, b) && Rank(a) < Rank(b) && Subject(spec, s.core, f, at, a)
    requires Ipv4Log(spec, s, f, at, b) != []
    ensures Ipv4Log(spec, s, f, at, a) != []
  {
    var (raw, routed) := Preroute(spec, s, f, at);
    PortalLaw.PrerouteTables(spec, s, f, at);
    PrerouteAsks(spec, s, f, at, b);
    if RawSubject(spec, s.core, f, a) {
      PrerouteInOrder(spec, s, f, at, a, b);
    } else {
      RawBeforeHook(spec, s.core, f, at, a, b);
      HookInOrder(spec, raw, f, at, a, b);
    }
  }

  /** A rule of the hooks stands below all of the raw chain. */
  lemma RawBeforeHook(spec: Spec, c: Core, f: Ipv4, at: real, a: RateRule, b: RateRule)
    requires HookSubject(spec, c.ct, f, at, a) && Rank(a) < Rank(b)
    ensures !RawSubject(spec, c, f, b)
  {
  }

  /** If a rule is asked about a frame, every rule above it that is for the frame was asked before it. */
  lemma AskedInOrder(spec: Spec, s: Sim, e: Event, a: RateRule, b: RateRule)
    requires Present(spec, a) && Present(spec, b) && Rank(a) < Rank(b) && EventLog(spec, s, e, b) != []
    requires Enters(spec, s, e) ==> Subject(spec, s.core, e.frame.value.ip, e.at, a)
    ensures EventLog(spec, s, e, a) != []
  {
    AskedExactly(spec, s, e, b);
    var f := e.frame.value;
    ReadySubject(spec, s, f, e.at, a);
    var ready := Ready(spec, Tick(s), f, e.at);
    Ipv4InOrder(spec, ready.(core := Enter(ready.core)), f.ip, e.at, a, b);
  }
}
