/** What the simulator's rate rules do to every packet: whom they are put to, what they decide, whom they record. */
module MeterVerdicts {
  import opened Prelude
  import opened NftNames
  import opened MeterSet
  import opened M = MeterSim
  import opened MeterTrace
  import L = MeterLaw
  import PortalLaw

  // ------------------------------------------------------------------- what they decide

  lemma {:induction false} OutcomeAt(limit: Rule, decl: Decl, log: Log, n: nat)
    requires OutcomesOf(limit, decl, log) && n < |log|
    ensures log[n].outcome == LastOutcome(limit, decl, Packets(log)[..n] + [log[n].packet])
  {
    var rest, ps := log[..|log| - 1], Packets(log);
    assert ps[..|log| - 1] == Packets(rest);
    if n < |rest| {
      OutcomeAt(limit, decl, rest, n);
      assert ps[..n] == Packets(rest)[..n];
    } else {
      assert ps[..n] + [log[n].packet] == ps;
    }
  }

  lemma OrderedPrefix(ps: seq<Packet<MeterKey>>, n: nat)
    requires Ordered(ps) && n < |ps|
    ensures Ordered(ps[..n] + [ps[n]])
  {
    var first := ps[..n] + [ps[n]];
    assert forall i :: 0 <= i < |first| ==> first[i] == ps[i];
  }

  /**
   The outcome of every packet put to a rule, in every run in time order, from the packets put to it before: not
   metered exactly when its key has no element left and the set is full of others; else over the limit exactly when
   passing it would exceed the rate over some window of the key's present element.
   */
  lemma SimulatedOutcomes(
    spec: Spec, rule: RateRule, bindings: map<Addr, Mac>, piMac: Option<Mac>, events: seq<Event>, n: nat)
    requires Sole(spec, rule) && InOrder(events) && n < |ReplayLog(spec, Initial(bindings, piMac), events, rule)|
    ensures
      var log := ReplayLog(spec, Initial(bindings, piMac), events, rule);
      var before, decl := Packets(log)[..n], DeclOf(spec, rule);
      var births, p := L.Born(decl, before), log[n].packet;
      && (p.key in births ==> births[p.key] < n)
      && log[n].outcome == L.Verdict(LimitOf(spec, rule), decl, before, births, p)
  {
    var log := ReplayLog(spec, Initial(bindings, piMac), events, rule);
    LogOutcomes(spec, rule, bindings, piMac, events);
    LogInOrder(spec, Initial(bindings, piMac), events, rule);
    OutcomeAt(LimitOf(spec, rule), DeclOf(spec, rule), log, n);
    OrderedPrefix(Packets(log), n);
    L.OutcomeExact(LimitOf(spec, rule), DeclOf(spec, rule), Packets(log)[..n], log[n].packet);
  }

  // ----------------------------------------------------------------- whom they are put to

  /** Some line of the chain matches and puts the packet to the rule. */
  ghost predicate Asks(chain: seq<Line>, rule: RateRule) {
    exists i :: 0 <= i < |chain| && chain[i].matches && chain[i].check == rule
  }

  lemma AsksLater(chain: seq<Line>, rule: RateRule)
    requires chain != []
    ensures Asks(chain, rule) <==> (chain[0].matches && chain[0].check == rule) || Asks(chain[1..], rule)
  {
    if Asks(chain, rule) && !(chain[0].matches && chain[0].check == rule) {
      var i :| 0 <= i < |chain| && chain[i].matches && chain[i].check == rule;
      assert chain[1..][i - 1] == chain[i];
    }
    if Asks(chain[1..], rule) {
      var i :| 0 <= i < |chain[1..]| && chain[1..][i].matches && chain[1..][i].check == rule;
      assert chain[i + 1] == chain[1..][i];
    }
  }

  lemma {:induction false} ChainAsks(spec: Spec, s: Sim, chain: seq<Line>, f: Ipv4, at: real, rule: RateRule)
    requires Present(spec, rule)
    ensures AskedFor(spec, ChainLog(spec, s, chain, f, at, rule), Asks(chain, rule))
    decreases |chain|
  {
    if chain != [] {
      AsksLater(chain, rule);
      if chain[0].matches {
        assert ChainLog(spec, s, chain, f, at, rule) == MatchLog(spec, s, chain, f, at, rule);
        ChainAsks(spec, RunCheck(spec, s, chain[0].check, f, at).0, chain[1..], f, at, rule);
        CheckKeepsCore(spec, s, chain[0].check, f, at);
      } else {
        ChainAsks(spec, s, chain[1..], f, at, rule);
      }
    }
  }

  /** Each rule's verdict is that of the chain it stands in: raw, input for frames to the Pi or to all, or forward. */
  lemma GuardOfChain(spec: Spec, c: Core, f: Ipv4, at: real, code: MeterCode)
    ensures RawSubject(spec, c, f, Metered(code)) ==> GuardOf(spec, Metered(code)) == Raw
    ensures HookSubject(spec, c.ct, f, at, Metered(code)) && Inward(spec, f) ==> GuardOf(spec, Metered(code)) == Input
    ensures HookSubject(spec, c.ct, f, at, Metered(code)) && Outward(spec, f) ==>
      GuardOf(spec, Metered(code)) == Forward
  {
    assert spec.Declared(code);
  }

  /** Asked only if `subject`, and exactly then while no guard enforces. */
  ghost predicate AskedFor(spec: Spec, log: Log, subject: bool) {
    (log != [] ==> subject) && (spec.enforcing == {} && subject ==> log != [])
  }

  predicate ToAll(spec: Spec, a: Addr) { a == 0xFFFF_FFFF || 0xE000_0000 <= a < 0xF000_0000 || a == spec.netLast }

  predicate DhcpRequest(f: Ipv4) { f.proto == 17 && f.sport == Some(68) && f.dport == Some(67) }

  /** An address of the protected network that is not the Pi's and is bound to no other device. */
  predicate Claims(spec: Spec, c: Core, f: Ipv4) {
    spec.netFirst <= f.src <= spec.netLast && f.src != spec.piIp && (f.src in c.bindings ==> c.bindings[f.src] == f.mac)
  }

  /** The frame comes to the flood meters. */
  predicate Direct(spec: Spec, c: Core, f: Ipv4) {
    !(DhcpRequest(f) && f.src == 0) && !ToAll(spec, f.dst) && Claims(spec, c, f)
  }

  /** And, if nothing drops it there, to the hook. */
  predicate Routed(spec: Spec, c: Core, f: Ipv4) {
    (DhcpRequest(f) && f.src == 0) || ToAll(spec, f.dst) || Claims(spec, c, f)
  }

  predicate Inward(spec: Spec, f: Ipv4) { f.dst == spec.piIp || ToAll(spec, f.dst) }

  predicate Outward(spec: Spec, f: Ipv4) {
    && !Inward(spec, f) && !(spec.netFirst <= f.dst <= spec.netLast)
    && !((f.proto == 6 || f.proto == 17) && f.dport.Some? && f.dport.value in spec.dnsBypassPorts)
  }

  /** No binding for the address, and none will be learnt from this frame. */
  predicate Stranger(spec: Spec, c: Core, f: Ipv4) {
    f.src !in c.bindings && (spec.fixedBindings || f.mac / 0x100_0000_0000 % 2 == 1 || f.mac == 0)
  }

  predicate Excepted(f: Ipv4, ports: set<nat>) { f.dport.Some? && f.dport.value in ports }

  /** The rules of the raw chain: for frames that come to it. */
  predicate RawSubject(spec: Spec, c: Core, f: Ipv4, rule: RateRule) {
    match rule
    case Metered(Dhcp) => DhcpRequest(f)
    case Metered(Unbound) => Direct(spec, c, f) && Stranger(spec, c, f)
    case Metered(SynPps) => Direct(spec, c, f) && f.proto == 6 && f.flags == {SYN}
    case Metered(IcmpPps) => Direct(spec, c, f) && f.proto == 1
    case Metered(UdpLocalPps) => Direct(spec, c, f) && f.dst == spec.piIp && f.proto == 17
    case Metered(LocalPps) => Direct(spec, c, f) && f.dst == spec.piIp
    case Backstopped(BkUnbound) => Direct(spec, c, f) && Stranger(spec, c, f)
    case Backstopped(BkSyn) => Direct(spec, c, f) && f.proto == 6 && f.flags == {SYN}
    case Backstopped(BkIcmp) => Direct(spec, c, f) && f.proto == 1
    case Backstopped(BkUdp) => Direct(spec, c, f) && f.dst == spec.piIp && f.proto == 17
    case _ => false
  }

  /** The rules of the input and forward chains: to the Pi or to all, and to the Internet. */
  predicate HookSubject(spec: Spec, ct: Conns, f: Ipv4, at: real, rule: RateRule) {
    match rule
    case Metered(DnsQps) => Inward(spec, f) && f.proto == 17 && f.dport == Some(53)
    case Metered(ClosedPort) =>
      && Inward(spec, f) && IsNew(ct, f, at)
      && ((f.proto == 6 && !Excepted(f, spec.closedTcpExempt)) || (f.proto == 17 && !Excepted(f, spec.closedUdpExempt)))
    case Metered(Newconn) => Outward(spec, f) && IsNew(ct, f, at)
    case Metered(NewconnDst) => Outward(spec, f) && IsNew(ct, f, at)
    case Metered(UdpFwd) => Outward(spec, f) && f.proto == 17
    case Backstopped(BkNewconn) => Outward(spec, f) && IsNew(ct, f, at)
    case _ => false
  }

  /** Which frames each rule is for, from the frame, the bindings and the tracked connections. */
  predicate Subject(spec: Spec, c: Core, f: Ipv4, at: real, rule: RateRule) {
    RawSubject(spec, c, f, rule) || (Routed(spec, c, f) && HookSubject(spec, c.ct, f, at, rule))
  }

  lemma FloodAsks(spec: Spec, c: Core, f: Ipv4, rule: RateRule)
    requires Direct(spec, c, f)
    ensures Asks(FloodChain(spec, f, f.src in Learn(spec, c.bindings, f)), rule)
            <==> rule != Metered(Dhcp) && RawSubject(spec, c, f, rule)
  {
    var chain := FloodChain(spec, f, f.src in Learn(spec, c.bindings, f));
    assert f.src !in Learn(spec, c.bindings, f) <==> Stranger(spec, c, f);
    if rule != Metered(Dhcp) && RawSubject(spec, c, f, rule) {
      var i := match rule
        case Metered(code) =>
          (if code == Unbound then 0 else if code == SynPps then 2 else if code == IcmpPps then 3
           else if code == UdpLocalPps then 4 else 5)
        case Backstopped(name) =>
          if name == BkUnbound then 1 else if name == BkSyn then 6 else if name == BkIcmp then 7 else 8;
      assert chain[i].matches && chain[i].check == rule;
    }
  }

  lemma InputAsks(spec: Spec, ct: Conns, f: Ipv4, at: real, rule: RateRule)
    requires Inward(spec, f)
    ensures Asks(InputChain(spec, f, IsNew(ct, f, at)), rule) <==> HookSubject(spec, ct, f, at, rule)
  {
    var chain := InputChain(spec, f, IsNew(ct, f, at));
    if HookSubject(spec, ct, f, at, rule) {
      var i := if rule == Metered(DnsQps) then 0 else if f.proto == 6 then 1 else 2;
      assert chain[i].matches && chain[i].check == rule;
    }
  }

  lemma ForwardAsks(spec: Spec, ct: Conns, f: Ipv4, at: real, rule: RateRule)
    requires Outward(spec, f)
    ensures Asks(ForwardChain(f, IsNew(ct, f, at)), rule) <==> HookSubject(spec, ct, f, at, rule)
  {
    var chain := ForwardChain(f, IsNew(ct, f, at));
    if HookSubject(spec, ct, f, at, rule) {
      var i := if rule == Metered(Newconn) then 0 else if rule == Metered(NewconnDst) then 1
               else if rule == Metered(UdpFwd) then 2 else 3;
      assert chain[i].matches && chain[i].check == rule;
    }
  }

  lemma UnicastAsks(spec: Spec, s: Sim, f: Ipv4, at: real, rule: RateRule)
    requires Present(spec, rule) && !(DhcpRequest(f) && f.src == 0) && !ToAll(spec, f.dst)
    ensures AskedFor(spec, UnicastLog(spec, s, f, at, rule), rule != Metered(Dhcp) && RawSubject(spec, s.core, f, rule))
    ensures PrerouteUnicast(spec, s, f, at).1 ==> Claims(spec, s.core, f)
    ensures spec.enforcing == {} && Claims(spec, s.core, f) ==> PrerouteUnicast(spec, s, f, at).1
  {
    if Claims(spec, s.core, f) {
      var bindings := Learn(spec, s.core.bindings, f);
      var learnt, chain := s.(core := s.core.(bindings := bindings)), FloodChain(spec, f, f.src in bindings);
      FloodAsks(spec, s.core, f, rule);
      ChainAsks(spec, learnt, chain, f, at, rule);
      ChainKeepsCore(spec, learnt, chain, f, at);
    }
  }

  lemma GateAsks(spec: Spec, s: Sim, f: Ipv4, at: real, rule: RateRule)
    requires Present(spec, rule)
    ensures AskedFor(spec, ChainLog(spec, s, [Line(IsDhcp(f), Metered(Dhcp))], f, at, rule),
                     rule == Metered(Dhcp) && DhcpRequest(f))
  {
    var gate := [Line(IsDhcp(f), Metered(Dhcp))];
    ChainAsks(spec, s, gate, f, at, rule);
    if rule == Metered(Dhcp) && DhcpRequest(f) {
      assert gate[0].matches && gate[0].check == rule;
    }
  }

  /** Past the gate: what is left of the raw chain. */
  ghost predicate Bypasses(spec: Spec, f: Ipv4) { (DhcpRequest(f) && f.src == 0) || ToAll(spec, f.dst) }

  lemma PrerouteSplits(spec: Spec, s: Sim, f: Ipv4, at: real, rule: RateRule)
    ensures
      var gate := [Line(IsDhcp(f), Metered(Dhcp))];
      var asked, gated := ChainLog(spec, s, gate, f, at, rule), RunChain(spec, s, gate, f, at);
      && PrerouteLog(spec, s, f, at, rule)
         == asked + (if gated.1 && !Bypasses(spec, f) then UnicastLog(spec, gated.0, f, at, rule) else [])
      && (Preroute(spec, s, f, at).1 <==>
            gated.1 && (Bypasses(spec, f) || PrerouteUnicast(spec, gated.0, f, at).1))
  {
  }

  lemma AskedEither(spec: Spec, a: Log, b: Log, x: bool, y: bool)
    requires AskedFor(spec, a, x) && AskedFor(spec, b, y)
    ensures AskedFor(spec, a + b, x || y)
  {
  }

  /** Only the gate's rule is for frames that bypass the rest. */
  lemma RawSplits(spec: Spec, c: Core, f: Ipv4, rule: RateRule)
    ensures rule == Metered(Dhcp) ==> (RawSubject(spec, c, f, rule) <==> DhcpRequest(f))
    ensures rule != Metered(Dhcp) && Bypasses(spec, f) ==> !RawSubject(spec, c, f, rule)
  {
  }

  lemma PrerouteAsks(spec: Spec, s: Sim, f: Ipv4, at: real, rule: RateRule)
    requires Present(spec, rule)
    ensures AskedFor(spec, PrerouteLog(spec, s, f, at, rule), RawSubject(spec, s.core, f, rule))
  {
    var gate := [Line(IsDhcp(f), Metered(Dhcp))];
    var asked, gated := ChainLog(spec, s, gate, f, at, rule), RunChain(spec, s, gate, f, at);
    GateAsks(spec, s, f, at, rule);
    ChainKeepsCore(spec, s, gate, f, at);
    PrerouteSplits(spec, s, f, at, rule);
    RawSplits(spec, s.core, f, rule);
    var more := if gated.1 && !Bypasses(spec, f) then UnicastLog(spec, gated.0, f, at, rule) else [];
    var flood := rule != Metered(Dhcp) && RawSubject(spec, s.core, f, rule);
    if !Bypasses(spec, f) {
      UnicastAsks(spec, gated.0, f, at, rule);
    }
    assert AskedFor(spec, more, flood);
    AskedEither(spec, asked, more, rule == Metered(Dhcp) && DhcpRequest(f), flood);
  }

  /** What gets through the raw chain. */
  lemma PrerouteRoutes(spec: Spec, s: Sim, f: Ipv4, at: real, rule: RateRule)
    requires Present(spec, rule)
    ensures Preroute(spec, s, f, at).1 ==> Routed(spec, s.core, f)
    ensures spec.enforcing == {} && Routed(spec, s.core, f) ==> Preroute(spec, s, f, at).1
  {
    var gate := [Line(IsDhcp(f), Metered(Dhcp))];
    ChainKeepsCore(spec, s, gate, f, at);
    PrerouteSplits(spec, s, f, at, rule);
    if !Bypasses(spec, f) {
      UnicastAsks(spec, RunChain(spec, s, gate, f, at).0, f, at, rule);
    }
  }

  lemma HookAsks(spec: Spec, s: Sim, f: Ipv4, at: real, rule: RateRule)
    requires Present(spec, rule)
    ensures AskedFor(spec, HookLog(spec, s, f, at, rule), HookSubject(spec, s.core.ct, f, at, rule))
  {
    var isNew := IsNew(s.core.ct, f, at);
    if Inward(spec, f) {
      InputAsks(spec, s.core.ct, f, at, rule);
      ChainAsks(spec, s, InputChain(spec, f, isNew), f, at, rule);
    } else if Outward(spec, f) {
      ForwardAsks(spec, s.core.ct, f, at, rule);
      ChainAsks(spec, s, ForwardChain(f, isNew), f, at, rule);
    }
  }

  lemma Ipv4Asks(spec: Spec, s: Sim, f: Ipv4, at: real, rule: RateRule)
    requires Present(spec, rule)
    ensures AskedFor(spec, Ipv4Log(spec, s, f, at, rule), !f.fragment && Subject(spec, s.core, f, at, rule))
  {
    if !f.fragment {
      PrerouteAsks(spec, s, f, at, rule);
      PrerouteRoutes(spec, s, f, at, rule);
      PortalLaw.PrerouteTables(spec, s, f, at);
      HookAsks(spec, Preroute(spec, s, f, at).0, f, at, rule);
    }
  }

  /** A frame is new whether or not a sweep has taken its stale entry away. */
  lemma NewWhenSwept(c: Core, f: Ipv4, at: real)
    ensures IsNew(SweepConns(c, at).ct, f, at) == IsNew(c.ct, f, at)
  {
  }

  lemma SubjectFromCore(spec: Spec, c: Core, d: Core, f: Ipv4, at: real, rule: RateRule)
    requires c.bindings == d.bindings && IsNew(c.ct, f, at) == IsNew(d.ct, f, at)
    ensures Subject(spec, c, f, at, rule) == Subject(spec, d, f, at, rule)
  {
  }

  lemma ReadySubject(spec: Spec, s: Sim, f: Frame, at: real, rule: RateRule)
    requires f.FrameIpv4?
    ensures
      var ready := Ready(spec, Tick(s), f, at);
      && ready.core.piMac == LearnPi(spec, s.core, f).piMac
      && Subject(spec, Enter(ready.core), f.ip, at, rule) == Subject(spec, s.core, f.ip, at, rule)
  {
    var ready := Ready(spec, Tick(s), f, at);
    NewWhenSwept(s.core, f.ip, at);
    assert ready.core.ct == SweepConns(s.core, at).ct && ready.core.bindings == s.core.bindings;
    SubjectFromCore(spec, Enter(ready.core), s.core, f.ip, at, rule);
  }

  /** The IPv4 frame of an event that enters through the guarded interface. */
  ghost predicate Enters(spec: Spec, s: Sim, e: Event) {
    && e.Arrival? && e.frame.Some? && e.frame.value.FrameIpv4? && !e.frame.value.ip.fragment
    && Ingress(spec, LearnPi(spec, s.core, e.frame.value).piMac, e.frame.value)
  }

  /**
   A rule is asked about a frame only if it is for that frame, by the frame's own fields, the bindings and the tracked
   connections before it; and exactly then while no guard enforces, so that no other rule drops it first.
   */
  lemma AskedExactly(spec: Spec, s: Sim, e: Event, rule: RateRule)
    requires Present(spec, rule)
    ensures AskedFor(spec, EventLog(spec, s, e, rule),
                     Enters(spec, s, e) && Subject(spec, s.core, e.frame.value.ip, e.at, rule))
  {
    if e.Arrival? && e.frame.Some? && e.frame.value.FrameIpv4? {
      var f := e.frame.value.ip;
      var ready := Ready(spec, Tick(s), e.frame.value, e.at);
      var entered := ready.(core := Enter(ready.core));
      ReadySubject(spec, s, e.frame.value, e.at, rule);
      Ipv4Asks(spec, entered, f, e.at, rule);
    }
  }
}
