/** Which frames the simulator lets in, drops for good and counts, from the frames themselves. */
module StaticLaw {
  import opened Prelude
  import opened NftNames
  import opened Tallies
  import opened M = MeterSim
  import opened MeterVerdicts
  import opened ConntrackLaw

  // ------------------------------------------------------------------- what gets through

  lemma HookAccepts(spec: Spec, s: Sim, f: Ipv4, at: real)
    ensures Hook(spec, s, f, at).1 ==> Inward(spec, f) || Outward(spec, f)
    ensures spec.enforcing == {} && (Inward(spec, f) || Outward(spec, f)) ==> Hook(spec, s, f, at).1
  {
    var isNew := IsNew(s.core.ct, f, at);
    if Inward(spec, f) {
      if spec.enforcing == {} {
        InputAccepts(spec, s, f, isNew, at);
      }
    } else if Outward(spec, f) {
      ChainKeepsCore(spec, s, ForwardChain(f, isNew), f, at);
    }
  }

  lemma InputAccepts(spec: Spec, s: Sim, f: Ipv4, isNew: bool, at: real)
    requires spec.enforcing == {}
    ensures HookInput(spec, s, f, isNew, at).1
  {
    var chain := InputChain(spec, f, isNew);
    ChainKeepsCore(spec, s, chain, f, at);
    PortalObserves(spec, RunChain(spec, s, chain, f, at).0, f, at);
  }

  /** An entering frame is let through only if it is whole, its source is plausible and it may go where it goes. */
  lemma AcceptsOnly(spec: Spec, s: Sim, f: Ipv4, at: real)
    ensures Accepts(spec, s, f, at) ==>
      !f.fragment && Routed(spec, s.core, f) && (Inward(spec, f) || Outward(spec, f))
    ensures spec.enforcing == {} && !f.fragment && Routed(spec, s.core, f) && (Inward(spec, f) || Outward(spec, f)) ==>
      Accepts(spec, s, f, at)
  {
    if !f.fragment {
      PrerouteRoutes(spec, s, f, at, Metered(SynPps));
      HookAccepts(spec, Preroute(spec, s, f, at).0, f, at);
    }
  }

  // --------------------------------------------------------------------- what is dropped

  /** The frame comes from a device, not from the Pi. */
  predicate FromDevice(spec: Spec, pi: Option<Mac>, f: Frame) {
    match pi
    case Some(mac) => (if f.FrameIpv4? then f.ip.mac else f.mac) != mac
    case None =>
      match f
      case FrameIpv4(ip) => ip.src != spec.piIp && (spec.netFirst <= ip.src <= spec.netLast || ip.src == 0)
      case FrameIpv6(_) => true
      case FrameArp(_, sender, _) => sender != spec.piIp
      case FrameOther(_) => false
  }

  /** To the Internet, on a port that must not be used there. */
  predicate Bypassing(spec: Spec, f: Ipv4) {
    !Inward(spec, f) && !Outward(spec, f) && !(spec.netFirst <= f.dst <= spec.netLast)
  }

  /** Why a frame of a device is dropped whatever its rate. */
  function Reason(spec: Spec, c: Core, f: Frame): Option<Static> {
    match f
    case FrameIpv6(_) => Some(CIpv6)
    case FrameArp(_, sender, senderMac) =>
      if sender == spec.piIp || (sender in c.bindings && c.bindings[sender] != senderMac) then Some(CArpSpoof) else None
    case FrameOther(_) => None
    case FrameIpv4(ip) =>
      if ip.fragment then Some(CFrag)
      else if !Routed(spec, c, ip) then
        Some(if spec.netFirst <= ip.src <= spec.netLast && ip.src != spec.piIp then CSpoof else CBogon)
      else if Bypassing(spec, ip) then Some(CDnsBypass)
      else None
  }

  /** The Pi's address, learnt from its first frame. */
  function PiOf(spec: Spec, pi: Option<Mac>, f: Frame): Option<Mac> {
    if pi.None? && f.FrameIpv4? && f.ip.src == spec.piIp then Some(f.ip.mac) else pi
  }

  ghost function DropOf(spec: Spec, c: Core, f: Option<Frame>): Option<(Mac, Static)> {
    if f.None? || !FromDevice(spec, PiOf(spec, c.piMac, f.value), f.value) then None
    else
      match Reason(spec, c, f.value)
      case None => None
      case Some(kind) => Some((f.value.SrcMac(), kind))
  }

  /** One frame's effect on the drop counters. */
  ghost predicate DropsBy(c: Core, d: Core, drop: Option<(Mac, Static)>) {
    && (forall k :: Count(d.staticDrops, k)
                    == Count(c.staticDrops, k) + if drop.Some? && drop.value.1 == k then 1 else 0)
    && (forall m: Mac, k: Static ::
          Count(d.dropsByMac, (m, k)) == Count(c.dropsByMac, (m, k)) + if drop == Some((m, k)) then 1 else 0)
  }

  lemma DropCounts(c: Core, kind: Static, mac: Mac)
    ensures DropsBy(c, Drop(c, kind, mac), Some((mac, kind)))
  {
    forall k ensures Count(Bump(c.staticDrops, kind), k) == Count(c.staticDrops, k) + if kind == k then 1 else 0 {
      BumpCounts(c.staticDrops, kind, k);
    }
    forall m: Mac, k ensures Count(Bump(c.dropsByMac, (mac, kind)), (m, k))
                          == Count(c.dropsByMac, (m, k)) + if (mac, kind) == (m, k) then 1 else 0 {
      BumpCounts(c.dropsByMac, (mac, kind), (m, k));
    }
  }

  ghost predicate SameDrops(c: Core, d: Core) { c.staticDrops == d.staticDrops && c.dropsByMac == d.dropsByMac }

  ghost function Tag(mac: Mac, reason: Option<Static>): Option<(Mac, Static)> {
    if reason.None? then None else Some((mac, reason.value))
  }

  /** The counters before and after are all that matters. */
  lemma DropsThrough(c: Core, b: Core, d: Core, e: Core, drop: Option<(Mac, Static)>)
    requires SameDrops(c, b) && DropsBy(b, d, drop) && SameDrops(d, e)
    ensures DropsBy(c, e, drop)
  {
  }

  lemma NoDrops(c: Core, d: Core)
    requires SameDrops(c, d)
    ensures DropsBy(c, d, None)
  {
  }

  lemma PrerouteDrops(spec: Spec, c: Core, f: Ipv4)
    requires !f.fragment
    ensures
      var (d, routed) := PlainPreroute(spec, c, f);
      && (routed <==> Routed(spec, c, f))
      && DropsBy(c, d, if routed then None else Tag(f.mac, Reason(spec, c, FrameIpv4(f))))
  {
    var learnt := c.(bindings := Learn(spec, c.bindings, f));
    var (d, routed) := PlainPreroute(spec, c, f);
    if routed {
      NoDrops(c, d);
    } else if spec.netFirst <= f.src <= spec.netLast && f.src != spec.piIp {
      DropCounts(learnt, CSpoof, f.mac);
      DropsThrough(c, learnt, d, d, Some((f.mac, CSpoof)));
    } else {
      DropCounts(c, CBogon, f.mac);
    }
  }

  lemma HookDrops(spec: Spec, c: Core, f: Ipv4, at: real)
    ensures
      var (d, accepted) := PlainHook(spec, c, f, at);
      DropsBy(c, d, Tag(f.mac, if Bypassing(spec, f) then Some(CDnsBypass) else None))
  {
    if Bypassing(spec, f) {
      DropCounts(c, CDnsBypass, f.mac);
    } else {
      NoDrops(c, PlainHook(spec, c, f, at).0);
    }
  }

  lemma Ipv4Drops(spec: Spec, c: Core, f: Ipv4, at: real)
    ensures DropsBy(c, PlainIpv4(spec, c, f, at), Tag(f.mac, Reason(spec, c, FrameIpv4(f))))
  {
    if f.fragment {
      DropCounts(c, CFrag, f.mac);
    } else {
      var (raw, routed) := PlainPreroute(spec, c, f);
      PrerouteDrops(spec, c, f);
      if routed {
        var hooked := PlainHook(spec, raw, f, at).0;
        HookDrops(spec, raw, f, at);
        assert SameDrops(hooked, Conntrack(hooked, f, at)) && SameDrops(c, raw);
        DropsThrough(c, raw, hooked, PlainIpv4(spec, c, f, at), Tag(f.mac, Reason(spec, c, FrameIpv4(f))));
      }
    }
  }

  lemma IngressDrops(spec: Spec, c: Core, f: Frame, at: real)
    ensures DropsBy(c, PlainIngress(spec, c, f, at), Tag(f.SrcMac(), Reason(spec, c, f)))
  {
    match f {
      case FrameIpv4(ip) => Ipv4Drops(spec, c, ip, at);
      case FrameIpv6(mac) => DropCounts(c, CIpv6, mac);
      case FrameArp(mac, _, _) => DropCounts(c, CArpSpoof, mac);
      case FrameOther(_) => NoDrops(c, c);
    }
  }

  /** Before a frame is judged: the sweep, and the Pi's address. */
  lemma ReadyCore(spec: Spec, c: Core, f: Frame, at: real)
    ensures
      var ready := LearnPi(spec, SweepConns(Counted(c), at), f);
      && ready.piMac == PiOf(spec, c.piMac, f) && SameDrops(c, ready) && ready.bindings == c.bindings
      && ready.frames == c.frames + 1 && ready.ingress == c.ingress
  {
  }

  ghost predicate SameCounters(c: Core, d: Core) {
    d.frames == c.frames && d.ingress == c.ingress && d.piMac == c.piMac
  }

  lemma ConntrackCounters(c: Core, f: Ipv4, at: real)
    ensures SameCounters(c, Conntrack(c, f, at))
  {
  }

  lemma PrerouteCounters(spec: Spec, c: Core, f: Ipv4)
    ensures SameCounters(c, PlainPreroute(spec, c, f).0)
  {
  }

  lemma HookCounters(spec: Spec, c: Core, f: Ipv4, at: real)
    ensures SameCounters(c, PlainHook(spec, c, f, at).0)
  {
  }

  lemma CountersKept(spec: Spec, c: Core, f: Frame, at: real)
    ensures SameCounters(c, PlainIngress(spec, c, f, at))
  {
    if f.FrameIpv4? && !f.ip.fragment {
      var raw := PlainPreroute(spec, c, f.ip).0;
      PrerouteCounters(spec, c, f.ip);
      HookCounters(spec, raw, f.ip, at);
      ConntrackCounters(PlainHook(spec, raw, f.ip, at).0, f.ip, at);
    }
  }

  lemma ReasonFromBindings(spec: Spec, c: Core, d: Core, f: Frame)
    requires c.bindings == d.bindings
    ensures Reason(spec, c, f) == Reason(spec, d, f)
  {
  }

  lemma FrameDrops(spec: Spec, c: Core, ready: Core, f: Frame, at: real)
    requires SameDrops(c, ready) && ready.bindings == c.bindings
    ensures
      var d, device := PlainReady(spec, ready, f, at), FromDevice(spec, ready.piMac, f);
      && DropsBy(c, d, if device then Tag(f.SrcMac(), Reason(spec, c, f)) else None)
      && d.frames == ready.frames && d.ingress == ready.ingress + (if device then 1 else 0) && d.piMac == ready.piMac
  {
    var d := PlainReady(spec, ready, f, at);
    if FromDevice(spec, ready.piMac, f) {
      IngressDrops(spec, Enter(ready), f, at);
      CountersKept(spec, Enter(ready), f, at);
      ReasonFromBindings(spec, Enter(ready), c, f);
      DropsThrough(c, Enter(ready), d, d, Tag(f.SrcMac(), Reason(spec, c, f)));
    } else {
      NoDrops(c, d);
    }
  }

  ghost predicate IsIngress(spec: Spec, c: Core, f: Option<Frame>) {
    f.Some? && FromDevice(spec, PiOf(spec, c.piMac, f.value), f.value)
  }

  /** While every guard observes, each frame adds one to the counter of its reason and device, and to no other. */
  lemma StaticDropsExact(spec: Spec, s: Sim, e: Event)
    requires spec.enforcing == {} && e.Arrival?
    ensures
      var c, d := s.core, Step(spec, s, e).core;
      && DropsBy(c, d, DropOf(spec, c, e.frame)) && d.frames == c.frames + 1
      && d.ingress == c.ingress + (if IsIngress(spec, c, e.frame) then 1 else 0)
      && (e.frame.Some? ==> d.piMac == PiOf(spec, c.piMac, e.frame.value))
  {
    FeedObserves(spec, s, e.frame, e.at);
    if e.frame.Some? {
      ReadyCore(spec, s.core, e.frame.value, e.at);
      FrameDrops(spec, s.core, LearnPi(spec, SweepConns(Counted(s.core), e.at), e.frame.value), e.frame.value, e.at);
    } else {
      NoDrops(s.core, Counted(s.core));
    }
  }
}
