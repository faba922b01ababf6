/** Counters kept in a dictionary: `d[k] = d.get(k, 0) + 1`, and sums over it. */
module Tallies {
  /** Insertion order, as a Python dictionary iterates. */
  type Tally<K> = seq<(K, nat)>

  function Count<K(==)>(d: Tally<K>, key: K): nat {
    if d == [] then 0 else if d[0].0 == key then d[0].1 else Count(d[1..], key)
  }

  function Bump<K(==)>(d: Tally<K>, key: K): Tally<K> {
    if d == [] then [(key, 1)]
    else if d[0].0 == key then [(key, d[0].1 + 1)] + d[1..]
    else [d[0]] + Bump(d[1..], key)
  }

  /** The sum of the counts of the keys that are `counted`. */
  ghost function Total<K>(d: Tally<K>, counted: K -> bool): nat {
    if d == [] then 0 else (if counted(d[0].0) then d[0].1 else 0) + Total(d[1..], counted)
  }

  lemma {:induction false} BumpCounts<K>(d: Tally<K>, key: K, other: K)
    ensures Count(Bump(d, key), other) == Count(d, other) + if other == key then 1 else 0
  {
    if d != [] && d[0].0 != key {
      BumpCounts(d[1..], key, other);
    }
  }

  lemma {:induction false} BumpTotals<K>(d: Tally<K>, key: K, counted: K -> bool)
    ensures Total(Bump(d, key), counted) == Total(d, counted) + if counted(key) then 1 else 0
  {
    if d != [] {
      if d[0].0 == key {
        assert Bump(d, key)[1..] == d[1..];
      } else {
        assert Bump(d, key)[1..] == Bump(d[1..], key);
        BumpTotals(d[1..], key, counted);
      }
    }
  }
}

/** The kernel-meter simulator as a state machine over frames: guards, meters, offenders, backstops, conntrack. */
module MeterSim {
  import opened Prelude
  import opened NftNames
  import opened TokenBucket
  import opened MeterSet
  import opened Tallies

  type Addr = a: nat | a < 0x1_0000_0000

  datatype Static = CIpv6 | CFrag | CBogon | CSpoof | CArpSpoof | CDnsBypass
  datatype Backstop = BkUnbound | BkSyn | BkIcmp | BkUdp | BkNewconn

  datatype MeterRule = MeterRule(name: string, guard: Guard, perDestination: bool, limit: Rule)
  datatype BackstopRule = BackstopRule(guard: Guard, limit: Rule)

  /** What the rendered template declares, and how this simulator was set up. */
  datatype Setup = Setup(
    meters: map<Code, MeterRule>, portalConcurrency: nat, backstops: map<Backstop, BackstopRule>,
    sets: map<string, Decl>, closedTcpExempt: set<nat>, closedUdpExempt: set<nat>, portalPorts: set<nat>,
    dnsBypassPorts: set<nat>, enforcing: set<Guard>, piIp: Addr, netFirst: Addr, netLast: Addr, fixedBindings: bool)
  {
    /** What a template must satisfy to parse. */
    ghost predicate WellFormed() {
      forall code: MeterCode :: Declared(code)
    }

    predicate Declared(code: MeterCode) {
      code in meters && meters[code].guard == OffenderGuard(code) && meters[code].name in sets
    }

    predicate Protected(a: Addr) { netFirst <= a <= netLast }

    predicate Broadcast(a: Addr) { a == 0xFFFF_FFFF || 0xE000_0000 <= a <= 0xEFFF_FFFF || a == netLast }

    function OffenderSize(): Option<nat> {
      if "offenders" in sets then Some(sets["offenders"].size) else None
    }

    function OffenderTimeout(): real {
      if "offenders" !in sets then 120.0
      else match sets["offenders"].timeout case None => 0.0 case Some(t) => t
    }
  }

  type Spec = s: Setup | s.WellFormed()
    ghost witness
      Setup(map code: Code | code != PortalConcurrency :: MeterRule("meter", OffenderGuard(code), false, Rule(0.0, 0)),
            0, map[],
            map["meter" := Decl(None, 0)], {}, {}, {}, {}, {}, 0, 0, 0, false)

  const ICMP := 1
  const TCP := 6
  const UDP := 17

  datatype TcpFlag = FIN | SYN | RST | ACK

  datatype Ipv4 = Ipv4(
    mac: Mac, src: Addr, dst: Addr, proto: nat, fragment: bool, sport: Option<nat>, dport: Option<nat>,
    flags: set<TcpFlag>)
  {
    predicate Syn() { proto == TCP && flags == {SYN} }

    predicate Closes() { proto == TCP && (FIN in flags || RST in flags) }

    predicate To(port: nat) { dport == Some(port) }

    predicate ToAny(ports: set<nat>) { dport.Some? && dport.value in ports }

    predicate Tracked() { proto == TCP || proto == UDP || proto == ICMP }
  }

  datatype Frame =
    FrameIpv4(ip: Ipv4) | FrameIpv6(mac: Mac) | FrameArp(mac: Mac, sender: Addr, senderMac: Mac) | FrameOther(mac: Mac)
  {
    function SrcMac(): Mac { if FrameIpv4? then ip.mac else mac }
  }

  // ------------------------------------------------------------------ conntrack

  datatype Endpoint = Endpoint(ip: Addr, port: nat)
  datatype CtKey = CtKey(proto: nat, low: Endpoint, high: Endpoint)

  function CtKeyOf(f: Ipv4): CtKey {
    var a := Endpoint(f.src, PortOf(f.sport));
    var b := Endpoint(f.dst, PortOf(f.dport));
    if a.ip < b.ip || (a.ip == b.ip && a.port <= b.port) then CtKey(f.proto, a, b) else CtKey(f.proto, b, a)
  }

  function PortOf(port: Option<nat>): nat { if port.Some? then port.value else 0 }

  datatype Conn = Conn(originIp: Addr, originPort: Option<nat>, replied: bool, last: real, closing: bool)
  {
    function Timeout(proto: nat): real {
      if proto == TCP then (if closing || !replied then 120.0 else 432000.0)
      else if proto == UDP then (if replied then 120.0 else 30.0)
      else 30.0
    }

    predicate Stale(proto: nat, at: real) { last + Timeout(proto) <= at }

    predicate From(f: Ipv4) { originIp == f.src && originPort == f.sport }
  }

  type Conns = map<CtKey, Conn>
  type Portal = map<Mac, set<CtKey>>

  function Without(portal: Portal, keys: set<CtKey>): Portal {
    map m | m in portal :: portal[m] - keys
  }

  function PortalOf(portal: Portal, mac: Mac): set<CtKey> {
    if mac in portal then portal[mac] else {}
  }

  function StaleKeys(ct: Conns, at: real): set<CtKey> {
    set k | k in ct && ct[k].Stale(k.proto, at)
  }

  // ---------------------------------------------------------------------- state

  /** What decides whether a frame is tracked, apart from the meters. */
  datatype Core = Core(
    bindings: map<Addr, Mac>, piMac: Option<Mac>, ct: Conns, portal: Portal, nextSweep: Option<real>,
    staticDrops: Tally<Static>, dropsByMac: Tally<(Mac, Static)>, frames: nat, ingress: nat)

  type MeterKey = (Mac, Option<Addr>)
  type Offender = (Mac, Code)

  datatype Meters = Meters(
    buckets: map<string, Elements<MeterKey>>, backstops: map<Backstop, Bucket>, offenders: map<Offender, real>,
    failopen: Tally<string>, offendersFull: nat)

  datatype Trip = Trip(who: Offender, hits: nat, firstAt: real, lastAt: real)

  datatype Books = Books(
    trips: seq<Trip>, backstopHits: Tally<Backstop>, verdictHits: Tally<Guard>, guardDrops: Tally<Guard>)

  datatype Sim = Sim(core: Core, meters: Meters, books: Books)

  function Initial(bindings: map<Addr, Mac>, piMac: Option<Mac>): Sim {
    Sim(Core(bindings, piMac, map[], map[], None, [], [], 0, 0), Meters(map[], map[], map[], [], 0),
        Books([], [], [], []))
  }

  // --------------------------------------------------------------------- meters

  /** One more hit of `who`, on its trip or a new one. */
  function Strike(trips: seq<Trip>, who: Offender, at: real): seq<Trip> {
    if trips == [] then [Trip(who, 1, at, at)]
    else if trips[0].who == who then [trips[0].(hits := trips[0].hits + 1, lastAt := at)] + trips[1..]
    else [trips[0]] + Strike(trips[1..], who, at)
  }

  /** A guard's verdict chain: counted, and a drop when the guard enforces. */
  function Judge(spec: Spec, b: Books, guard: Guard): (Books, bool) {
    var counted := b.(verdictHits := Bump(b.verdictHits, guard));
    if guard in spec.enforcing then (counted.(guardDrops := Bump(counted.guardDrops, guard)), false)
    else (counted, true)
  }

  function LiveOffenders(offenders: map<Offender, real>, at: real): map<Offender, real> {
    map k | k in offenders && offenders[k] > at :: offenders[k]
  }

  /** The offender set once the packet has made room for `who`. */
  function RoomFor(spec: Spec, offenders: map<Offender, real>, who: Offender, at: real): map<Offender, real> {
    if who !in offenders && spec.OffenderSize().Some? then LiveOffenders(offenders, at) else offenders
  }

  predicate Full(spec: Spec, offenders: map<Offender, real>, who: Offender) {
    who !in offenders && spec.OffenderSize().Some? && |offenders| >= spec.OffenderSize().value
  }

  function TripRule(spec: Spec, s: Sim, code: Code, guard: Guard, mac: Mac, at: real): (Sim, bool) {
    var who := (mac, code);
    var room := RoomFor(spec, s.meters.offenders, who, at);
    if Full(spec, room, who) then
      (s.(meters := s.meters.(offenders := room, offendersFull := s.meters.offendersFull + 1)), true)
    else
      var (books, passed) := Judge(spec, s.books.(trips := Strike(s.books.trips, who, at)), guard);
      (s.(meters := s.meters.(offenders := room[who := at + spec.OffenderTimeout()]), books := books), passed)
  }

  function ElementsOf(buckets: map<string, Elements<MeterKey>>, name: string): Elements<MeterKey> {
    if name in buckets then buckets[name] else map[]
  }

  function MeterCheck(spec: Spec, s: Sim, code: MeterCode, mac: Mac, dst: Addr, at: real): (Sim, bool) {
    assert spec.Declared(code);
    var rule := spec.meters[code];
    var key := (mac, if rule.perDestination then Some(dst) else None);
    Police(spec, s, code, mac, at,
           Meter(ElementsOf(s.meters.buckets, rule.name), rule.limit, spec.sets[rule.name], key, at))
  }

  /** What follows from the state of the rule's set and the outcome for this packet. */
  function Police(
    spec: Spec, s: Sim, code: MeterCode, mac: Mac, at: real, drawn: (Elements<MeterKey>, Outcome)): (Sim, bool) {
    assert spec.Declared(code);
    var rule := spec.meters[code];
    var metered := s.meters.(buckets := s.meters.buckets[rule.name := drawn.0]);
    match drawn.1
    case FailOpen => (s.(meters := metered.(failopen := Bump(metered.failopen, rule.name))), true)
    case Pass => (s.(meters := metered), true)
    case Over => TripRule(spec, s.(meters := metered), code, rule.guard, mac, at)
  }

  function BackstopCheck(spec: Spec, s: Sim, name: Backstop, at: real): (Sim, bool) {
    if name !in spec.backstops then (s, true)
    else
      var rule := spec.backstops[name];
      var bucket := if name in s.meters.backstops then s.meters.backstops[name] else Fresh(rule.limit.burst, at, None);
      var (after, passed) := Take(bucket, rule.limit.rate, rule.limit.burst, at);
      var taken := s.(meters := s.meters.(backstops := s.meters.backstops[name := after]));
      if passed then (taken, true)
      else
        var (books, accepted) := Judge(spec, taken.books.(backstopHits := Bump(taken.books.backstopHits, name)),
                                       rule.guard);
        (taken.(books := books), accepted)
  }

  datatype Check = Metered(code: MeterCode) | Backstopped(name: Backstop)

  function RunCheck(spec: Spec, s: Sim, check: Check, f: Ipv4, at: real): (Sim, bool) {
    match check
    case Metered(code) => MeterCheck(spec, s, code, f.mac, f.dst, at)
    case Backstopped(name) => BackstopCheck(spec, s, name, at)
  }

  /** One rate rule of a chain, and whether the packet matches it. */
  datatype Line = Line(matches: bool, check: Check)

  /** The rules of a chain in order, up to the first that drops the packet. */
  function RunChain(spec: Spec, s: Sim, chain: seq<Line>, f: Ipv4, at: real): (Sim, bool)
    decreases |chain|, 1
  {
    if chain == [] then (s, true)
    else if chain[0].matches then RunMatch(spec, s, chain, f, at)
    else RunChain(spec, s, chain[1..], f, at)
  }

  function RunMatch(spec: Spec, s: Sim, chain: seq<Line>, f: Ipv4, at: real): (Sim, bool)
    requires chain != []
    decreases |chain|, 0
  {
    var (after, passed) := RunCheck(spec, s, chain[0].check, f, at);
    if passed then RunChain(spec, after, chain[1..], f, at) else (after, false)
  }

  // --------------------------------------------------------------------- chains

  function StaticDrop(s: Sim, counter: Static, mac: Mac): Sim {
    s.(core := Drop(s.core, counter, mac))
  }

  function Drop(c: Core, counter: Static, mac: Mac): Core {
    c.(staticDrops := Bump(c.staticDrops, counter), dropsByMac := Bump(c.dropsByMac, (mac, counter)))
  }

  /** The binding of the frame's source, learnt from its first unicast sender unless bindings are fixed. */
  function Learn(spec: Spec, bindings: map<Addr, Mac>, f: Ipv4): map<Addr, Mac> {
    if f.src !in bindings && !spec.fixedBindings && IsUnicast(f.mac) then bindings[f.src := f.mac] else bindings
  }

  function FloodChain(spec: Spec, f: Ipv4, bound: bool): seq<Line> {
    var local := f.dst == spec.piIp;
    [Line(!bound, Metered(Unbound)), Line(!bound, Backstopped(BkUnbound)),
     Line(f.Syn(), Metered(SynPps)), Line(f.proto == ICMP, Metered(IcmpPps)),
     Line(local && f.proto == UDP, Metered(UdpLocalPps)), Line(local, Metered(LocalPps)),
     Line(f.Syn(), Backstopped(BkSyn)), Line(f.proto == ICMP, Backstopped(BkIcmp)),
     Line(local && f.proto == UDP, Backstopped(BkUdp))]
  }

  predicate IsDhcp(f: Ipv4) { f.proto == UDP && f.sport == Some(68) && f.dport == Some(67) }

  /** `prerouting_raw`; false when the packet is dropped. */
  function Preroute(spec: Spec, s: Sim, f: Ipv4, at: real): (Sim, bool)
  {
    var (gated, passed) := RunChain(spec, s, [Line(IsDhcp(f), Metered(Dhcp))], f, at);
    if !passed then (gated, false)
    else if (IsDhcp(f) && f.src == 0) || spec.Broadcast(f.dst) then (gated, true)
    else PrerouteUnicast(spec, gated, f, at)
  }

  function PrerouteUnicast(spec: Spec, s: Sim, f: Ipv4, at: real): (Sim, bool)
  {
    if !spec.Protected(f.src) || f.src == spec.piIp then (StaticDrop(s, CBogon, f.mac), false)
    else
      var bindings := Learn(spec, s.core.bindings, f);
      var learnt := s.(core := s.core.(bindings := bindings));
      if f.src in bindings && bindings[f.src] != f.mac then (StaticDrop(learnt, CSpoof, f.mac), false)
      else RunChain(spec, learnt, FloodChain(spec, f, f.src in bindings), f, at)
  }

  predicate IsNew(ct: Conns, f: Ipv4, at: real) {
    var key := CtKeyOf(f);
    key !in ct || ct[key].Stale(f.proto, at) || (!ct[key].replied && ct[key].From(f))
  }

  function InputChain(spec: Spec, f: Ipv4, isNew: bool): seq<Line> {
    [Line(f.proto == UDP && f.To(53), Metered(DnsQps)),
     Line(isNew && f.proto == TCP && !f.ToAny(spec.closedTcpExempt), Metered(ClosedPort)),
     Line(isNew && f.proto == UDP && !f.ToAny(spec.closedUdpExempt), Metered(ClosedPort))]
  }

  function ForwardChain(f: Ipv4, isNew: bool): seq<Line> {
    [Line(isNew, Metered(Newconn)), Line(isNew, Metered(NewconnDst)), Line(f.proto == UDP, Metered(UdpFwd)),
     Line(isNew, Backstopped(BkNewconn))]
  }

  function SetPortal(s: Sim, mac: Mac, keys: set<CtKey>): Sim {
    s.(core := s.core.(portal := s.core.portal[mac := keys]))
  }

  /** `ct count over N` per device: open connections to the portal ports, this one included. */
  function PortalCheck(spec: Spec, s: Sim, f: Ipv4, at: real): (Sim, bool) {
    var keys := PortalOf(s.core.portal, f.mac) + {CtKeyOf(f)};
    var added := SetPortal(s, f.mac, keys);
    if |keys| <= spec.portalConcurrency then (added, true)
    else
      var (tripped, passed) := TripRule(spec, added, PortalConcurrency, Input, f.mac, at);
      if passed then (tripped, true) else (SetPortal(tripped, f.mac, keys - {CtKeyOf(f)}), false)
  }

  /** `input_guard` for the Pi and broadcast, `forward_guard` for the Internet. */
  function Hook(spec: Spec, s: Sim, f: Ipv4, at: real): (Sim, bool)
  {
    var isNew := IsNew(s.core.ct, f, at);
    if f.dst == spec.piIp || spec.Broadcast(f.dst) then HookInput(spec, s, f, isNew, at)
    else if spec.Protected(f.dst) then (s, false)
    else if (f.proto == TCP || f.proto == UDP) && f.ToAny(spec.dnsBypassPorts)
    then (StaticDrop(s, CDnsBypass, f.mac), false)
    else RunChain(spec, s, ForwardChain(f, isNew), f, at)
  }

  function HookInput(spec: Spec, s: Sim, f: Ipv4, isNew: bool, at: real): (Sim, bool)
  {
    var (after, passed) := RunChain(spec, s, InputChain(spec, f, isNew), f, at);
    if passed && isNew && f.proto == TCP && f.ToAny(spec.portalPorts) then PortalCheck(spec, after, f, at)
    else (after, passed)
  }

  /** Closes connections: out of conntrack and out of every device's portal set. */
  function Forget(c: Core, keys: set<CtKey>): Core {
    c.(ct := c.ct - keys, portal := Without(c.portal, keys))
  }

  function Conntrack(c: Core, f: Ipv4, at: real): Core {
    if !f.Tracked() then c
    else
      var key := CtKeyOf(f);
      var open := if key in c.ct && c.ct[key].Stale(f.proto, at) then Forget(c, {key}) else c;
      var conn :=
        if key !in open.ct then Conn(f.src, f.sport, false, at, false)
        else open.ct[key].(replied := open.ct[key].replied || !open.ct[key].From(f), last := at);
      open.(ct := open.ct[key := conn.(closing := conn.closing || f.Closes())])
  }

  predicate SweepDue(c: Core, at: real) {
    c.nextSweep.None? || at >= c.nextSweep.value
  }

  function SweepConns(c: Core, at: real): Core {
    if SweepDue(c, at) then Forget(c, StaleKeys(c.ct, at)).(nextSweep := Some(at + 10.0)) else c
  }

  function Sweep(s: Sim, at: real): Sim {
    Sim(SweepConns(s.core, at),
        if SweepDue(s.core, at) then s.meters.(offenders := LiveOffenders(s.meters.offenders, at)) else s.meters,
        s.books)
  }

  predicate Ingress(spec: Spec, piMac: Option<Mac>, f: Frame) {
    if piMac.Some? then f.SrcMac() != piMac.value
    else match f
      case FrameIpv4(ip) => ip.src != spec.piIp && (spec.Protected(ip.src) || ip.src == 0)
      case FrameIpv6(_) => true
      case FrameArp(_, sender, _) => sender != spec.piIp
      case FrameOther(_) => false
  }

  function LearnPi(spec: Spec, c: Core, f: Frame): Core {
    if f.FrameIpv4? && f.ip.src == spec.piIp && c.piMac.None? then c.(piMac := Some(f.ip.mac)) else c
  }

  predicate ArpSpoofs(spec: Spec, bindings: map<Addr, Mac>, sender: Addr, senderMac: Mac) {
    sender == spec.piIp || (sender in bindings && bindings[sender] != senderMac)
  }

  function FeedIpv4(spec: Spec, s: Sim, f: Ipv4, at: real): Sim
  {
    if f.fragment then StaticDrop(s, CFrag, f.mac)
    else
      var (raw, routed) := Preroute(spec, s, f, at);
      if !routed then raw
      else
        var (hooked, accepted) := Hook(spec, raw, f, at);
        if accepted then hooked.(core := Conntrack(hooked.core, f, at)) else hooked
  }

  function FeedIngress(spec: Spec, s: Sim, f: Frame, at: real): Sim
  {
    match f
    case FrameIpv6(mac) => StaticDrop(s, CIpv6, mac)
    case FrameArp(mac, sender, senderMac) =>
      if ArpSpoofs(spec, s.core.bindings, sender, senderMac) then StaticDrop(s, CArpSpoof, mac) else s
    case FrameOther(_) => s
    case FrameIpv4(ip) => FeedIpv4(spec, s, ip, at)
  }

  function FeedFrame(spec: Spec, s: Sim, f: Frame, at: real): Sim {
    FeedReady(spec, Ready(spec, s, f, at), f, at)
  }

  function Ready(spec: Spec, s: Sim, f: Frame, at: real): Sim {
    var swept := Sweep(s, at);
    swept.(core := LearnPi(spec, swept.core, f))
  }

  function Enter(c: Core): Core {
    c.(ingress := c.ingress + 1)
  }

  function FeedReady(spec: Spec, s: Sim, f: Frame, at: real): Sim {
    if Ingress(spec, s.core.piMac, f) then FeedIngress(spec, s.(core := Enter(s.core)), f, at)
    else if f.FrameIpv4? then s.(core := Conntrack(s.core, f.ip, at))
    else s
  }

  /** One captured frame; None when its headers do not parse. */
  function Feed(spec: Spec, s: Sim, f: Option<Frame>, at: real): Sim
  {
    if f.None? then Tick(s) else FeedFrame(spec, Tick(s), f.value, at)
  }

  function Tick(s: Sim): Sim {
    s.(core := Counted(s.core))
  }

  function Counted(c: Core): Core {
    c.(frames := c.frames + 1)
  }

  /** A captured frame, or a reading of the offenders, which expires them first. */
  datatype Event = Arrival(frame: Option<Frame>, at: real) | Inquiry(at: real)

  function Expire(s: Sim, at: real): Sim {
    s.(meters := s.meters.(offenders := LiveOffenders(s.meters.offenders, at)))
  }

  function Step(spec: Spec, s: Sim, e: Event): Sim {
    match e
    case Arrival(frame, at) => Feed(spec, s, frame, at)
    case Inquiry(at) => Expire(s, at)
  }

  /** The state some events lead to. */
  ghost function Replay(spec: Spec, s: Sim, events: seq<Event>): Sim
    decreases |events|, 1
  {
    if events == [] then s else ReplayLast(spec, s, events)
  }

  ghost function ReplayLast(spec: Spec, s: Sim, events: seq<Event>): Sim
    requires events != []
    decreases |events|, 0
  {
    Step(spec, Replay(spec, s, events[..|events| - 1]), events[|events| - 1])
  }

  lemma ReplayOne(spec: Spec, s: Sim, e: Event)
    ensures Replay(spec, s, [e]) == Step(spec, s, e)
  {
    assert Replay(spec, s, [e]) == ReplayLast(spec, s, [e]);
    assert Replay(spec, s, [e][..0]) == s;
  }

  lemma ReplayAppend(spec: Spec, s: Sim, events: seq<Event>, e: Event)
    ensures Replay(spec, s, events + [e]) == Replay(spec, Replay(spec, s, events), [e])
  {
    assert (events + [e])[..|events|] == events;
    assert Replay(spec, s, events + [e]) == ReplayLast(spec, s, events + [e]);
    ReplayOne(spec, Replay(spec, s, events), e);
  }

  // ------------------------------------------------------------------ invariants

  ghost function TripHits(trips: seq<Trip>, guard: Guard): nat {
    if trips == [] then 0
    else (if OffenderGuard(trips[0].who.1) == guard then trips[0].hits else 0) + TripHits(trips[1..], guard)
  }

  ghost predicate Jumps(spec: Spec, name: Backstop, guard: Guard) {
    name in spec.backstops && spec.backstops[name].guard == guard
  }

  ghost function BackstopTotal(spec: Spec, hits: Tally<Backstop>, guard: Guard): nat {
    Total(hits, name => Jumps(spec, name, guard))
  }

  /** A guard's verdicts are its trips' hits plus its backstops', and it drops all of them or none. */
  ghost predicate Balances(spec: Spec, b: Books, guard: Guard) {
    && Count(b.verdictHits, guard) == TripHits(b.trips, guard) + BackstopTotal(spec, b.backstopHits, guard)
    && Count(b.guardDrops, guard) == if guard in spec.enforcing then Count(b.verdictHits, guard) else 0
  }

  lemma {:induction false} StrikeCounts(trips: seq<Trip>, who: Offender, at: real, guard: Guard)
    ensures TripHits(Strike(trips, who, at), guard)
         == TripHits(trips, guard) + if OffenderGuard(who.1) == guard then 1 else 0
  {
    if trips != [] {
      if trips[0].who == who {
        assert Strike(trips, who, at)[1..] == trips[1..];
      } else {
        assert Strike(trips, who, at)[1..] == Strike(trips[1..], who, at);
        StrikeCounts(trips[1..], who, at, guard);
      }
    }
  }

  /** A verdict keeps the balance if its cause was booked just before. */
  lemma JudgeBalances(spec: Spec, b: Books, guard: Guard, other: Guard, hits: nat)
    requires Count(b.guardDrops, other) == if other in spec.enforcing then Count(b.verdictHits, other) else 0
    requires hits == Count(b.verdictHits, other) + if other == guard then 1 else 0
    ensures
      var after := Judge(spec, b, guard).0;
      && after.trips == b.trips && after.backstopHits == b.backstopHits
      && Count(after.verdictHits, other) == hits
      && Count(after.guardDrops, other) == if other in spec.enforcing then hits else 0
  {
    BumpCounts(b.verdictHits, guard, other);
    BumpCounts(b.guardDrops, guard, other);
  }

  ghost predicate WithinSizes(spec: Spec, m: Meters) {
    && (spec.OffenderSize().Some? ==> |m.offenders| <= spec.OffenderSize().value)
    && (forall name :: name in m.buckets && name in spec.sets ==> |m.buckets[name]| <= spec.sets[name].size)
  }

  ghost predicate DropsAddUp(c: Core) {
    forall counter :: Count(c.staticDrops, counter) == Total(c.dropsByMac, (key: (Mac, Static)) => key.1 == counter)
  }

  /** Every connection counted against a device is tracked, except perhaps those in `coming`. */
  ghost predicate PortalWithin(c: Core, coming: set<CtKey>) {
    forall mac :: mac in c.portal ==> c.portal[mac] <= c.ct.Keys + coming
  }

  /** A simulator with its set-up; `coming` is the connection about to be tracked, if any. */
  datatype Bench = Bench(spec: Spec, sim: Sim, coming: set<CtKey>)
  {
    ghost predicate Sound() {
      && (forall g :: Balances(spec, sim.books, g))
      && WithinSizes(spec, sim.meters)
      && DropsAddUp(sim.core)
      && PortalWithin(sim.core, coming)
    }
  }

  type SoundBench = b: Bench | b.Sound() ghost witness var spec: Spec :| true; Bench(spec, Initial(map[], None), {})

  lemma OfferedRoom(room: map<Offender, real>, who: Offender, until: real)
    ensures |room[who := until]| == |room| + if who in room then 0 else 1
  {
    assert room[who := until].Keys == room.Keys + {who};
  }

  lemma TripSound(b: SoundBench, code: Code, mac: Mac, at: real) returns (b': SoundBench)
    ensures b' == b.(sim := TripRule(b.spec, b.sim, code, OffenderGuard(code), mac, at).0)
  {
    var spec, s, who, guard := b.spec, b.sim, (mac, code), OffenderGuard(code);
    var room := RoomFor(spec, s.meters.offenders, who, at);
    Fewer(room, s.meters.offenders);
    if Full(spec, room, who) {
      b' := b.(sim := s.(meters := s.meters.(offenders := room, offendersFull := s.meters.offendersFull + 1)));
    } else {
      var struck := s.books.(trips := Strike(s.books.trips, who, at));
      var books := Judge(spec, struck, guard).0;
      forall g ensures Balances(spec, books, g) {
        assert Balances(spec, s.books, g);
        StrikeCounts(s.books.trips, who, at, g);
        JudgeBalances(spec, struck, guard, g, Count(struck.verdictHits, g) + if g == guard then 1 else 0);
      }
      OfferedRoom(room, who, at + spec.OffenderTimeout());
      b' := b.(sim := s.(meters := s.meters.(offenders := room[who := at + spec.OffenderTimeout()]), books := books));
    }
  }

  lemma MeterSound(b: SoundBench, code: MeterCode, mac: Mac, dst: Addr, at: real) returns (b': SoundBench)
    ensures b' == b.(sim := MeterCheck(b.spec, b.sim, code, mac, dst, at).0)
  {
    assert b.spec.Declared(code);
    var rule := b.spec.meters[code];
    var key := (mac, if rule.perDestination then Some(dst) else None);
    var before, decl := ElementsOf(b.sim.meters.buckets, rule.name), b.spec.sets[rule.name];
    MeterBounded(before, rule.limit, decl, key, at);
    b' := PoliceSound(b, code, mac, at, Meter(before, rule.limit, decl, key, at));
  }

  lemma PoliceSound(
    b: SoundBench, code: MeterCode, mac: Mac, at: real, drawn: (Elements<MeterKey>, Outcome)) returns (b': SoundBench)
    requires b.spec.Declared(code) && |drawn.0| <= b.spec.sets[b.spec.meters[code].name].size
    ensures b' == b.(sim := Police(b.spec, b.sim, code, mac, at, drawn).0)
  {
    var rule, s := b.spec.meters[code], b.sim;
    var metered := s.meters.(buckets := s.meters.buckets[rule.name := drawn.0]);
    match drawn.1 {
      case FailOpen => b' := b.(sim := s.(meters := metered.(failopen := Bump(metered.failopen, rule.name))));
      case Pass => b' := b.(sim := s.(meters := metered));
      case Over => b' := TripSound(b.(sim := s.(meters := metered)), code, mac, at);
    }
  }

  lemma BackstopSound(b: SoundBench, name: Backstop, at: real) returns (b': SoundBench)
    ensures b' == b.(sim := BackstopCheck(b.spec, b.sim, name, at).0)
  {
    b' := b;
    if name in b.spec.backstops {
      var guard := b.spec.backstops[name].guard;
      var struck := b.sim.books.(backstopHits := Bump(b.sim.books.backstopHits, name));
      var after := BackstopCheck(b.spec, b.sim, name, at).0;
      forall g ensures Balances(b.spec, after.books, g) {
        assert Balances(b.spec, b.sim.books, g);
        BumpTotals(b.sim.books.backstopHits, name, n => Jumps(b.spec, n, g));
        JudgeBalances(b.spec, struck, guard, g, Count(struck.verdictHits, g) + if g == guard then 1 else 0);
      }
      b' := b.(sim := after);
    }
  }

  lemma {:induction false} ChainSound(b: SoundBench, chain: seq<Line>, f: Ipv4, at: real) returns (b': SoundBench)
    ensures b' == b.(sim := RunChain(b.spec, b.sim, chain, f, at).0)
    decreases |chain|
  {
    b' := b;
    if chain != [] {
      if chain[0].matches {
        match chain[0].check {
          case Metered(code) => b' := MeterSound(b, code, f.mac, f.dst, at);
          case Backstopped(name) => b' := BackstopSound(b, name, at);
        }
        assert RunChain(b.spec, b.sim, chain, f, at) == RunMatch(b.spec, b.sim, chain, f, at);
        if !RunCheck(b.spec, b.sim, chain[0].check, f, at).1 {
          return;
        }
      }
      b' := ChainSound(b', chain[1..], f, at);
    }
  }

  lemma StaticSound(b: SoundBench, counter: Static, mac: Mac) returns (b': SoundBench)
    ensures b' == b.(sim := StaticDrop(b.sim, counter, mac))
  {
    var c := b.sim.core;
    forall other ensures Count(Bump(c.staticDrops, counter), other)
                      == Total(Bump(c.dropsByMac, (mac, counter)), (key: (Mac, Static)) => key.1 == other) {
      BumpCounts(c.staticDrops, counter, other);
      BumpTotals(c.dropsByMac, (mac, counter), (key: (Mac, Static)) => key.1 == other);
    }
    b' := b.(sim := StaticDrop(b.sim, counter, mac));
  }

  /** Meters and backstops touch neither conntrack nor bindings, and drop nothing while no guard enforces. */
  lemma {:induction false} ChainKeepsCore(spec: Spec, s: Sim, chain: seq<Line>, f: Ipv4, at: real)
    ensures RunChain(spec, s, chain, f, at).0.core == s.core
    ensures spec.enforcing == {} ==> RunChain(spec, s, chain, f, at).1
    decreases |chain|
  {
    if chain != [] {
      CheckKeepsCore(spec, s, chain[0].check, f, at);
      ChainKeepsCore(spec, s, chain[1..], f, at);
      ChainKeepsCore(spec, RunCheck(spec, s, chain[0].check, f, at).0, chain[1..], f, at);
      assert chain[0].matches ==> RunChain(spec, s, chain, f, at) == RunMatch(spec, s, chain, f, at);
    }
  }

  lemma CheckKeepsCore(spec: Spec, s: Sim, check: Check, f: Ipv4, at: real)
    ensures RunCheck(spec, s, check, f, at).0.core == s.core
    ensures spec.enforcing == {} ==> RunCheck(spec, s, check, f, at).1
  {
    match check {
      case Metered(code) => MeterKeepsCore(spec, s, code, f.mac, f.dst, at);
      case Backstopped(name) => assert RunCheck(spec, s, check, f, at) == BackstopCheck(spec, s, name, at);
    }
  }

  lemma MeterKeepsCore(spec: Spec, s: Sim, code: MeterCode, mac: Mac, dst: Addr, at: real)
    ensures MeterCheck(spec, s, code, mac, dst, at).0.core == s.core
    ensures spec.enforcing == {} ==> MeterCheck(spec, s, code, mac, dst, at).1
  {
    assert spec.Declared(code);
    var rule := spec.meters[code];
    var key := (mac, if rule.perDestination then Some(dst) else None);
    PoliceKeepsCore(spec, s, code, mac, at,
                    Meter(ElementsOf(s.meters.buckets, rule.name), rule.limit, spec.sets[rule.name], key, at));
  }

  lemma PoliceKeepsCore(spec: Spec, s: Sim, code: MeterCode, mac: Mac, at: real, drawn: (Elements<MeterKey>, Outcome))
    ensures Police(spec, s, code, mac, at, drawn).0.core == s.core
    ensures spec.enforcing == {} ==> Police(spec, s, code, mac, at, drawn).1
  {
    assert spec.Declared(code);
    var rule := spec.meters[code];
    TripKeepsCore(spec, s.(meters := s.meters.(buckets := s.meters.buckets[rule.name := drawn.0])), code, rule.guard,
                  mac, at);
  }

  lemma TripKeepsCore(spec: Spec, s: Sim, code: Code, guard: Guard, mac: Mac, at: real)
    ensures TripRule(spec, s, code, guard, mac, at).0.core == s.core
    ensures spec.enforcing == {} ==> TripRule(spec, s, code, guard, mac, at).1
  {
  }

  lemma PrerouteSound(b: SoundBench, f: Ipv4, at: real) returns (b': SoundBench)
    ensures b' == b.(sim := Preroute(b.spec, b.sim, f, at).0)
  {
    var chain := [Line(IsDhcp(f), Metered(Dhcp))];
    b' := ChainSound(b, chain, f, at);
    if RunChain(b.spec, b.sim, chain, f, at).1 && !((IsDhcp(f) && f.src == 0) || b.spec.Broadcast(f.dst)) {
      b' := PrerouteUnicastSound(b', f, at);
    }
  }

  lemma PrerouteUnicastSound(b: SoundBench, f: Ipv4, at: real) returns (b': SoundBench)
    ensures b' == b.(sim := PrerouteUnicast(b.spec, b.sim, f, at).0)
  {
    if !b.spec.Protected(f.src) || f.src == b.spec.piIp {
      b' := StaticSound(b, CBogon, f.mac);
    } else {
      var bindings := Learn(b.spec, b.sim.core.bindings, f);
      b' := b.(sim := b.sim.(core := b.sim.core.(bindings := bindings)));
      if f.src in bindings && bindings[f.src] != f.mac {
        b' := StaticSound(b', CSpoof, f.mac);
      } else {
        b' := ChainSound(b', FloodChain(b.spec, f, f.src in bindings), f, at);
      }
    }
  }

  lemma PortalSound(b: SoundBench, f: Ipv4, at: real) returns (b': SoundBench)
    requires b.coming == {}
    ensures b' == b.(sim := PortalCheck(b.spec, b.sim, f, at).0,
                     coming := if PortalCheck(b.spec, b.sim, f, at).1 then {CtKeyOf(f)} else {})
  {
    var keys := PortalOf(b.sim.core.portal, f.mac) + {CtKeyOf(f)};
    var added := PortalAdds(b, f.mac, CtKeyOf(f));
    b' := added;
    if |keys| > b.spec.portalConcurrency {
      b' := TripSound(added, PortalConcurrency, f.mac, at);
      if !TripRule(b.spec, added.sim, PortalConcurrency, Input, f.mac, at).1 {
        b' := PortalDrops(b', f.mac, CtKeyOf(f));
      }
    }
  }

  lemma PortalAdds(b: SoundBench, mac: Mac, key: CtKey) returns (b': SoundBench)
    requires b.coming == {}
    ensures b' == b.(sim := SetPortal(b.sim, mac, PortalOf(b.sim.core.portal, mac) + {key}), coming := {key})
    ensures forall m :: m in b'.sim.core.portal && m != mac ==> key !in b'.sim.core.portal[m] || key in b'.sim.core.ct
  {
    b' := b.(sim := SetPortal(b.sim, mac, PortalOf(b.sim.core.portal, mac) + {key}), coming := {key});
  }

  /** The refused connection was counted for this device only. */
  lemma PortalDrops(b: SoundBench, mac: Mac, key: CtKey) returns (b': SoundBench)
    requires b.coming == {key}
    requires forall m :: m in b.sim.core.portal && m != mac ==> key !in b.sim.core.portal[m] || key in b.sim.core.ct
    ensures b' == b.(sim := SetPortal(b.sim, mac, PortalOf(b.sim.core.portal, mac) - {key}), coming := {})
  {
    b' := b.(sim := SetPortal(b.sim, mac, PortalOf(b.sim.core.portal, mac) - {key}), coming := {});
    var c := b'.sim.core;
    forall m | m in c.portal ensures c.portal[m] <= c.ct.Keys {
      assert PortalWithin(b.sim.core, {key});
    }
  }

  /** A connection let through is either tracked already or about to be. */
  lemma HookSound(b: SoundBench, f: Ipv4, at: real) returns (b': SoundBench)
    requires b.coming == {}
    ensures b' == b.(sim := Hook(b.spec, b.sim, f, at).0, coming := b'.coming)
    ensures b'.coming <= if Hook(b.spec, b.sim, f, at).1 && f.Tracked() then {CtKeyOf(f)} else {}
  {
    var isNew := IsNew(b.sim.core.ct, f, at);
    b' := b;
    if f.dst == b.spec.piIp || b.spec.Broadcast(f.dst) {
      b' := HookInputSound(b, f, isNew, at);
    } else if b.spec.Protected(f.dst) {
    } else if (f.proto == TCP || f.proto == UDP) && f.ToAny(b.spec.dnsBypassPorts) {
      b' := StaticSound(b, CDnsBypass, f.mac);
    } else {
      b' := ChainSound(b, ForwardChain(f, isNew), f, at);
    }
  }

  lemma HookInputSound(b: SoundBench, f: Ipv4, isNew: bool, at: real) returns (b': SoundBench)
    requires b.coming == {}
    ensures b' == b.(sim := HookInput(b.spec, b.sim, f, isNew, at).0, coming := b'.coming)
    ensures b'.coming <= if HookInput(b.spec, b.sim, f, isNew, at).1 && f.Tracked() then {CtKeyOf(f)} else {}
  {
    var passed := RunChain(b.spec, b.sim, InputChain(b.spec, f, isNew), f, at).1;
    b' := ChainSound(b, InputChain(b.spec, f, isNew), f, at);
    if passed && isNew && f.proto == TCP && f.ToAny(b.spec.portalPorts) {
      b' := PortalSound(b', f, at);
    }
  }

  lemma ConntrackSound(b: SoundBench, f: Ipv4, at: real) returns (b': SoundBench)
    requires b.coming <= if f.Tracked() then {CtKeyOf(f)} else {}
    ensures b' == b.(sim := b.sim.(core := Conntrack(b.sim.core, f, at)), coming := {})
  {
    b' := b.(sim := b.sim.(core := Conntrack(b.sim.core, f, at)), coming := {});
  }

  lemma FeedIpv4Sound(b: SoundBench, f: Ipv4, at: real) returns (b': SoundBench)
    requires b.coming == {}
    ensures b' == b.(sim := FeedIpv4(b.spec, b.sim, f, at))
  {
    if f.fragment {
      b' := StaticSound(b, CFrag, f.mac);
    } else {
      b' := PrerouteSound(b, f, at);
      if Preroute(b.spec, b.sim, f, at).1 {
        var accepted := Hook(b.spec, b'.sim, f, at).1;
        b' := HookSound(b', f, at);
        if accepted {
          b' := ConntrackSound(b', f, at);
        }
      }
    }
  }

  lemma SweepSound(b: SoundBench, at: real) returns (b': SoundBench)
    requires b.coming == {}
    ensures b' == b.(sim := Sweep(b.sim, at))
  {
    Fewer(LiveOffenders(b.sim.meters.offenders, at), b.sim.meters.offenders);
    b' := b.(sim := Sweep(b.sim, at));
  }

  lemma IngressSound(b: SoundBench, f: Frame, at: real) returns (b': SoundBench)
    requires b.coming == {}
    ensures b' == b.(sim := FeedIngress(b.spec, b.sim, f, at))
  {
    b' := b;
    match f {
      case FrameIpv4(ip) => b' := FeedIpv4Sound(b, ip, at);
      case FrameIpv6(mac) => b' := StaticSound(b, CIpv6, mac);
      case FrameArp(mac, sender, senderMac) =>
        if ArpSpoofs(b.spec, b.sim.core.bindings, sender, senderMac) {
          b' := StaticSound(b, CArpSpoof, mac);
        }
      case FrameOther(_) =>
    }
  }

  /** One frame keeps the books, the bounds and the portal sets. */
  lemma FeedSound(b: SoundBench, f: Option<Frame>, at: real) returns (b': SoundBench)
    requires b.coming == {}
    ensures b' == b.(sim := Feed(b.spec, b.sim, f, at))
  {
    var counted := TickSound(b);
    b' := counted;
    if f.Some? {
      b' := FrameSound(counted, f.value, at);
    }
  }

  lemma TickSound(b: SoundBench) returns (b': SoundBench)
    ensures b' == b.(sim := Tick(b.sim))
  {
    b' := b.(sim := Tick(b.sim));
  }

  lemma FrameSound(b: SoundBench, f: Frame, at: real) returns (b': SoundBench)
    requires b.coming == {}
    ensures b' == b.(sim := FeedFrame(b.spec, b.sim, f, at))
  {
    var swept := SweepSound(b, at);
    b' := EntrySound(swept.(sim := swept.sim.(core := LearnPi(b.spec, swept.sim.core, f))), f, at);
  }

  lemma EntrySound(b: SoundBench, f: Frame, at: real) returns (b': SoundBench)
    requires b.coming == {}
    ensures b' == b.(sim := FeedReady(b.spec, b.sim, f, at))
  {
    b' := b;
    if Ingress(b.spec, b.sim.core.piMac, f) {
      b' := IngressSound(b.(sim := b.sim.(core := Enter(b.sim.core))), f, at);
    } else if f.FrameIpv4? {
      b' := ConntrackSound(b, f.ip, at);
    }
  }

  lemma StepSound(b: SoundBench, e: Event) returns (b': SoundBench)
    requires b.coming == {}
    ensures b' == b.(sim := Step(b.spec, b.sim, e))
  {
    if e.Arrival? {
      b' := FeedSound(b, e.frame, e.at);
    } else {
      Fewer(LiveOffenders(b.sim.meters.offenders, e.at), b.sim.meters.offenders);
      b' := b.(sim := Expire(b.sim, e.at));
    }
  }

  lemma {:induction false} ReplayBench(spec: Spec, bindings: map<Addr, Mac>, piMac: Option<Mac>, events: seq<Event>)
    returns (b: SoundBench)
    ensures b == Bench(spec, Replay(spec, Initial(bindings, piMac), events), {})
  {
    b := Bench(spec, Initial(bindings, piMac), {});
    if events != [] {
      assert Replay(spec, Initial(bindings, piMac), events) == ReplayLast(spec, Initial(bindings, piMac), events);
      b := ReplayBench(spec, bindings, piMac, events[..|events| - 1]);
      b := StepSound(b, events[|events| - 1]);
    }
  }

  /**
   Over every run with fixed modes: each guard's verdicts are the hits of its trips plus its backstops',
   it drops all of them when it enforces and none when it observes, offenders and meter sets stay within
   their declared sizes, the drops per device add up, and each device's portal set holds tracked
   connections only.
   */
  lemma ReplaySound(spec: Spec, bindings: map<Addr, Mac>, piMac: Option<Mac>, events: seq<Event>)
    ensures
      var s := Replay(spec, Initial(bindings, piMac), events);
      && (forall guard :: Balances(spec, s.books, guard))
      && WithinSizes(spec, s.meters)
      && DropsAddUp(s.core)
      && PortalWithin(s.core, {})
  {
    var b := ReplayBench(spec, bindings, piMac, events);
  }

  // ------------------------------------------------------------------- observe mode

  /** The simulator without its meters, backstops and offenders: bindings, static drops and conntrack only. */
  ghost function PlainPreroute(spec: Spec, c: Core, f: Ipv4): (Core, bool) {
    if (IsDhcp(f) && f.src == 0) || spec.Broadcast(f.dst) then (c, true) else PlainUnicast(spec, c, f)
  }

  ghost function PlainUnicast(spec: Spec, c: Core, f: Ipv4): (Core, bool) {
    if !spec.Protected(f.src) || f.src == spec.piIp then (Drop(c, CBogon, f.mac), false)
    else
      var learnt := c.(bindings := Learn(spec, c.bindings, f));
      if f.src in learnt.bindings && learnt.bindings[f.src] != f.mac then (Drop(learnt, CSpoof, f.mac), false)
      else (learnt, true)
  }

  ghost function PlainHook(spec: Spec, c: Core, f: Ipv4, at: real): (Core, bool) {
    if f.dst == spec.piIp || spec.Broadcast(f.dst) then
      (if IsNew(c.ct, f, at) && f.proto == TCP && f.ToAny(spec.portalPorts)
       then c.(portal := c.portal[f.mac := PortalOf(c.portal, f.mac) + {CtKeyOf(f)}]) else c, true)
    else if spec.Protected(f.dst) then (c, false)
    else if (f.proto == TCP || f.proto == UDP) && f.ToAny(spec.dnsBypassPorts) then (Drop(c, CDnsBypass, f.mac), false)
    else (c, true)
  }

  ghost function PlainIpv4(spec: Spec, c: Core, f: Ipv4, at: real): Core {
    if f.fragment then Drop(c, CFrag, f.mac)
    else
      var (raw, routed) := PlainPreroute(spec, c, f);
      if !routed then raw
      else
        var (hooked, accepted) := PlainHook(spec, raw, f, at);
        if accepted then Conntrack(hooked, f, at) else hooked
  }

  ghost function PlainReady(spec: Spec, c: Core, f: Frame, at: real): Core {
    if !Ingress(spec, c.piMac, f) then (if f.FrameIpv4? then Conntrack(c, f.ip, at) else c)
    else
      PlainIngress(spec, Enter(c), f, at)
  }

  ghost function PlainIngress(spec: Spec, c: Core, f: Frame, at: real): Core {
    match f
    case FrameIpv6(mac) => Drop(c, CIpv6, mac)
    case FrameArp(mac, sender, senderMac) =>
      if ArpSpoofs(spec, c.bindings, sender, senderMac) then Drop(c, CArpSpoof, mac) else c
    case FrameOther(_) => c
    case FrameIpv4(ip) => PlainIpv4(spec, c, ip, at)
  }

  ghost function PlainFrame(spec: Spec, c: Core, f: Frame, at: real): Core {
    PlainReady(spec, LearnPi(spec, SweepConns(c, at), f), f, at)
  }

  ghost function PlainReplay(spec: Spec, c: Core, events: seq<Event>): Core {
    if events == [] then c
    else PlainStep(spec, PlainReplay(spec, c, events[..|events| - 1]), events[|events| - 1])
  }

  ghost function PlainStep(spec: Spec, c: Core, e: Event): Core {
    if e.Arrival? then PlainFeed(spec, c, e.frame, e.at) else c
  }

  ghost function PlainFeed(spec: Spec, c: Core, f: Option<Frame>, at: real): Core {
    if f.None? then Counted(c) else PlainFrame(spec, Counted(c), f.value, at)
  }

  lemma PortalObserves(spec: Spec, s: Sim, f: Ipv4, at: real)
    requires spec.enforcing == {}
    ensures PortalCheck(spec, s, f, at).1
    ensures PortalCheck(spec, s, f, at).0.core
        == s.core.(portal := s.core.portal[f.mac := PortalOf(s.core.portal, f.mac) + {CtKeyOf(f)}])
  {
  }

  lemma PrerouteObserves(spec: Spec, s: Sim, f: Ipv4, at: real) returns (after: Sim)
    requires spec.enforcing == {}
    ensures Preroute(spec, s, f, at) == (after, PlainPreroute(spec, s.core, f).1)
    ensures after.core == PlainPreroute(spec, s.core, f).0
  {
    var chain := [Line(IsDhcp(f), Metered(Dhcp))];
    ChainKeepsCore(spec, s, chain, f, at);
    after := RunChain(spec, s, chain, f, at).0;
    if !((IsDhcp(f) && f.src == 0) || spec.Broadcast(f.dst)) {
      after := UnicastObserves(spec, after, f, at);
    }
  }

  lemma UnicastObserves(spec: Spec, s: Sim, f: Ipv4, at: real) returns (after: Sim)
    requires spec.enforcing == {}
    ensures PrerouteUnicast(spec, s, f, at) == (after, PlainUnicast(spec, s.core, f).1)
    ensures after.core == PlainUnicast(spec, s.core, f).0
  {
    var bindings := Learn(spec, s.core.bindings, f);
    ChainKeepsCore(spec, s.(core := s.core.(bindings := bindings)), FloodChain(spec, f, f.src in bindings), f, at);
    after := PrerouteUnicast(spec, s, f, at).0;
  }

  lemma HookObserves(spec: Spec, s: Sim, f: Ipv4, at: real) returns (after: Sim)
    requires spec.enforcing == {}
    ensures Hook(spec, s, f, at) == (after, PlainHook(spec, s.core, f, at).1)
    ensures after.core == PlainHook(spec, s.core, f, at).0
  {
    var isNew := IsNew(s.core.ct, f, at);
    if f.dst == spec.piIp || spec.Broadcast(f.dst) {
      ChainKeepsCore(spec, s, InputChain(spec, f, isNew), f, at);
      PortalObserves(spec, RunChain(spec, s, InputChain(spec, f, isNew), f, at).0, f, at);
    } else {
      ChainKeepsCore(spec, s, ForwardChain(f, isNew), f, at);
    }
    after := Hook(spec, s, f, at).0;
  }

  lemma Ipv4Observes(spec: Spec, s: Sim, f: Ipv4, at: real)
    requires spec.enforcing == {}
    ensures FeedIpv4(spec, s, f, at).core == PlainIpv4(spec, s.core, f, at)
  {
    if !f.fragment {
      var raw := PrerouteObserves(spec, s, f, at);
      var hooked := HookObserves(spec, raw, f, at);
    }
  }

  lemma ReadyObserves(spec: Spec, s: Sim, f: Frame, at: real)
    requires spec.enforcing == {}
    ensures FeedReady(spec, s, f, at).core == PlainReady(spec, s.core, f, at)
  {
    IngressObserves(spec, s.(core := Enter(s.core)), f, at);
  }

  lemma IngressObserves(spec: Spec, s: Sim, f: Frame, at: real)
    requires spec.enforcing == {}
    ensures FeedIngress(spec, s, f, at).core == PlainIngress(spec, s.core, f, at)
  {
    if f.FrameIpv4? {
      Ipv4Observes(spec, s, f.ip, at);
    }
  }

  lemma FrameObserves(spec: Spec, s: Sim, f: Frame, at: real)
    requires spec.enforcing == {}
    ensures FeedFrame(spec, s, f, at).core == PlainFrame(spec, s.core, f, at)
  {
    ReadyObserves(spec, Ready(spec, s, f, at), f, at);
  }

  lemma FeedObserves(spec: Spec, s: Sim, f: Option<Frame>, at: real)
    requires spec.enforcing == {}
    ensures Feed(spec, s, f, at).core == PlainFeed(spec, s.core, f, at)
  {
    if f.Some? {
      FrameObserves(spec, Tick(s), f.value, at);
    }
  }

  /**
   While every guard observes, no rate, burst, set size, backstop or concurrency limit changes what is
   dropped, learnt or tracked: after every run all of it is as in the simulator without meters.
   */
  lemma {:induction false} ObserveIsTransparent(spec: Spec, s: Sim, events: seq<Event>)
    requires spec.enforcing == {}
    ensures Replay(spec, s, events).core == PlainReplay(spec, s.core, events)
  {
    if events != [] {
      var rest, last := events[..|events| - 1], events[|events| - 1];
      assert Replay(spec, s, events) == ReplayLast(spec, s, events);
      ObserveIsTransparent(spec, s, rest);
      if last.Arrival? {
        FeedObserves(spec, Replay(spec, s, rest), last.frame, last.at);
      }
    }
  }
}
