/** Inside the simulator, each meter set evolves as a run of its own: the rate bound holds of every rule there. */
module MeterTrace {
  import opened Prelude
  import opened NftNames
  import opened TokenBucket
  import opened MeterSet
  import opened Tallies
  import opened M = MeterSim

  // ------------------------------------------------------------------- rate rules as meters

  /** A rate rule of the template: a meter, or a backstop, which is a meter with one element that never expires. */
  type RateRule = Check

  /** The set of this rule belongs to no other rule. */
  ghost predicate Sole(spec: Spec, rule: RateRule) {
    rule.Metered? ==>
      (forall other: MeterCode :: other != rule.code && spec.Declared(other) && spec.Declared(rule.code) ==>
         spec.meters[other].name != spec.meters[rule.code].name)
  }

  /** Every meter is there; a backstop may be missing. */
  predicate Present(spec: Spec, rule: RateRule) { rule.Metered? || rule.name in spec.backstops }

  ghost function LimitOf(spec: Spec, rule: RateRule): Rule {
    match rule
    case Metered(code) => assert spec.Declared(code); spec.meters[code].limit
    case Backstopped(name) => if name in spec.backstops then spec.backstops[name].limit else Rule(0.0, 0)
  }

  ghost function DeclOf(spec: Spec, rule: RateRule): Decl {
    match rule
    case Metered(code) => assert spec.Declared(code); spec.sets[spec.meters[code].name]
    case Backstopped(_) => Decl(None, 1)
  }

  ghost function GuardOf(spec: Spec, rule: RateRule): Guard
    requires Present(spec, rule)
  {
    match rule
    case Metered(code) => assert spec.Declared(code); spec.meters[code].guard
    case Backstopped(name) => spec.backstops[name].guard
  }

  const ANY: MeterKey := (0, None)

  ghost function KeyFor(spec: Spec, rule: RateRule, f: Ipv4): MeterKey {
    match rule
    case Metered(code) =>
      assert spec.Declared(code);
      (f.mac, if spec.meters[code].perDestination then Some(f.dst) else None)
    case Backstopped(_) => ANY
  }

  /** The elements of the rule's set. */
  ghost function ElementsIn(spec: Spec, rule: RateRule, s: Sim): MeterSet.Elements<MeterKey> {
    match rule
    case Metered(code) => assert spec.Declared(code); ElementsOf(s.meters.buckets, spec.meters[code].name)
    case Backstopped(name) => if name in s.meters.backstops then map[ANY := s.meters.backstops[name]] else map[]
  }

  /** A packet put to a rule, and what the simulator made of it. */
  datatype Asked = Asked(packet: Packet<MeterKey>, outcome: Outcome)

  type Log = seq<Asked>

  ghost function Packets(log: Log): (ps: seq<Packet<MeterKey>>)
    ensures |ps| == |log| && forall i :: 0 <= i < |log| ==> ps[i] == log[i].packet
  {
    if log == [] then [] else Packets(log[..|log| - 1]) + [log[|log| - 1].packet]
  }

  /** The rule's set and the outcome for a packet in this state: what the simulator acts on. */
  ghost function Drawn(spec: Spec, s: Sim, rule: RateRule, f: Ipv4, at: real)
    : (MeterSet.Elements<MeterKey>, Outcome) {
    Meter(ElementsIn(spec, rule, s), LimitOf(spec, rule), DeclOf(spec, rule), KeyFor(spec, rule, f), at)
  }

  // ------------------------------------------------- what one rule is asked, frame by frame

  ghost function CheckLog(spec: Spec, s: Sim, check: Check, f: Ipv4, at: real, rule: RateRule): Log {
    if check == rule && Present(spec, rule)
    then [Asked(Packet(KeyFor(spec, rule, f), at), Drawn(spec, s, rule, f, at).1)] else []
  }

  ghost function ChainLog(spec: Spec, s: Sim, chain: seq<Line>, f: Ipv4, at: real, rule: RateRule): Log
    decreases |chain|, 1
  {
    if chain == [] then []
    else if chain[0].matches then MatchLog(spec, s, chain, f, at, rule)
    else ChainLog(spec, s, chain[1..], f, at, rule)
  }

  ghost function MatchLog(spec: Spec, s: Sim, chain: seq<Line>, f: Ipv4, at: real, rule: RateRule): Log
    requires chain != []
    decreases |chain|, 0
  {
    var (after, passed) := RunCheck(spec, s, chain[0].check, f, at);
    CheckLog(spec, s, chain[0].check, f, at, rule)
    + if passed then ChainLog(spec, after, chain[1..], f, at, rule) else []
  }

  ghost function PrerouteLog(spec: Spec, s: Sim, f: Ipv4, at: real, rule: RateRule): Log {
    var gate := [Line(IsDhcp(f), Metered(Dhcp))];
    var (gated, passed) := RunChain(spec, s, gate, f, at);
    ChainLog(spec, s, gate, f, at, rule)
    + if !passed || (IsDhcp(f) && f.src == 0) || spec.Broadcast(f.dst) then [] else UnicastLog(spec, gated, f, at, rule)
  }

  ghost function UnicastLog(spec: Spec, s: Sim, f: Ipv4, at: real, rule: RateRule): Log {
    if !spec.Protected(f.src) || f.src == spec.piIp then []
    else
      var bindings := Learn(spec, s.core.bindings, f);
      if f.src in bindings && bindings[f.src] != f.mac then []
      else ChainLog(spec, s.(core := s.core.(bindings := bindings)), FloodChain(spec, f, f.src in bindings), f, at,
                    rule)
  }

  ghost function HookLog(spec: Spec, s: Sim, f: Ipv4, at: real, rule: RateRule): Log {
    var isNew := IsNew(s.core.ct, f, at);
    if f.dst == spec.piIp || spec.Broadcast(f.dst) then ChainLog(spec, s, InputChain(spec, f, isNew), f, at, rule)
    else if spec.Protected(f.dst) then []
    else if (f.proto == TCP || f.proto == UDP) && f.ToAny(spec.dnsBypassPorts) then []
    else ChainLog(spec, s, ForwardChain(f, isNew), f, at, rule)
  }

  ghost function Ipv4Log(spec: Spec, s: Sim, f: Ipv4, at: real, rule: RateRule): Log {
    if f.fragment then []
    else
      var (raw, routed) := Preroute(spec, s, f, at);
      PrerouteLog(spec, s, f, at, rule) + if routed then HookLog(spec, raw, f, at, rule) else []
  }

  ghost function ReadyLog(spec: Spec, s: Sim, f: Frame, at: real, rule: RateRule): Log {
    if f.FrameIpv4? && Ingress(spec, s.core.piMac, f) then Ipv4Log(spec, s.(core := Enter(s.core)), f.ip, at, rule)
    else []
  }

  ghost function EventLog(spec: Spec, s: Sim, e: Event, rule: RateRule): Log {
    if e.Arrival? && e.frame.Some?
    then ReadyLog(spec, Ready(spec, Tick(s), e.frame.value, e.at), e.frame.value, e.at, rule)
    else []
  }

  /** Every packet a run puts to one rule, in order. */
  ghost function ReplayLog(spec: Spec, s: Sim, events: seq<Event>, rule: RateRule): Log
    decreases |events|, 1
  {
    if events == [] then [] else ReplayLogLast(spec, s, events, rule)
  }

  ghost function ReplayLogLast(spec: Spec, s: Sim, events: seq<Event>, rule: RateRule): Log
    requires events != []
    decreases |events|, 0
  {
    var rest := events[..|events| - 1];
    ReplayLog(spec, s, rest, rule) + EventLog(spec, Replay(spec, s, rest), events[|events| - 1], rule)
  }

  // ------------------------------------------------------------- the set follows its log

  /** Every outcome in the log is that of the packet metered after those before it. */
  ghost predicate OutcomesOf(limit: Rule, decl: Decl, log: Log) {
    log == []
    || (OutcomesOf(limit, decl, log[..|log| - 1]) && log[|log| - 1].outcome == LastOutcome(limit, decl, Packets(log)))
  }

  /** A simulator beside the log of one rule. */
  datatype Trace = Trace(spec: Spec, rule: RateRule, sim: Sim, log: Log)
  {
    ghost function Elements(): MeterSet.Elements<MeterKey> {
      ElementsIn(spec, rule, sim)
    }

    /** The rule's set holds what metering its packets alone would leave, and each had the outcome it has there. */
    ghost predicate Follows() {
      var limit, decl := LimitOf(spec, rule), DeclOf(spec, rule);
      Elements() == MeterSet.Run(limit, decl, Packets(log)) && OutcomesOf(limit, decl, log)
    }

    /** The trace with a later state and more of the log. */
    ghost function Then(sim: Sim, more: Log): Trace {
      Trace(spec, rule, sim, log + more)
    }
  }

  type Followed = t: Trace | t.Follows()
    ghost witness var spec: Spec :| true; Trace(spec, Metered(SynPps), Initial(map[], None), [])

  lemma Joined(a: Log, b: Log, c: Log)
    ensures (a + b) + c == a + (b + c) && a + [] == a
  {
  }

  /** The set and the outcomes after one more packet. */
  lemma LogOne(limit: Rule, decl: Decl, log: Log, p: Packet<MeterKey>)
    requires OutcomesOf(limit, decl, log)
    ensures
      var drawn := Meter(MeterSet.Run(limit, decl, Packets(log)), limit, decl, p.key, p.at);
      var longer := log + [Asked(p, drawn.1)];
      MeterSet.Run(limit, decl, Packets(longer)) == drawn.0 && OutcomesOf(limit, decl, longer)
  {
    var drawn := Meter(MeterSet.Run(limit, decl, Packets(log)), limit, decl, p.key, p.at);
    var longer := log + [Asked(p, drawn.1)];
    assert longer[..|log|] == log;
    var ps := Packets(longer);
    assert ps[..|log|] == Packets(log) && ps[|log|] == p;
    assert MeterSet.Run(limit, decl, ps) == MeterSet.RunLast(limit, decl, ps);
  }

  ghost predicate SameSets(s: Sim, t: Sim) {
    s.meters.buckets == t.meters.buckets && s.meters.backstops == t.meters.backstops
  }

  lemma TripKeepsSets(spec: Spec, s: Sim, code: Code, guard: Guard, mac: Mac, at: real)
    ensures SameSets(s, TripRule(spec, s, code, guard, mac, at).0)
  {
  }

  lemma PoliceSets(
    spec: Spec, s: Sim, code: MeterCode, mac: Mac, at: real, drawn: (MeterSet.Elements<MeterKey>, Outcome))
    requires spec.Declared(code)
    ensures
      var after := Police(spec, s, code, mac, at, drawn).0;
      && after.meters.buckets == s.meters.buckets[spec.meters[code].name := drawn.0]
      && after.meters.backstops == s.meters.backstops
  {
    var rule := spec.meters[code];
    TripKeepsSets(spec, s.(meters := s.meters.(buckets := s.meters.buckets[rule.name := drawn.0])), code, rule.guard,
                  mac, at);
  }

  lemma Unmetered(t: Followed, s: Sim) returns (t': Followed)
    requires SameSets(t.sim, s)
    ensures t' == t.(sim := s) == t.Then(s, [])
  {
    Joined(t.log, [], []);
    t' := t.(sim := s);
  }

  lemma MeterDecides(spec: Spec, s: Sim, code: MeterCode, f: Ipv4, at: real)
    ensures MeterCheck(spec, s, code, f.mac, f.dst, at)
         == Police(spec, s, code, f.mac, at, Drawn(spec, s, Metered(code), f, at))
  {
  }

  /** Elements of a set without a timeout stay. */
  ghost predicate Lasting(elements: MeterSet.Elements<MeterKey>) {
    forall k :: k in elements ==> elements[k].expiresAt.None?
  }

  lemma {:induction false} RunLasts(limit: Rule, decl: Decl, ps: seq<Packet<MeterKey>>)
    requires decl.timeout.None?
    ensures Lasting(MeterSet.Run(limit, decl, ps))
  {
    if ps != [] {
      RunLasts(limit, decl, ps[..|ps| - 1]);
      assert MeterSet.Run(limit, decl, ps) == MeterSet.RunLast(limit, decl, ps);
    }
  }

  /** A backstop does what a meter with one lasting element does. */
  lemma BackstopDecides(spec: Spec, s: Sim, name: Backstop, f: Ipv4, at: real)
    requires name in spec.backstops && Lasting(ElementsIn(spec, Backstopped(name), s))
    ensures
      var (after, passed) := BackstopCheck(spec, s, name, at);
      var drawn := Drawn(spec, s, Backstopped(name), f, at);
      && ElementsIn(spec, Backstopped(name), after) == drawn.0 && drawn.1 != FailOpen
      && (drawn.1 == Pass ==> passed && after.books == s.books)
      && (drawn.1 == Over ==> passed == (spec.backstops[name].guard !in spec.enforcing))
  {
    var elements, burst := ElementsIn(spec, Backstopped(name), s), spec.backstops[name].limit.burst;
    if name in s.meters.backstops {
      assert Live(elements[ANY], at);
      assert Element(elements, Decl(None, 1), ANY, burst, at) == elements;
    } else {
      assert elements - {ANY} == map[];
      assert Element(elements, Decl(None, 1), ANY, burst, at) == map[ANY := Fresh(burst, at, None)];
    }
  }

  /** The outcome decides: a packet is dropped exactly when it is over, the guard enforces and it can be recorded. */
  lemma DropsExactly(spec: Spec, s: Sim, rule: RateRule, f: Ipv4, at: real)
    requires Present(spec, rule) && (rule.Backstopped? ==> Lasting(ElementsIn(spec, rule, s)))
    ensures
      var outcome, (after, passed) := Drawn(spec, s, rule, f, at).1, RunCheck(spec, s, rule, f, at);
      && (!passed <==> outcome == Over && GuardOf(spec, rule) in spec.enforcing
                       && (rule.Metered? ==> var who := (f.mac, rule.code);
                             !Full(spec, RoomFor(spec, s.meters.offenders, who, at), who)))
      && (outcome != Over ==> after.books == s.books)
  {
    match rule {
      case Metered(code) => MeterDecides(spec, s, code, f, at);
      case Backstopped(name) => BackstopDecides(spec, s, name, f, at);
    }
  }

  /** A packet that goes unmetered is counted for the set that was full, and nothing else is. */
  lemma FailOpenCounts(spec: Spec, s: Sim, code: MeterCode, f: Ipv4, at: real, name: string)
    ensures spec.Declared(code)
    ensures Count(MeterCheck(spec, s, code, f.mac, f.dst, at).0.meters.failopen, name)
         == Count(s.meters.failopen, name)
            + if Drawn(spec, s, Metered(code), f, at).1 == FailOpen && name == spec.meters[code].name then 1 else 0
  {
    assert spec.Declared(code);
    MeterDecides(spec, s, code, f, at);
    BumpCounts(s.meters.failopen, spec.meters[code].name, name);
  }

  /** The log and the set after the rule was asked once more. */
  lemma Logged(t: Followed, f: Ipv4, at: real, after: Sim) returns (t': Followed)
    requires Present(t.spec, t.rule) && ElementsIn(t.spec, t.rule, after) == Drawn(t.spec, t.sim, t.rule, f, at).0
    ensures t' == t.Then(after, CheckLog(t.spec, t.sim, t.rule, f, at, t.rule))
  {
    var limit, decl, key := LimitOf(t.spec, t.rule), DeclOf(t.spec, t.rule), KeyFor(t.spec, t.rule, f);
    var drawn := Drawn(t.spec, t.sim, t.rule, f, at);
    assert drawn == Meter(MeterSet.Run(limit, decl, Packets(t.log)), limit, decl, key, at);
    LogOne(limit, decl, t.log, Packet(key, at));
    t' := t.Then(after, [Asked(Packet(key, at), drawn.1)]);
  }

  /** The rule itself is asked. */
  lemma OwnFollows(t: Followed, f: Ipv4, at: real) returns (t': Followed)
    ensures t' == t.Then(RunCheck(t.spec, t.sim, t.rule, f, at).0, CheckLog(t.spec, t.sim, t.rule, f, at, t.rule))
  {
    match t.rule {
      case Metered(code) =>
        assert t.spec.Declared(code);
        MeterDecides(t.spec, t.sim, code, f, at);
        PoliceSets(t.spec, t.sim, code, f.mac, at, Drawn(t.spec, t.sim, t.rule, f, at));
        t' := Logged(t, f, at, MeterCheck(t.spec, t.sim, code, f.mac, f.dst, at).0);
      case Backstopped(name) =>
        if name in t.spec.backstops {
          RunLasts(LimitOf(t.spec, t.rule), DeclOf(t.spec, t.rule), Packets(t.log));
          BackstopDecides(t.spec, t.sim, name, f, at);
          t' := Logged(t, f, at, BackstopCheck(t.spec, t.sim, name, at).0);
        } else {
          t' := Unmetered(t, t.sim);
        }
    }
  }

  /** Another rule is asked, with a set of its own. */
  lemma OtherFollows(t: Followed, check: Check, f: Ipv4, at: real) returns (t': Followed)
    requires Sole(t.spec, t.rule) && check != t.rule
    ensures t' == t.Then(RunCheck(t.spec, t.sim, check, f, at).0, [])
  {
    var after := RunCheck(t.spec, t.sim, check, f, at).0;
    assert ElementsIn(t.spec, t.rule, after) == t.Elements() by {
      match check {
        case Metered(asked) =>
          assert t.spec.Declared(asked);
          MeterDecides(t.spec, t.sim, asked, f, at);
          PoliceSets(t.spec, t.sim, asked, f.mac, at, Drawn(t.spec, t.sim, check, f, at));
          assert t.rule.Metered? ==> t.spec.Declared(t.rule.code);
        case Backstopped(name) =>
      }
    }
    Joined(t.log, [], []);
    t' := t.Then(after, []);
  }

  lemma CheckFollows(t: Followed, check: Check, f: Ipv4, at: real) returns (t': Followed)
    requires Sole(t.spec, t.rule)
    ensures t' == t.Then(RunCheck(t.spec, t.sim, check, f, at).0, CheckLog(t.spec, t.sim, check, f, at, t.rule))
  {
    if check == t.rule {
      t' := OwnFollows(t, f, at);
    } else {
      t' := OtherFollows(t, check, f, at);
    }
  }

  lemma {:induction false} ChainFollows(t: Followed, chain: seq<Line>, f: Ipv4, at: real) returns (t': Followed)
    requires Sole(t.spec, t.rule)
    ensures t' == t.Then(RunChain(t.spec, t.sim, chain, f, at).0, ChainLog(t.spec, t.sim, chain, f, at, t.rule))
    decreases |chain|, 1
  {
    if chain == [] {
      t' := Unmetered(t, t.sim);
    } else if !chain[0].matches {
      t' := ChainFollows(t, chain[1..], f, at);
    } else {
      t' := MatchFollows(t, chain, f, at);
    }
  }

  lemma MatchFollows(t: Followed, chain: seq<Line>, f: Ipv4, at: real) returns (t': Followed)
    requires Sole(t.spec, t.rule) && chain != []
    ensures t' == t.Then(RunMatch(t.spec, t.sim, chain, f, at).0, MatchLog(t.spec, t.sim, chain, f, at, t.rule))
    decreases |chain|, 0
  {
    var asked := CheckLog(t.spec, t.sim, chain[0].check, f, at, t.rule);
    t' := CheckFollows(t, chain[0].check, f, at);
    var after := t'.sim;
    if RunCheck(t.spec, t.sim, chain[0].check, f, at).1 {
      t' := ChainFollows(t', chain[1..], f, at);
      Joined(t.log, asked, ChainLog(t.spec, after, chain[1..], f, at, t.rule));
    } else {
      Joined(asked, [], []);
    }
  }

  lemma UnicastFollows(t: Followed, f: Ipv4, at: real) returns (t': Followed)
    requires Sole(t.spec, t.rule)
    ensures t' == t.Then(PrerouteUnicast(t.spec, t.sim, f, at).0, UnicastLog(t.spec, t.sim, f, at, t.rule))
  {
    if !t.spec.Protected(f.src) || f.src == t.spec.piIp {
      t' := Unmetered(t, StaticDrop(t.sim, CBogon, f.mac));
    } else {
      var bindings := Learn(t.spec, t.sim.core.bindings, f);
      var learnt := Unmetered(t, t.sim.(core := t.sim.core.(bindings := bindings)));
      if f.src in bindings && bindings[f.src] != f.mac {
        t' := Unmetered(t, StaticDrop(learnt.sim, CSpoof, f.mac));
      } else {
        t' := ChainFollows(learnt, FloodChain(t.spec, f, f.src in bindings), f, at);
      }
    }
  }

  lemma PrerouteFollows(t: Followed, f: Ipv4, at: real) returns (t': Followed)
    requires Sole(t.spec, t.rule)
    ensures t' == t.Then(Preroute(t.spec, t.sim, f, at).0, PrerouteLog(t.spec, t.sim, f, at, t.rule))
  {
    var gate := [Line(IsDhcp(f), Metered(Dhcp))];
    var asked := ChainLog(t.spec, t.sim, gate, f, at, t.rule);
    var gated := ChainFollows(t, gate, f, at);
    t' := gated;
    if !RunChain(t.spec, t.sim, gate, f, at).1 || (IsDhcp(f) && f.src == 0) || t.spec.Broadcast(f.dst) {
      Joined(asked, [], []);
    } else {
      t' := UnicastFollows(gated, f, at);
      Joined(t.log, asked, UnicastLog(t.spec, gated.sim, f, at, t.rule));
    }
  }

  lemma PortalKeepsSets(spec: Spec, s: Sim, f: Ipv4, at: real)
    ensures SameSets(s, PortalCheck(spec, s, f, at).0)
  {
    var added := SetPortal(s, f.mac, PortalOf(s.core.portal, f.mac) + {CtKeyOf(f)});
    TripKeepsSets(spec, added, PortalConcurrency, Input, f.mac, at);
  }

  lemma HookFollows(t: Followed, f: Ipv4, at: real) returns (t': Followed)
    requires Sole(t.spec, t.rule)
    ensures t' == t.Then(Hook(t.spec, t.sim, f, at).0, HookLog(t.spec, t.sim, f, at, t.rule))
  {
    var isNew := IsNew(t.sim.core.ct, f, at);
    if f.dst == t.spec.piIp || t.spec.Broadcast(f.dst) {
      t' := ChainFollows(t, InputChain(t.spec, f, isNew), f, at);
      PortalKeepsSets(t.spec, t'.sim, f, at);
      t' := Unmetered(t', HookInput(t.spec, t.sim, f, isNew, at).0);
    } else if t.spec.Protected(f.dst) || ((f.proto == TCP || f.proto == UDP) && f.ToAny(t.spec.dnsBypassPorts)) {
      t' := Unmetered(t, Hook(t.spec, t.sim, f, at).0);
    } else {
      t' := ChainFollows(t, ForwardChain(f, isNew), f, at);
    }
  }

  lemma RoutedFollows(t: Followed, f: Ipv4, at: real) returns (t': Followed)
    requires Sole(t.spec, t.rule)
    ensures
      var (hooked, accepted) := Hook(t.spec, t.sim, f, at);
      t' == t.Then(if accepted then hooked.(core := Conntrack(hooked.core, f, at)) else hooked,
                   HookLog(t.spec, t.sim, f, at, t.rule))
  {
    var (hooked, accepted) := Hook(t.spec, t.sim, f, at);
    t' := HookFollows(t, f, at);
    if accepted {
      t' := Unmetered(t', hooked.(core := Conntrack(hooked.core, f, at)));
    }
  }

  lemma Ipv4Follows(t: Followed, f: Ipv4, at: real) returns (t': Followed)
    requires Sole(t.spec, t.rule)
    ensures t' == t.Then(FeedIpv4(t.spec, t.sim, f, at), Ipv4Log(t.spec, t.sim, f, at, t.rule))
  {
    if f.fragment {
      t' := Unmetered(t, StaticDrop(t.sim, CFrag, f.mac));
    } else {
      var first := PrerouteLog(t.spec, t.sim, f, at, t.rule);
      var mid := PrerouteFollows(t, f, at);
      t' := mid;
      if Preroute(t.spec, t.sim, f, at).1 {
        t' := RoutedFollows(mid, f, at);
        Joined(t.log, first, HookLog(t.spec, mid.sim, f, at, t.rule));
      } else {
        Joined(first, [], []);
      }
    }
  }

  lemma ReadyFollows(t: Followed, f: Frame, at: real) returns (t': Followed)
    requires Sole(t.spec, t.rule)
    ensures t' == t.Then(FeedReady(t.spec, t.sim, f, at), ReadyLog(t.spec, t.sim, f, at, t.rule))
  {
    if f.FrameIpv4? && Ingress(t.spec, t.sim.core.piMac, f) {
      t' := Unmetered(t, t.sim.(core := Enter(t.sim.core)));
      t' := Ipv4Follows(t', f.ip, at);
    } else {
      t' := Unmetered(t, FeedReady(t.spec, t.sim, f, at));
    }
  }

  lemma EventFollows(t: Followed, e: Event) returns (t': Followed)
    requires Sole(t.spec, t.rule)
    ensures t' == t.Then(Step(t.spec, t.sim, e), EventLog(t.spec, t.sim, e, t.rule))
  {
    if e.Arrival? && e.frame.Some? {
      t' := Unmetered(t, Ready(t.spec, Tick(t.sim), e.frame.value, e.at));
      t' := ReadyFollows(t', e.frame.value, e.at);
    } else {
      t' := Unmetered(t, Step(t.spec, t.sim, e));
    }
  }

  /** After every run, a rule's set holds what metering its own packets alone would leave. */
  lemma {:induction false} SetsFollowTheirLogs(
    spec: Spec, rule: RateRule, bindings: map<Addr, Mac>, piMac: Option<Mac>, events: seq<Event>) returns (t: Followed)
    requires Sole(spec, rule)
    ensures
      var s := Initial(bindings, piMac);
      t == Trace(spec, rule, Replay(spec, s, events), ReplayLog(spec, s, events, rule))
  {
    t := Trace(spec, rule, Initial(bindings, piMac), []);
    if events != [] {
      var s := Initial(bindings, piMac);
      assert Replay(spec, s, events) == ReplayLast(spec, s, events);
      assert ReplayLog(spec, s, events, rule) == ReplayLogLast(spec, s, events, rule);
      t := SetsFollowTheirLogs(spec, rule, bindings, piMac, events[..|events| - 1]);
      t := EventFollows(t, events[|events| - 1]);
    }
  }

  // ----------------------------------------------------------- times, and the rate bound

  ghost predicate AllAt(log: Log, at: real) {
    forall i :: 0 <= i < |log| ==> log[i].packet.at == at
  }

  lemma {:induction false} ChainAt(spec: Spec, s: Sim, chain: seq<Line>, f: Ipv4, at: real, rule: RateRule)
    ensures AllAt(ChainLog(spec, s, chain, f, at, rule), at)
    decreases |chain|
  {
    if chain != [] {
      if chain[0].matches {
        assert ChainLog(spec, s, chain, f, at, rule) == MatchLog(spec, s, chain, f, at, rule);
        ChainAt(spec, RunCheck(spec, s, chain[0].check, f, at).0, chain[1..], f, at, rule);
      } else {
        ChainAt(spec, s, chain[1..], f, at, rule);
      }
    }
  }

  lemma PrerouteAt(spec: Spec, s: Sim, f: Ipv4, at: real, rule: RateRule)
    ensures AllAt(PrerouteLog(spec, s, f, at, rule), at)
  {
    var gate := [Line(IsDhcp(f), Metered(Dhcp))];
    ChainAt(spec, s, gate, f, at, rule);
    var gated := RunChain(spec, s, gate, f, at).0;
    var bindings := Learn(spec, gated.core.bindings, f);
    ChainAt(spec, gated.(core := gated.core.(bindings := bindings)), FloodChain(spec, f, f.src in bindings), f, at,
            rule);
  }

  lemma HookAt(spec: Spec, s: Sim, f: Ipv4, at: real, rule: RateRule)
    ensures AllAt(HookLog(spec, s, f, at, rule), at)
  {
    var isNew := IsNew(s.core.ct, f, at);
    ChainAt(spec, s, InputChain(spec, f, isNew), f, at, rule);
    ChainAt(spec, s, ForwardChain(f, isNew), f, at, rule);
  }

  lemma EventAt(spec: Spec, s: Sim, e: Event, rule: RateRule)
    ensures AllAt(EventLog(spec, s, e, rule), e.at)
  {
    if e.Arrival? && e.frame.Some? && e.frame.value.FrameIpv4? {
      var ready, f := Ready(spec, Tick(s), e.frame.value, e.at), e.frame.value.ip;
      Ipv4At(spec, ready.(core := Enter(ready.core)), f, e.at, rule);
    }
  }

  lemma Ipv4At(spec: Spec, s: Sim, f: Ipv4, at: real, rule: RateRule)
    ensures AllAt(Ipv4Log(spec, s, f, at, rule), at)
  {
    PrerouteAt(spec, s, f, at, rule);
    HookAt(spec, Preroute(spec, s, f, at).0, f, at, rule);
  }

  ghost predicate InOrder(events: seq<Event>) {
    forall i, j :: 0 <= i < j < |events| ==> events[i].at <= events[j].at
  }

  /** A run in time order puts its packets to the rule in time order. */
  lemma {:induction false} LogInOrder(spec: Spec, s: Sim, events: seq<Event>, rule: RateRule)
    requires InOrder(events)
    ensures
      var log := ReplayLog(spec, s, events, rule);
      && Ordered(Packets(log))
      && forall i :: 0 <= i < |log| ==> events != [] && log[i].packet.at <= events[|events| - 1].at
  {
    if events != [] {
      var rest, last := events[..|events| - 1], events[|events| - 1];
      LogInOrder(spec, s, rest, rule);
      EventAt(spec, Replay(spec, s, rest), last, rule);
      assert rest != [] ==> rest[|rest| - 1].at <= last.at;
      assert ReplayLog(spec, s, events, rule) == ReplayLogLast(spec, s, events, rule);
      JoinOrdered(ReplayLog(spec, s, rest, rule), EventLog(spec, Replay(spec, s, rest), last, rule), last.at);
    }
  }

  /** In time order, with nothing after `end`. */
  ghost predicate Timed(log: Log, end: real) {
    Ordered(Packets(log)) && forall i :: 0 <= i < |log| ==> log[i].packet.at <= end
  }

  lemma {:induction false} JoinOrdered(a: Log, b: Log, at: real)
    requires Ordered(Packets(a)) && AllAt(b, at) && forall i :: 0 <= i < |a| ==> a[i].packet.at <= at
    ensures Ordered(Packets(a + b))
  {
    var ps, before := Packets(a + b), Packets(a);
    forall i, j | 0 <= i < j < |ps|
      ensures ps[i].at <= ps[j].at
    {
      if j < |a| {
        assert ps[i] == before[i] && ps[j] == before[j];
      }
    }
  }

  /** The state of a rule's set after a run: what metering its packets alone leaves. */
  lemma SimulatedSet(spec: Spec, rule: RateRule, bindings: map<Addr, Mac>, piMac: Option<Mac>, events: seq<Event>)
    requires Sole(spec, rule)
    ensures
      var s := Initial(bindings, piMac);
      ElementsIn(spec, rule, Replay(spec, s, events))
      == MeterSet.Run(LimitOf(spec, rule), DeclOf(spec, rule), Packets(ReplayLog(spec, s, events, rule)))
  {
    var t := SetsFollowTheirLogs(spec, rule, bindings, piMac, events);
  }

  /** The packets of a key, at or after `from`, to which the simulator gave a token. */
  ghost function Passed(log: Log, key: MeterKey, from: real): nat {
    if log == [] then 0
    else
      var last := log[|log| - 1];
      Passed(log[..|log| - 1], key, from)
      + if last.packet.key == key && last.packet.at >= from && last.outcome == Pass then 1 else 0
  }

  lemma {:induction false} PassedIsPasses(limit: Rule, decl: Decl, log: Log, key: MeterKey, from: real)
    requires OutcomesOf(limit, decl, log)
    ensures Passed(log, key, from) == Passes(limit, decl, Packets(log), key, from)
  {
    if log != [] {
      var rest, ps := log[..|log| - 1], Packets(log);
      PassedIsPasses(limit, decl, rest, key, from);
      assert ps[..|log| - 1] == Packets(rest);
      assert Passes(limit, decl, ps, key, from) == PassesLast(limit, decl, ps, key, from);
    }
  }

  /**
   The rate bound in the simulator. Whatever is fed to it in time order, in any interval of `span` seconds a rule with
   a set of its own gives tokens to at most (floor(span / timeout) + 2) * burst + rate * span packets of one key.
   */
  lemma SimulatedRateBound(
    spec: Spec, rule: RateRule, bindings: map<Addr, Mac>, piMac: Option<Mac>, events: seq<Event>, key: MeterKey,
    from: real, span: real, limit: Rule, decl: Decl)
    requires Sole(spec, rule) && InOrder(events)
    requires span >= 0.0 && (events != [] ==> events[|events| - 1].at <= from + span)
    requires limit == LimitOf(spec, rule) && limit.rate >= 0.0
    requires decl == DeclOf(spec, rule) && decl.timeout.Some? && decl.timeout.value > 0.0
    ensures Passed(ReplayLog(spec, Initial(bindings, piMac), events, rule), key, from) as real
            <= Gain(((span / decl.timeout.value).Floor + 2) as real, limit.burst as real) + Gain(span, limit.rate)
  {
    var log := TimedLog(spec, rule, bindings, piMac, events, from + span);
    LogBound(limit, decl, log, key, from, span);
  }

  /** The log of a run in time order is one that metering its packets alone explains. */
  lemma TimedLog(
    spec: Spec, rule: RateRule, bindings: map<Addr, Mac>, piMac: Option<Mac>, events: seq<Event>, end: real)
    returns (log: Log)
    requires Sole(spec, rule) && InOrder(events) && (events != [] ==> events[|events| - 1].at <= end)
    ensures log == ReplayLog(spec, Initial(bindings, piMac), events, rule)
    ensures OutcomesOf(LimitOf(spec, rule), DeclOf(spec, rule), log) && Timed(log, end)
  {
    log := ReplayLog(spec, Initial(bindings, piMac), events, rule);
    LogOutcomes(spec, rule, bindings, piMac, events);
    LogInOrder(spec, Initial(bindings, piMac), events, rule);
  }

  /** The simulator's outcomes for a rule are those of metering its packets alone. */
  lemma LogOutcomes(spec: Spec, rule: RateRule, bindings: map<Addr, Mac>, piMac: Option<Mac>, events: seq<Event>)
    requires Sole(spec, rule)
    ensures OutcomesOf(LimitOf(spec, rule), DeclOf(spec, rule),
                       ReplayLog(spec, Initial(bindings, piMac), events, rule))
  {
    var t := SetsFollowTheirLogs(spec, rule, bindings, piMac, events);
  }

  lemma LogBound(limit: Rule, decl: Decl, log: Log, key: MeterKey, from: real, span: real)
    requires OutcomesOf(limit, decl, log) && Timed(log, from + span) && span >= 0.0
    requires limit.rate >= 0.0 && decl.timeout.Some? && decl.timeout.value > 0.0
    ensures Passed(log, key, from) as real
            <= Gain(((span / decl.timeout.value).Floor + 2) as real, limit.burst as real) + Gain(span, limit.rate)
  {
    PassedIsPasses(limit, decl, log, key, from);
    RateBound(limit, decl, Packets(log), key, from, span);
  }
}
