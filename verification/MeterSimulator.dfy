/** The simulator object: dictionaries and counters changed in place on every frame. */
module MeterSimulators {
  import opened Prelude
  import opened NftNames
  import opened TokenBucket
  import opened MeterSet
  import opened Tallies
  import opened M = MeterSim
  import MeterTrace
  import OffenderLaw

  class MeterSimulator {
    const spec: Spec
    var bindings: map<Addr, Mac>
    var piMac: Option<Mac>
    var buckets: map<string, Elements<MeterKey>>
    var globals: map<Backstop, Bucket>
    var offenders: map<Offender, real>
    var ct: Conns
    var portal: Portal
    var nextSweep: Option<real>
    var trips: seq<Trip>
    var frames: nat
    var ingress: nat
    var staticDrops: Tally<Static>
    var dropsByMac: Tally<(Mac, Static)>
    var verdictHits: Tally<Guard>
    var backstopHits: Tally<Backstop>
    var guardDrops: Tally<Guard>
    var failopen: Tally<string>
    var offendersFull: nat
    /** What the simulator was given, and every frame fed and reading taken since. */
    ghost const givenBindings: map<Addr, Mac>
    ghost const givenMac: Option<Mac>
    ghost var events: seq<Event>

    /** The object is where its events lead. */
    ghost predicate Valid()
      reads this
    {
      View() == Replay(spec, Initial(givenBindings, givenMac), events)
    }

    /** The state of the machine that this object stands for. */
    ghost function View(): Sim
      reads this
    {
      Sim(Core(bindings, piMac, ct, portal, nextSweep, staticDrops, dropsByMac, frames, ingress),
          Meters(buckets, globals, offenders, failopen, offendersFull),
          Books(trips, backstopHits, verdictHits, guardDrops))
    }

    constructor (spec: Spec, bindings: map<Addr, Mac>, piMac: Option<Mac>)
      ensures Valid() && events == [] && this.spec == spec && givenBindings == bindings && givenMac == piMac
      ensures View() == Initial(bindings, piMac)
    {
      this.spec, this.bindings, this.piMac := spec, bindings, piMac;
      givenBindings, givenMac, events := bindings, piMac, [];
      buckets, globals, offenders, ct, portal, nextSweep := map[], map[], map[], map[], map[], None;
      trips, frames, ingress, staticDrops, dropsByMac := [], 0, 0, [], [];
      verdictHits, backstopHits, guardDrops, failopen, offendersFull := [], [], [], [], 0;
    }

    method StaticDrop(counter: Static, mac: Mac)
      modifies this`staticDrops, this`dropsByMac
      ensures View() == M.StaticDrop(old(View()), counter, mac)
    {
      staticDrops := Bump(staticDrops, counter);
      dropsByMac := Bump(dropsByMac, (mac, counter));
    }

    // ------------------------------------------------------------------- the meters

    method Verdict(guard: Guard) returns (passed: bool)
      modifies this`verdictHits, this`guardDrops
      ensures
        var (books, p) := Judge(spec, old(View()).books, guard);
        View() == old(View()).(books := books) && passed == p
    {
      verdictHits := Bump(verdictHits, guard);
      passed := true;
      if guard in spec.enforcing {
        guardDrops := Bump(guardDrops, guard);
        passed := false;
      }
    }

    method ExpireOffenders(at: real)
      modifies this`offenders
      ensures offenders == LiveOffenders(old(offenders), at)
    {
      offenders := map k | k in offenders && !(offenders[k] <= at) :: offenders[k];
    }

    /** Whether `@offenders` cannot take this key, after expiring what it can. */
    method IsFull(who: Offender, at: real) returns (full: bool)
      modifies this`offenders
      ensures offenders == RoomFor(spec, old(offenders), who, at) && full == Full(spec, offenders, who)
    {
      full := false;
      if who !in offenders && spec.OffenderSize().Some? {
        ExpireOffenders(at);
        full := |offenders| >= spec.OffenderSize().value;
      }
    }

    /** One more hit of this device and code, and the guard's verdict on it. */
    method Record(who: Offender, guard: Guard, at: real) returns (passed: bool)
      modifies this`trips, this`verdictHits, this`guardDrops
      ensures
        var (books, p) := Judge(spec, old(View()).books.(trips := Strike(old(trips), who, at)), guard);
        View() == old(View()).(books := books) && passed == p
    {
      trips := Strike(trips, who, at);
      passed := Verdict(guard);
    }

    method TripOver(code: Code, guard: Guard, mac: Mac, at: real) returns (passed: bool)
      modifies this`offenders, this`offendersFull, this`trips, this`verdictHits, this`guardDrops
      ensures (View(), passed) == TripRule(spec, old(View()), code, guard, mac, at)
    {
      var key := (mac, code);
      var full := IsFull(key, at);
      if full {
        offendersFull := offendersFull + 1;
        return true;
      }
      offenders := offenders[key := at + spec.OffenderTimeout()];
      passed := Record(key, guard, at);
    }

    /** `add @set { key limit ... }`: false when the set is full. */
    method FindElement(name: string, key: MeterKey, burst: nat, at: real) returns (found: bool)
      requires name in spec.sets
      modifies this`buckets
      ensures buckets == old(buckets)[name := Element(ElementsOf(old(buckets), name), spec.sets[name], key, burst, at)]
      ensures found <==> key in buckets[name]
    {
      var elements := ElementsOf(buckets, name);
      found := true;
      if !(key in elements && Live(elements[key], at)) {
        elements := elements - {key};
        var decl := spec.sets[name];
        if |elements| >= decl.size {
          elements := Unexpired(elements, at);
        }
        if |elements| >= decl.size {
          found := false;
        } else {
          elements := elements[key := Fresh(burst, at, Expiry(decl, at))];
        }
      }
      buckets := buckets[name := elements];
    }

    /** The rule's bucket for this key, refilled and asked for a token. */
    method Draw(name: string, limit: Rule, key: MeterKey, at: real) returns (outcome: Outcome)
      requires name in spec.sets
      modifies this`buckets
      ensures
        var (elements, o) := Meter(ElementsOf(old(buckets), name), limit, spec.sets[name], key, at);
        buckets == old(buckets)[name := elements] && outcome == o
    {
      ghost var before := buckets;
      var found := FindElement(name, key, limit.burst, at);
      if !found {
        return FailOpen;
      }
      var elements := buckets[name];
      var (bucket, taken) := Take(elements[key], limit.rate, limit.burst, at);
      buckets := buckets[name := elements[key := bucket]];
      assert buckets == before[name := elements[key := bucket]];
      outcome := if taken then Pass else Over;
    }

    method Limit(code: MeterCode, mac: Mac, dst: Addr, at: real) returns (passed: bool)
      modifies this`buckets, this`failopen, this`offenders, this`offendersFull, this`trips, this`verdictHits,
               this`guardDrops
      ensures (View(), passed) == MeterCheck(spec, old(View()), code, mac, dst, at)
    {
      assert spec.Declared(code);
      var rule := spec.meters[code];
      var key := (mac, if rule.perDestination then Some(dst) else None);
      ghost var before := View();
      ghost var drawn := Meter(ElementsOf(buckets, rule.name), rule.limit, spec.sets[rule.name], key, at);
      var outcome := Draw(rule.name, rule.limit, key, at);
      passed := Settle(code, rule, mac, outcome, at, before, drawn);
    }

    /** What follows from the meter's outcome. */
    method Settle(code: MeterCode, rule: MeterRule, mac: Mac, outcome: Outcome, at: real, ghost before: Sim,
                  ghost drawn: (Elements<MeterKey>, Outcome)) returns (passed: bool)
      requires spec.Declared(code) && rule == spec.meters[code] && outcome == drawn.1
      requires View() == before.(meters := before.meters.(buckets := before.meters.buckets[rule.name := drawn.0]))
      modifies this`failopen, this`offenders, this`offendersFull, this`trips, this`verdictHits, this`guardDrops
      ensures (View(), passed) == Police(spec, before, code, mac, at, drawn)
    {
      passed := true;
      match outcome {
        case FailOpen => failopen := Bump(failopen, rule.name);
        case Pass =>
        case Over => passed := TripOver(code, rule.guard, mac, at);
      }
    }

    method LimitAll(name: Backstop, at: real) returns (passed: bool)
      modifies this`globals, this`backstopHits, this`verdictHits, this`guardDrops
      ensures (View(), passed) == BackstopCheck(spec, old(View()), name, at)
    {
      if name !in spec.backstops {
        return true;
      }
      var rule := spec.backstops[name];
      var created := if name in globals then globals[name] else Fresh(rule.limit.burst, at, None);
      var (bucket, taken) := Take(created, rule.limit.rate, rule.limit.burst, at);
      globals := globals[name := bucket];
      if taken {
        return true;
      }
      backstopHits := Bump(backstopHits, name);
      passed := Verdict(rule.guard);
    }

    /** The k-th rule of a chain; `goal` is what the whole chain comes to. */
    method Consult(
      line: Line, f: Ipv4, at: real, ghost chain: seq<Line>, ghost k: nat, ghost goal: (Sim, bool))
      returns (passed: bool)
      requires k < |chain| && chain[k] == line && goal == RunChain(spec, View(), chain[k..], f, at)
      modifies this`buckets, this`failopen, this`offenders, this`offendersFull, this`trips, this`verdictHits,
               this`guardDrops,
               this`globals, this`backstopHits
      ensures goal == if passed then RunChain(spec, View(), chain[k + 1..], f, at) else (View(), false)
    {
      assert chain[k..][1..] == chain[k + 1..];
      passed := true;
      if line.matches {
        assert goal == RunMatch(spec, View(), chain[k..], f, at);
        match line.check {
          case Metered(code) => passed := Limit(code, f.mac, f.dst, at);
          case Backstopped(name) => passed := LimitAll(name, at);
        }
      }
    }

    /** `ct count over N` per device. */
    method PortalCount(f: Ipv4, at: real) returns (passed: bool)
      modifies this`portal, this`offenders, this`offendersFull, this`trips, this`verdictHits, this`guardDrops
      ensures (View(), passed) == PortalCheck(spec, old(View()), f, at)
    {
      var key := CtKeyOf(f);
      var connections := PortalOf(portal, f.mac) + {key};
      portal := portal[f.mac := connections];
      passed := true;
      if |connections| > spec.portalConcurrency {
        passed := TripOver(PortalConcurrency, Input, f.mac, at);
        if !passed {
          portal := portal[f.mac := connections - {key}];
        }
      }
    }

    // ------------------------------------------------------------------- the chains

    method PrerouteRaw(f: Ipv4, at: real) returns (passed: bool)
      modifies this
      ensures (View(), passed) == Preroute(spec, old(View()), f, at) && events == old(events)
    {
      var gate := Line(IsDhcp(f), Metered(Dhcp));
      passed := Consult(gate, f, at, [gate], 0, RunChain(spec, View(), [gate], f, at));
      if !passed || (IsDhcp(f) && f.src == 0) || spec.Broadcast(f.dst) {
        return;
      }
      passed := PrerouteBound(f, at);
    }

    method PrerouteBound(f: Ipv4, at: real) returns (passed: bool)
      modifies this
      ensures (View(), passed) == PrerouteUnicast(spec, old(View()), f, at) && events == old(events)
    {
      if !spec.Protected(f.src) || f.src == spec.piIp {
        StaticDrop(CBogon, f.mac);
        return false;
      }
      if f.src !in bindings && !spec.fixedBindings && IsUnicast(f.mac) {
        bindings := bindings[f.src := f.mac];
      }
      if f.src in bindings && bindings[f.src] != f.mac {
        StaticDrop(CSpoof, f.mac);
        return false;
      }
      passed := Walk(FloodChain(spec, f, f.src in bindings), f, at);
    }

    /** Consults the rules of a chain in order. */
    method Walk(chain: seq<Line>, f: Ipv4, at: real) returns (passed: bool)
      modifies this`buckets, this`failopen, this`offenders, this`offendersFull, this`trips, this`verdictHits,
               this`guardDrops,
               this`globals, this`backstopHits
      ensures (View(), passed) == RunChain(spec, old(View()), chain, f, at)
    {
      ghost var goal := RunChain(spec, View(), chain, f, at);
      assert chain[0..] == chain;
      for k := 0 to |chain|
        invariant goal == RunChain(spec, View(), chain[k..], f, at)
      {
        passed := Consult(chain[k], f, at, chain, k, goal);
        if !passed {
          return;
        }
      }
      passed := true;
    }

    method HookChain(f: Ipv4, at: real) returns (passed: bool)
      modifies this
      ensures (View(), passed) == Hook(spec, old(View()), f, at) && events == old(events)
    {
      var isNew := IsNew(ct, f, at);
      if f.dst == spec.piIp || spec.Broadcast(f.dst) {
        passed := InputGuard(f, isNew, at);
      } else if spec.Protected(f.dst) {
        passed := false;
      } else if (f.proto == TCP || f.proto == UDP) && f.ToAny(spec.dnsBypassPorts) {
        StaticDrop(CDnsBypass, f.mac);
        passed := false;
      } else {
        passed := Walk(ForwardChain(f, isNew), f, at);
      }
    }

    method InputGuard(f: Ipv4, isNew: bool, at: real) returns (passed: bool)
      modifies this
      ensures (View(), passed) == HookInput(spec, old(View()), f, isNew, at) && events == old(events)
    {
      passed := Walk(InputChain(spec, f, isNew), f, at);
      if passed && isNew && f.proto == TCP && f.ToAny(spec.portalPorts) {
        passed := PortalCount(f, at);
      }
    }

    // -------------------------------------------------------------------- conntrack

    method ForgetConn(key: CtKey)
      modifies this`ct, this`portal
      ensures View() == old(View()).(core := Forget(old(View()).core, {key}))
    {
      ct := ct - {key};
      portal := map m | m in portal :: portal[m] - {key};
    }

    method Track(f: Ipv4, at: real)
      modifies this`ct, this`portal
      ensures View() == old(View()).(core := Conntrack(old(View()).core, f, at))
    {
      if !f.Tracked() {
        return;
      }
      var key := CtKeyOf(f);
      if key in ct && ct[key].Stale(f.proto, at) {
        ForgetConn(key);
      }
      var conn := Conn(f.src, f.sport, false, at, false);
      if key in ct {
        conn := ct[key];
        if !conn.From(f) {
          conn := conn.(replied := true);
        }
        conn := conn.(last := at);
      }
      if f.Closes() {
        conn := conn.(closing := true);
      }
      ct := ct[key := conn];
    }

    /** Forgets every stale connection, one at a time, and expires offenders. */
    method SweepAll(at: real)
      modifies this`ct, this`portal, this`offenders
      ensures View() == old(View()).(core := Forget(old(View()).core, StaleKeys(old(ct), at)),
                                     meters := old(View()).meters.(offenders := LiveOffenders(old(offenders), at)))
    {
      var stale := StaleKeys(ct, at);
      var left := stale;
      ghost var before, gone := View(), {};
      ForgetNothing(before.core);
      while left != {}
        invariant gone == stale - left
        invariant View() == before.(core := Forget(before.core, gone))
      {
        var key :| key in left;
        ForgetTwice(before.core, gone, key);
        ForgetConn(key);
        left, gone := left - {key}, gone + {key};
      }
      assert gone == stale;
      ExpireOffenders(at);
    }

    // ------------------------------------------------------------------------ input

    /** One captured frame; None when its headers do not parse. */
    method Feed(frame: Option<Frame>, at: real)
      requires Valid()
      modifies this
      ensures Valid() && events == old(events) + [Arrival(frame, at)]
      ensures PortalWithin(View().core, {}) && WithinSizes(spec, View().meters)
    {
      ReplayAppend(spec, Initial(givenBindings, givenMac), events, Arrival(frame, at));
      FeedCounted(frame, at);
      events := events + [Arrival(frame, at)];
      ReplaySound(spec, givenBindings, givenMac, events);
    }

    method FeedCounted(frame: Option<Frame>, at: real)
      modifies this
      ensures View() == Replay(spec, old(View()), [Arrival(frame, at)]) && events == old(events)
    {
      ReplayOne(spec, View(), Arrival(frame, at));
      frames := frames + 1;
      if frame.Some? {
        FeedParsed(frame.value, at);
      }
    }

    method FeedParsed(f: Frame, at: real)
      modifies this
      ensures View() == FeedFrame(spec, old(View()), f, at) && events == old(events)
    {
      SweepWhenDue(at);
      if f.FrameIpv4? && f.ip.src == spec.piIp && piMac.None? {
        piMac := Some(f.ip.mac);
      }
      FeedLearnt(f, at);
    }

    method SweepWhenDue(at: real)
      modifies this`ct, this`portal, this`offenders, this`nextSweep
      ensures View() == Sweep(old(View()), at)
    {
      if nextSweep.None? || at >= nextSweep.value {
        SweepAll(at);
        nextSweep := Some(at + 10.0);
      }
    }

    method FeedLearnt(f: Frame, at: real)
      modifies this
      ensures View() == FeedReady(spec, old(View()), f, at) && events == old(events)
    {
      if !Ingress(spec, piMac, f) {
        if f.FrameIpv4? {
          Track(f.ip, at);
        }
        return;
      }
      ingress := ingress + 1;
      match f {
        case FrameIpv6(mac) => StaticDrop(CIpv6, mac);
        case FrameArp(mac, sender, senderMac) =>
          if sender == spec.piIp || (sender in bindings && bindings[sender] != senderMac) {
            StaticDrop(CArpSpoof, mac);
          }
        case FrameOther(_) =>
        case FrameIpv4(ip) => FeedPacket(ip, at);
      }
    }

    method FeedPacket(f: Ipv4, at: real)
      modifies this
      ensures View() == FeedIpv4(spec, old(View()), f, at) && events == old(events)
    {
      if f.fragment {
        StaticDrop(CFrag, f.mac);
        return;
      }
      var passed := PrerouteRaw(f, at);
      if passed {
        passed := HookChain(f, at);
      }
      if passed {
        Track(f, at);
      }
    }

    // -------------------------------------------------------------------------- reads

    /**
     `@offenders` at some time, never more than its declared size: while time went forward, exactly those whose last
     trip is younger than the timeout.
     */
    method Offenders(at: real) returns (found: set<Offender>)
      requires Valid()
      modifies this`offenders, this`events
      ensures Valid() && events == old(events) + [Inquiry(at)]
      ensures found == set who | who in old(offenders) && old(offenders)[who] > at
      ensures spec.OffenderSize().Some? ==> |found| <= spec.OffenderSize().value
      ensures spec.OffenderTimeout() > 0.0 && MeterTrace.InOrder(events) ==>
        forall who :: who in found <==>
          var last := OffenderLaw.LastAt(trips, who);
          last.Some? && at < last.value + spec.OffenderTimeout()
    {
      ReplayAppend(spec, Initial(givenBindings, givenMac), events, Inquiry(at));
      ExpireNow(at);
      events := events + [Inquiry(at)];
      found := offenders.Keys;
      ReplaySound(spec, givenBindings, givenMac, events);
      if spec.OffenderTimeout() > 0.0 && MeterTrace.InOrder(events) {
        forall who ensures who in found <==> who in OffenderLaw.Barred(View(), at) {
        }
        forall who ensures who in OffenderLaw.Barred(View(), at) <==>
                             var last := OffenderLaw.LastAt(trips, who);
                             last.Some? && at < last.value + spec.OffenderTimeout() {
          OffenderLaw.BarredExactly(spec, givenBindings, givenMac, events, at, who);
        }
      }
    }

    method ExpireNow(at: real)
      modifies this`offenders
      ensures View() == Replay(spec, old(View()), [Inquiry(at)]) && offenders == LiveOffenders(old(offenders), at)
    {
      ReplayOne(spec, View(), Inquiry(at));
      ExpireOffenders(at);
    }

    /** The live elements of one set, within its declared size. */
    method SetFill(name: string, at: real) returns (live: nat, size: Option<nat>)
      requires Valid()
      modifies this`offenders, this`events
      ensures Valid() && events == old(events) + if name == "offenders" then [Inquiry(at)] else []
      ensures live ==
        if name == "offenders" then |LiveOffenders(old(offenders), at)| else |Unexpired(ElementsOf(buckets, name), at)|
      ensures size == if name in spec.sets then Some(spec.sets[name].size) else None
      ensures size.Some? ==> live <= size.value
    {
      size := if name in spec.sets then Some(spec.sets[name].size) else None;
      if name == "offenders" {
        var found := Offenders(at);
        assert found == LiveOffenders(old(offenders), at).Keys;
        live := |found|;
      } else {
        ReplaySound(spec, givenBindings, givenMac, events);
        live := |Unexpired(ElementsOf(buckets, name), at)|;
        assert events + [] == events;
      }
    }

    /** A guard's verdicts: its trips' hits and its backstops', all of them drops when it enforces, else none. */
    method VerdictHitsOf(guard: Guard) returns (hits: nat, drops: nat)
      requires Valid()
      ensures hits == TripHits(trips, guard) + BackstopTotal(spec, backstopHits, guard)
      ensures drops == if guard in spec.enforcing then hits else 0
    {
      ReplaySound(spec, givenBindings, givenMac, events);
      assert Balances(spec, View().books, guard);
      hits, drops := Count(verdictHits, guard), Count(guardDrops, guard);
    }
  }

  lemma ForgetNothing(c: Core)
    ensures Forget(c, {}) == c
  {
    assert Forget(c, {}).ct == c.ct;
    assert forall m :: m in c.portal ==> c.portal[m] - {} == c.portal[m];
    assert Forget(c, {}).portal == c.portal;
  }

  lemma ForgetTwice(c: Core, keys: set<CtKey>, key: CtKey)
    ensures Forget(Forget(c, keys), {key}) == Forget(c, keys + {key})
  {
    var one, both := Forget(Forget(c, keys), {key}), Forget(c, keys + {key});
    assert one.ct == both.ct;
    assert forall m :: m in c.portal ==> one.portal[m] == both.portal[m];
    assert one.portal == both.portal;
  }
}
