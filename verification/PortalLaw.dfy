/** When exactly a connection is counted against its device's portal limit, over every run. */
module PortalLaw {
  import opened Prelude
  import opened NftNames
  import opened MeterSet
  import opened M = MeterSim

  // ------------------------------------------------------- the two tables of conntrack

  /** Tracked connections, and per device those counted against the portal limit. */
  datatype Tables = Tables(ct: Conns, portal: Portal)
  {
    ghost predicate Counts(mac: Mac, key: CtKey) { key in PortalOf(portal, mac) }

    /** The key has an entry that conntrack would forget at this time. */
    ghost predicate StaleAt(key: CtKey, at: real) { key in ct && ct[key].Stale(key.proto, at) }
  }

  function TablesOf(c: Core): Tables { Tables(c.ct, c.portal) }

  /** A stale entry was forgotten and made anew. */
  ghost predicate Renewed(before: Tables, after: Tables, key: CtKey, at: real) {
    before.StaleAt(key, at) && key in after.ct && !after.StaleAt(key, at)
  }

  lemma SweptLaw(c: Core, at: real, mac: Mac, key: CtKey)
    ensures
      var t, t' := TablesOf(c), TablesOf(SweepConns(c, at));
      var swept := SweepDue(c, at) && t.StaleAt(key, at);
      && (key in t'.ct <==> key in t.ct && !swept)
      && (key in t'.ct ==> t'.ct[key] == t.ct[key])
      && (t'.Counts(mac, key) <==> t.Counts(mac, key) && !swept)
  {
  }

  lemma TrackedLaw(c: Core, f: Ipv4, at: real, mac: Mac, key: CtKey)
    ensures
      var t, t' := TablesOf(c), TablesOf(Conntrack(c, f, at));
      var own := f.Tracked() && key == CtKeyOf(f);
      && (key in t'.ct <==> key in t.ct || own)
      && (key in t'.ct && !own ==> t'.ct[key] == t.ct[key])
      && (own ==> !t'.StaleAt(key, at))
      && (t'.Counts(mac, key) <==> t.Counts(mac, key) && !(own && t.StaleAt(key, at)))
  {
  }

  lemma TablesDecide(c: Core, d: Core, f: Ipv4, at: real)
    requires TablesOf(c) == TablesOf(d)
    ensures TablesOf(Conntrack(c, f, at)) == TablesOf(Conntrack(d, f, at))
  {
  }

  // ------------------------------------------------------------- one portal connection

  /** Refused exactly when the device is over its limit, its guard enforces and the offender set has room. */
  lemma PortalRefuses(spec: Spec, s: Sim, f: Ipv4, at: real)
    ensures
      var keys, who := PortalOf(s.core.portal, f.mac) + {CtKeyOf(f)}, (f.mac, PortalConcurrency);
      !PortalCheck(spec, s, f, at).1
      <==> |keys| > spec.portalConcurrency && Input in spec.enforcing
           && !Full(spec, RoomFor(spec, s.meters.offenders, who, at), who)
  {
  }

  /** What the portal rule and conntrack after it make of the tables. */
  ghost function Answered(spec: Spec, s: Sim, f: Ipv4, at: real): Tables {
    var (checked, passed) := PortalCheck(spec, s, f, at);
    TablesOf(if passed then Conntrack(checked.core, f, at) else checked.core)
  }

  lemma CheckedLaw(spec: Spec, s: Sim, f: Ipv4, at: real, mac: Mac, key: CtKey)
    ensures
      var (checked, passed) := PortalCheck(spec, s, f, at);
      var t, t' := TablesOf(s.core), TablesOf(checked.core);
      && t'.ct == t.ct
      && (t'.Counts(mac, key) <==> if mac == f.mac && key == CtKeyOf(f) then passed else t.Counts(mac, key))
  {
    var keys := PortalOf(s.core.portal, f.mac) + {CtKeyOf(f)};
    TripKeepsCore(spec, SetPortal(s, f.mac, keys), PortalConcurrency, Input, f.mac, at);
  }

  /**
   A portal connection, whatever became of it: it is counted from then on exactly when the rule let it pass and
   conntrack held no stale entry of its key. A refused one is not counted, tracked already or not.
   */
  lemma PortalCounted(spec: Spec, s: Sim, f: Ipv4, at: real)
    requires f.proto == TCP
    ensures Answered(spec, s, f, at).Counts(f.mac, CtKeyOf(f))
            <==> PortalCheck(spec, s, f, at).1 && !TablesOf(s.core).StaleAt(CtKeyOf(f), at)
  {
    CheckedLaw(spec, s, f, at, f.mac, CtKeyOf(f));
    TrackedLaw(PortalCheck(spec, s, f, at).0.core, f, at, f.mac, CtKeyOf(f));
  }

  // ------------------------------------------------------------------- one whole event

  /** The state in which a frame reaches the portal rule, if it does. */
  ghost function AskState(spec: Spec, s: Sim, f: Ipv4, at: real): Option<Sim> {
    if f.fragment then None
    else
      var (raw, routed) := Preroute(spec, s, f, at);
      if !routed || !(f.dst == spec.piIp || spec.Broadcast(f.dst)) then None
      else
        var isNew := IsNew(raw.core.ct, f, at);
        var (checked, passed) := RunChain(spec, raw, InputChain(spec, f, isNew), f, at);
        if passed && isNew && f.proto == TCP && f.ToAny(spec.portalPorts) then Some(checked) else None
  }

  ghost function Ask(spec: Spec, s: Sim, e: Event): Option<(Sim, Ipv4)> {
    if !e.Arrival? || e.frame.None? || !e.frame.value.FrameIpv4? then None
    else
      var f, ready := e.frame.value, Ready(spec, Tick(s), e.frame.value, e.at);
      if !Ingress(spec, ready.core.piMac, f) then None
      else
        var asked := AskState(spec, ready.(core := Enter(ready.core)), f.ip, e.at);
        if asked.Some? then Some((asked.value, f.ip)) else None
  }

  lemma UnicastTables(spec: Spec, s: Sim, f: Ipv4, at: real)
    ensures TablesOf(PrerouteUnicast(spec, s, f, at).0.core) == TablesOf(s.core)
  {
    var bindings := Learn(spec, s.core.bindings, f);
    var learnt := s.(core := s.core.(bindings := bindings));
    ChainKeepsCore(spec, learnt, FloodChain(spec, f, f.src in bindings), f, at);
  }

  lemma PrerouteTables(spec: Spec, s: Sim, f: Ipv4, at: real)
    ensures TablesOf(Preroute(spec, s, f, at).0.core) == TablesOf(s.core)
  {
    var gate := [Line(IsDhcp(f), Metered(Dhcp))];
    ChainKeepsCore(spec, s, gate, f, at);
    UnicastTables(spec, RunChain(spec, s, gate, f, at).0, f, at);
  }

  /** Past the raw chain: the portal rule answers, or nothing is counted and the frame may be tracked. */
  lemma HookTables(spec: Spec, s: Sim, f: Ipv4, at: real)
    ensures
      var (hooked, accepted) := Hook(spec, s, f, at);
      var isNew := IsNew(s.core.ct, f, at);
      var (checked, passed) := RunChain(spec, s, InputChain(spec, f, isNew), f, at);
      && TablesOf(checked.core) == TablesOf(s.core)
      && if (f.dst == spec.piIp || spec.Broadcast(f.dst)) && passed && isNew && f.proto == TCP
            && f.ToAny(spec.portalPorts)
         then (hooked, accepted) == PortalCheck(spec, checked, f, at)
         else TablesOf(hooked.core) == TablesOf(s.core)
  {
    var isNew := IsNew(s.core.ct, f, at);
    ChainKeepsCore(spec, s, InputChain(spec, f, isNew), f, at);
    ChainKeepsCore(spec, s, ForwardChain(f, isNew), f, at);
  }

  /** Without the portal rule a frame leaves the tables alone, or is tracked. */
  ghost predicate Quiet(before: Core, after: Core, f: Ipv4, at: real) {
    TablesOf(after) == TablesOf(before) || TablesOf(after) == TablesOf(Conntrack(before, f, at))
  }

  lemma Ipv4Tables(spec: Spec, s: Sim, f: Ipv4, at: real)
    ensures
      var asked, after := AskState(spec, s, f, at), FeedIpv4(spec, s, f, at);
      if asked.Some?
      then
        && f.proto == TCP && TablesOf(asked.value.core) == TablesOf(s.core)
        && TablesOf(after.core) == Answered(spec, asked.value, f, at)
      else Quiet(s.core, after.core, f, at)
  {
    if !f.fragment {
      var (raw, routed) := Preroute(spec, s, f, at);
      PrerouteTables(spec, s, f, at);
      if routed {
        HookTables(spec, raw, f, at);
        if AskState(spec, s, f, at).None? {
          TablesDecide(Hook(spec, raw, f, at).0.core, s.core, f, at);
        }
      }
    }
  }

  /** The tables after one event, from those after the sweep it may have caused. */
  lemma EventTables(spec: Spec, s: Sim, e: Event)
    requires e.Arrival? && e.frame.Some?
    ensures
      var asked, swept, after := Ask(spec, s, e), SweepConns(s.core, e.at), Step(spec, s, e).core;
      if asked.Some?
      then
        var (mid, f) := asked.value;
        f.proto == TCP && TablesOf(mid.core) == TablesOf(swept) && TablesOf(after) == Answered(spec, mid, f, e.at)
      else TablesOf(after) == TablesOf(swept) || exists f :: TablesOf(after) == TablesOf(Conntrack(swept, f, e.at))
  {
    var frame := e.frame.value;
    var ready := Ready(spec, Tick(s), frame, e.at);
    assert TablesOf(ready.core) == TablesOf(SweepConns(s.core, e.at));
    if frame.FrameIpv4? {
      TablesDecide(ready.core, SweepConns(s.core, e.at), frame.ip, e.at);
      if Ingress(spec, ready.core.piMac, frame) {
        var entered := ready.(core := Enter(ready.core));
        Ipv4Tables(spec, entered, frame.ip, e.at);
        TablesDecide(entered.core, SweepConns(s.core, e.at), frame.ip, e.at);
      }
    }
  }

  /** The event puts this device's connection to the portal rule. */
  ghost predicate Asks(spec: Spec, s: Sim, e: Event, mac: Mac, key: CtKey) {
    var asked := Ask(spec, s, e);
    asked.Some? && asked.value.1.mac == mac && CtKeyOf(asked.value.1) == key
  }

  /** The rule lets it pass, and no stale entry of its key is left for conntrack to forget. */
  ghost predicate Admits(spec: Spec, s: Sim, e: Event) {
    var asked := Ask(spec, s, e);
    && asked.Some?
    && PortalCheck(spec, asked.value.0, asked.value.1, e.at).1
    && !TablesOf(asked.value.0.core).StaleAt(CtKeyOf(asked.value.1), e.at)
  }

  /** A stale entry is left exactly when it was stale before the event and no sweep was due. */
  lemma StaleWhenAsked(spec: Spec, s: Sim, e: Event)
    requires Ask(spec, s, e).Some?
    ensures
      var (mid, f) := Ask(spec, s, e).value;
      TablesOf(mid.core).StaleAt(CtKeyOf(f), e.at)
      <==> TablesOf(s.core).StaleAt(CtKeyOf(f), e.at) && !SweepDue(s.core, e.at)
  {
    var (mid, f) := Ask(spec, s, e).value;
    EventTables(spec, s, e);
    SweptLaw(s.core, e.at, f.mac, CtKeyOf(f));
  }

  /** The connection is still tracked after the event, and its entry was not made anew. */
  ghost predicate Keeps(spec: Spec, s: Sim, e: Event, key: CtKey) {
    var before, after := TablesOf(s.core), TablesOf(Step(spec, s, e).core);
    key in after.ct && !Renewed(before, after, key, e.at)
  }

  lemma QuietLaw(spec: Spec, s: Sim, e: Event, mac: Mac, key: CtKey)
    requires PortalWithin(s.core, {}) && Ask(spec, s, e).None?
    ensures TablesOf(Step(spec, s, e).core).Counts(mac, key)
            <==> TablesOf(s.core).Counts(mac, key) && Keeps(spec, s, e, key)
  {
    if e.Arrival? && e.frame.Some? {
      var swept, after := SweepConns(s.core, e.at), TablesOf(Step(spec, s, e).core);
      EventTables(spec, s, e);
      SweptLaw(s.core, e.at, mac, key);
      if after != TablesOf(swept) {
        var f :| after == TablesOf(Conntrack(swept, f, e.at));
        TrackedLaw(swept, f, e.at, mac, key);
      }
    }
  }

  lemma AskedLaw(spec: Spec, s: Sim, e: Event, mac: Mac, key: CtKey)
    requires PortalWithin(s.core, {}) && Ask(spec, s, e).Some?
    ensures TablesOf(Step(spec, s, e).core).Counts(mac, key) <==>
      if Asks(spec, s, e, mac, key) then Admits(spec, s, e)
      else TablesOf(s.core).Counts(mac, key) && Keeps(spec, s, e, key)
  {
    var (mid, f) := Ask(spec, s, e).value;
    EventTables(spec, s, e);
    SweptLaw(s.core, e.at, mac, key);
    CheckedLaw(spec, mid, f, e.at, mac, key);
    TrackedLaw(PortalCheck(spec, mid, f, e.at).0.core, f, e.at, mac, key);
  }

  /**
   One event: a connection put to the portal rule is counted exactly when it is admitted; any other stays counted
   exactly while it is tracked and its entry is not made anew.
   */
  lemma EventLaw(spec: Spec, s: Sim, e: Event, mac: Mac, key: CtKey)
    requires PortalWithin(s.core, {})
    ensures TablesOf(Step(spec, s, e).core).Counts(mac, key) <==>
      if Asks(spec, s, e, mac, key) then Admits(spec, s, e)
      else TablesOf(s.core).Counts(mac, key) && Keeps(spec, s, e, key)
  {
    if Ask(spec, s, e).Some? {
      AskedLaw(spec, s, e, mac, key);
    } else {
      QuietLaw(spec, s, e, mac, key);
    }
  }

  // ------------------------------------------------------------------------ every run

  /** The state before the i-th event of a run. */
  ghost function StateAt(spec: Spec, start: Sim, events: seq<Event>, i: nat): Sim
    requires i <= |events|
  {
    Replay(spec, start, events[..i])
  }

  lemma StateStep(spec: Spec, start: Sim, events: seq<Event>, n: nat)
    requires n < |events|
    ensures StateAt(spec, start, events, n + 1) == Step(spec, StateAt(spec, start, events, n), events[n])
  {
    assert events[..n + 1][..n] == events[..n];
    assert Replay(spec, start, events[..n + 1]) == ReplayLast(spec, start, events[..n + 1]);
  }

  ghost predicate AdmittedAt(spec: Spec, start: Sim, events: seq<Event>, i: nat, mac: Mac, key: CtKey) {
    && i < |events|
    && Asks(spec, StateAt(spec, start, events, i), events[i], mac, key)
    && Admits(spec, StateAt(spec, start, events, i), events[i])
  }

  ghost predicate KeptAt(spec: Spec, start: Sim, events: seq<Event>, i: nat, mac: Mac, key: CtKey) {
    && i < |events|
    && !Asks(spec, StateAt(spec, start, events, i), events[i], mac, key)
    && Keeps(spec, StateAt(spec, start, events, i), events[i], key)
  }

  /** Something began at some step before `n`, and every step since kept it. */
  ghost predicate Since(n: nat, began: nat -> bool, kept: nat -> bool) {
    exists i: nat :: i < n && began(i) && forall j: nat :: i < j < n ==> kept(j)
  }

  lemma SinceStep(n: nat, began: nat -> bool, kept: nat -> bool)
    ensures Since(n + 1, began, kept) <==> began(n) || (Since(n, began, kept) && kept(n))
  {
    if Since(n, began, kept) && kept(n) {
      var i: nat :| i < n && began(i) && forall j: nat :: i < j < n ==> kept(j);
      assert forall j: nat :: i < j < n + 1 ==> kept(j);
    }
  }

  ghost function Began(spec: Spec, start: Sim, events: seq<Event>, mac: Mac, key: CtKey): nat -> bool {
    (i: nat) => AdmittedAt(spec, start, events, i, mac, key)
  }

  ghost function Kept(spec: Spec, start: Sim, events: seq<Event>, mac: Mac, key: CtKey): nat -> bool {
    (i: nat) => KeptAt(spec, start, events, i, mac, key)
  }

  /**
   Over every run, after each of its events: a connection is counted against a device exactly when some frame of
   the device put it to the portal rule and was admitted, and since then it was not put to the rule again, stayed
   tracked, and its entry was not made anew.
   */
  lemma {:induction false} PortalExact(
    spec: Spec, bindings: map<Addr, Mac>, piMac: Option<Mac>, events: seq<Event>, n: nat, mac: Mac, key: CtKey)
    requires n <= |events|
    ensures
      var start := Initial(bindings, piMac);
      TablesOf(StateAt(spec, start, events, n).core).Counts(mac, key)
      <==> Since(n, Began(spec, start, events, mac, key), Kept(spec, start, events, mac, key))
  {
    if n > 0 {
      var start := Initial(bindings, piMac);
      PortalExact(spec, bindings, piMac, events, n - 1, mac, key);
      ReplaySound(spec, bindings, piMac, events[..n - 1]);
      StateStep(spec, start, events, n - 1);
      EventLaw(spec, StateAt(spec, start, events, n - 1), events[n - 1], mac, key);
      SinceStep(n - 1, Began(spec, start, events, mac, key), Kept(spec, start, events, mac, key));
    }
  }

  // ---------------------------------------------------- a run with a stale entry left

  /** A set-up in which every guard observes and port 443 is the portal's. */
  ghost function PortalSetup(): Spec {
    Setup(map code: Code | code != PortalConcurrency :: MeterRule("meter", OffenderGuard(code), false, Rule(0.0, 0)),
          0, map[],
          map["meter" := Decl(None, 0)], {443}, {}, {443}, {}, {}, 10, 0, 255, false)
  }

  const PORTAL_SYN := Ipv4(2, 5, 10, TCP, false, Some(1000), Some(443), {SYN})

  /** The same SYN twice, 121 seconds apart, and some frame of another device shortly before the second. */
  const PORTAL_RUN := [
    Arrival(Some(FrameIpv4(PORTAL_SYN)), 0.0), Arrival(Some(FrameOther(7)), 115.0),
    Arrival(Some(FrameIpv4(PORTAL_SYN)), 121.0)]

  /** The core after the first SYN, whose entry goes stale at 120, when the next sweep is due at `due`. */
  ghost predicate AfterSyn(c: Core, due: real) {
    && c.piMac == None && c.nextSweep == Some(due) && c.bindings == map[5 := 2]
    && c.ct == map[CtKeyOf(PORTAL_SYN) := Conn(5, Some(1000), false, 0.0, false)]
    && PortalOf(c.portal, 2) == {CtKeyOf(PORTAL_SYN)}
  }

  lemma FirstSyn(c: Core)
    requires c.piMac == None && c.nextSweep == None && c.bindings == map[] && c.ct == map[] && c.portal == map[]
    ensures AfterSyn(PlainFeed(PortalSetup(), c, PORTAL_RUN[0].frame, 0.0), 10.0)
  {
  }

  lemma OtherFrame(c: Core)
    requires AfterSyn(c, 10.0)
    ensures AfterSyn(PlainFeed(PortalSetup(), c, PORTAL_RUN[1].frame, 115.0), 125.0)
  {
  }

  lemma SecondSyn(c: Core)
    requires AfterSyn(c, 125.0)
    ensures
      var after := PlainFeed(PortalSetup(), c, PORTAL_RUN[2].frame, 121.0);
      CtKeyOf(PORTAL_SYN) in after.ct && CtKeyOf(PORTAL_SYN) !in PortalOf(after.portal, 2)
  {
  }

  /** After this run the connection is tracked, and missing from its device's portal set. */
  lemma PortalMisses()
    ensures
      var c := Replay(PortalSetup(), Initial(map[], None), PORTAL_RUN).core;
      CtKeyOf(PORTAL_SYN) in c.ct && CtKeyOf(PORTAL_SYN) !in PortalOf(c.portal, 2)
  {
    var spec, c := PortalSetup(), Initial(map[], None).core;
    ObserveIsTransparent(spec, Initial(map[], None), PORTAL_RUN);
    var one := PlainFeed(spec, c, PORTAL_RUN[0].frame, 0.0);
    var two := PlainFeed(spec, one, PORTAL_RUN[1].frame, 115.0);
    assert PORTAL_RUN[..3] == PORTAL_RUN && PORTAL_RUN[..2][..1] == PORTAL_RUN[..1] && PORTAL_RUN[..1][..0] == [];
    assert PlainReplay(spec, c, PORTAL_RUN[..1]) == one;
    assert PlainReplay(spec, c, PORTAL_RUN[..2]) == two;
    FirstSyn(c);
    OtherFrame(one);
    SecondSyn(two);
  }

  // --------------------------------------------------- a run with a repeated SYN refused

  /** One connection per device, the input guard enforcing, room for one offender, and no meter that holds anything. */
  ghost function RefusalSetup(): Spec {
    Setup(map code: Code | code != PortalConcurrency :: MeterRule("meter", OffenderGuard(code), false, Rule(0.0, 0)),
          1, map[], map["meter" := Decl(None, 0), "offenders" := Decl(Some(5.0), 1)],
          {443}, {}, {443}, {}, {Input}, 10, 0, 255, false)
  }

  /** A SYN to the portal from the device with this MAC and address. */
  function Syn(mac: Mac, src: Addr, sport: nat): Ipv4 {
    Ipv4(mac, src, 10, TCP, false, Some(sport), Some(443), {SYN})
  }

  const B1 := Syn(4, 6, 1)
  const B2 := Syn(4, 6, 2)
  const K1 := Syn(2, 5, 1)
  const K2 := Syn(2, 5, 2)

  /** Device 4 fills the offender set; device 2 opens two connections meanwhile, and repeats the first SYN later. */
  const REFUSAL_RUN := [
    Arrival(Some(FrameIpv4(B1)), 0.0), Arrival(Some(FrameIpv4(B2)), 0.0), Arrival(Some(FrameIpv4(K1)), 1.0),
    Arrival(Some(FrameIpv4(K2)), 2.0), Arrival(Some(FrameIpv4(K1)), 8.0)]

  /** Meters empty, the Pi not seen yet, addresses bound to these two devices only, no sweep before time 10. */
  ghost predicate Calm(s: Sim) {
    && ElementsOf(s.meters.buckets, "meter") == map[] && s.core.piMac == None
    && (5 in s.core.bindings ==> s.core.bindings[5] == 2) && (6 in s.core.bindings ==> s.core.bindings[6] == 4)
  }

  /** A chain of meters that cannot create an element lets every packet go. */
  lemma {:induction false} ChainOpens(s: Sim, chain: seq<Line>, f: Ipv4, at: real)
    requires ElementsOf(s.meters.buckets, "meter") == map[]
    ensures
      var (after, passed) := RunChain(RefusalSetup(), s, chain, f, at);
      && passed && after.core == s.core && after.meters.offenders == s.meters.offenders
      && ElementsOf(after.meters.buckets, "meter") == map[]
    decreases |chain|
  {
    if chain != [] {
      var spec := RefusalSetup();
      ChainOpens(s, chain[1..], f, at);
      if chain[0].matches {
        assert RunChain(spec, s, chain, f, at) == RunMatch(spec, s, chain, f, at);
        CheckOpens(s, chain[0].check, f, at);
        ChainOpens(RunCheck(spec, s, chain[0].check, f, at).0, chain[1..], f, at);
      }
    }
  }

  lemma CheckOpens(s: Sim, check: Check, f: Ipv4, at: real)
    requires ElementsOf(s.meters.buckets, "meter") == map[]
    ensures
      var (after, passed) := RunCheck(RefusalSetup(), s, check, f, at);
      && passed && after.core == s.core && after.meters.offenders == s.meters.offenders
      && ElementsOf(after.meters.buckets, "meter") == map[]
  {
    if check.Metered? {
      var spec := RefusalSetup();
      assert spec.Declared(check.code) && spec.meters[check.code].name == "meter" && spec.sets["meter"].size == 0;
    }
  }

  /** What an event that reaches the portal rule does. */
  lemma AskedStep(spec: Spec, s: Sim, e: Event)
    requires Ask(spec, s, e).Some?
    ensures
      var (mid, f) := Ask(spec, s, e).value;
      var (checked, passed) := PortalCheck(spec, mid, f, e.at);
      Step(spec, s, e) == if passed then checked.(core := Conntrack(checked.core, f, e.at)) else checked
  {
  }

  /** A portal SYN of one of the two devices. */
  ghost predicate OfTheRun(f: Ipv4) {
    f.sport.Some? && (f == Syn(2, 5, f.sport.value) || f == Syn(4, 6, f.sport.value))
  }

  /** A new one reaches the portal rule, with the tables and offenders as the sweep left them. */
  lemma Knock(s: Sim, f: Ipv4, at: real) returns (mid: Sim)
    requires Calm(s) && OfTheRun(f) && IsNew(SweepConns(s.core, at).ct, f, at)
    ensures Ask(RefusalSetup(), s, Arrival(Some(FrameIpv4(f)), at)) == Some((mid, f))
    ensures Calm(mid) && TablesOf(mid.core) == TablesOf(SweepConns(s.core, at))
    ensures mid.core.nextSweep == SweepConns(s.core, at).nextSweep
    ensures mid.meters.offenders == Sweep(s, at).meters.offenders
  {
    var spec := RefusalSetup();
    var ready := Ready(spec, Tick(s), FrameIpv4(f), at);
    var entered := ready.(core := Enter(ready.core));
    assert Calm(entered) && TablesOf(entered.core) == TablesOf(SweepConns(s.core, at));
    mid := KnockIpv4(entered, f, at);
  }

  lemma KnockIpv4(s: Sim, f: Ipv4, at: real) returns (mid: Sim)
    requires Calm(s) && OfTheRun(f) && IsNew(s.core.ct, f, at)
    ensures AskState(RefusalSetup(), s, f, at) == Some(mid)
    ensures Calm(mid) && TablesOf(mid.core) == TablesOf(s.core) && mid.core.nextSweep == s.core.nextSweep
    ensures mid.meters.offenders == s.meters.offenders
  {
    var spec := RefusalSetup();
    var gate := [Line(IsDhcp(f), Metered(Dhcp))];
    ChainOpens(s, gate, f, at);
    var gated := RunChain(spec, s, gate, f, at).0;
    var bindings := Learn(spec, gated.core.bindings, f);
    var learnt := gated.(core := gated.core.(bindings := bindings));
    assert f.src in bindings && bindings[f.src] == f.mac;
    ChainOpens(learnt, FloodChain(spec, f, true), f, at);
    var raw := Preroute(spec, s, f, at).0;
    assert Preroute(spec, s, f, at) == RunChain(spec, learnt, FloodChain(spec, f, true), f, at);
    ChainOpens(raw, InputChain(spec, f, true), f, at);
    mid := RunChain(spec, raw, InputChain(spec, f, true), f, at).0;
  }

  /** No sweep before time 10; these offenders; these connections of device 2 counted; these keys untracked. */
  ghost predicate Stage(s: Sim, offenders: map<Offender, real>, counted: set<CtKey>, untracked: set<CtKey>) {
    && Calm(s) && s.core.nextSweep == Some(10.0) && s.meters.offenders == offenders
    && PortalOf(s.core.portal, 2) == counted && (forall k :: k in untracked ==> k !in s.core.ct)
  }

  ghost predicate FirstTracked(s: Sim) {
    CtKeyOf(K1) in s.core.ct && s.core.ct[CtKeyOf(K1)] == Conn(5, Some(1), false, 1.0, false)
  }

  const BLOCKED: map<Offender, real> := map[(4, PortalConcurrency) := 5.0]

  lemma StepB1(s: Sim) returns (s': Sim)
    requires s == Initial(map[], None)
    ensures s' == Replay(RefusalSetup(), s, [REFUSAL_RUN[0]])
    ensures Stage(s', map[], {}, {CtKeyOf(B2), CtKeyOf(K1), CtKeyOf(K2)})
    ensures PortalOf(s'.core.portal, 4) == {CtKeyOf(B1)}
  {
    var mid := Knock(s, B1, 0.0);
    AskedStep(RefusalSetup(), s, REFUSAL_RUN[0]);
    ReplayOne(RefusalSetup(), s, REFUSAL_RUN[0]);
    s' := Step(RefusalSetup(), s, REFUSAL_RUN[0]);
    assert |{CtKeyOf(B1)}| == 1;
    assert PortalOf(mid.core.portal, 4) + {CtKeyOf(B1)} == {CtKeyOf(B1)};
  }

  lemma StepB2(s: Sim) returns (s': Sim)
    requires Stage(s, map[], {}, {CtKeyOf(B2), CtKeyOf(K1), CtKeyOf(K2)}) && PortalOf(s.core.portal, 4) == {CtKeyOf(B1)}
    ensures s' == Replay(RefusalSetup(), s, [REFUSAL_RUN[1]])
    ensures Stage(s', BLOCKED, {}, {CtKeyOf(K1), CtKeyOf(K2)})
  {
    var mid := Knock(s, B2, 0.0);
    AskedStep(RefusalSetup(), s, REFUSAL_RUN[1]);
    ReplayOne(RefusalSetup(), s, REFUSAL_RUN[1]);
    s' := Step(RefusalSetup(), s, REFUSAL_RUN[1]);
    assert |{CtKeyOf(B1), CtKeyOf(B2)}| == 2;
    assert PortalOf(mid.core.portal, 4) + {CtKeyOf(B2)} == {CtKeyOf(B1), CtKeyOf(B2)};
    assert LiveOffenders(map[], 0.0) == map[];
  }

  lemma StepK1(s: Sim) returns (s': Sim)
    requires Stage(s, BLOCKED, {}, {CtKeyOf(K1), CtKeyOf(K2)})
    ensures s' == Replay(RefusalSetup(), s, [REFUSAL_RUN[2]])
    ensures Stage(s', BLOCKED, {CtKeyOf(K1)}, {CtKeyOf(K2)}) && FirstTracked(s')
  {
    var mid := Knock(s, K1, 1.0);
    AskedStep(RefusalSetup(), s, REFUSAL_RUN[2]);
    ReplayOne(RefusalSetup(), s, REFUSAL_RUN[2]);
    s' := Step(RefusalSetup(), s, REFUSAL_RUN[2]);
    assert |{CtKeyOf(K1)}| == 1;
    assert PortalOf(mid.core.portal, 2) + {CtKeyOf(K1)} == {CtKeyOf(K1)};
  }

  /** The second connection is over the limit, and passes because the offender set is full. */
  lemma PassesFull(mid: Sim) returns (checked: Sim)
    requires Stage(mid, BLOCKED, {CtKeyOf(K1)}, {CtKeyOf(K2)}) && FirstTracked(mid)
    ensures PortalCheck(RefusalSetup(), mid, K2, 2.0) == (checked, true)
    ensures Stage(checked, BLOCKED, {CtKeyOf(K1), CtKeyOf(K2)}, {CtKeyOf(K2)}) && FirstTracked(checked)
  {
    assert |{CtKeyOf(K1), CtKeyOf(K2)}| == 2;
    assert PortalOf(mid.core.portal, 2) + {CtKeyOf(K2)} == {CtKeyOf(K1), CtKeyOf(K2)};
    assert LiveOffenders(BLOCKED, 2.0) == BLOCKED && |BLOCKED| == 1;
    checked := PortalCheck(RefusalSetup(), mid, K2, 2.0).0;
  }

  lemma StepK2(s: Sim) returns (s': Sim)
    requires Stage(s, BLOCKED, {CtKeyOf(K1)}, {CtKeyOf(K2)}) && FirstTracked(s)
    ensures s' == Replay(RefusalSetup(), s, [REFUSAL_RUN[3]])
    ensures Stage(s', BLOCKED, {CtKeyOf(K1), CtKeyOf(K2)}, {}) && FirstTracked(s')
  {
    var mid := Knock(s, K2, 2.0);
    var checked := PassesFull(mid);
    AskedStep(RefusalSetup(), s, REFUSAL_RUN[3]);
    ReplayOne(RefusalSetup(), s, REFUSAL_RUN[3]);
    s' := checked.(core := Conntrack(checked.core, K2, 2.0));
  }

  lemma StepAgain(s: Sim) returns (s': Sim)
    requires Stage(s, BLOCKED, {CtKeyOf(K1), CtKeyOf(K2)}, {}) && FirstTracked(s)
    ensures s' == Replay(RefusalSetup(), s, [REFUSAL_RUN[4]])
    ensures FirstTracked(s') && CtKeyOf(K1) !in PortalOf(s'.core.portal, 2)
  {
    var mid := Knock(s, K1, 8.0);
    AskedStep(RefusalSetup(), s, REFUSAL_RUN[4]);
    ReplayOne(RefusalSetup(), s, REFUSAL_RUN[4]);
    s' := Step(RefusalSetup(), s, REFUSAL_RUN[4]);
    assert |{CtKeyOf(K1), CtKeyOf(K2)}| == 2;
    assert PortalOf(mid.core.portal, 2) + {CtKeyOf(K1)} == {CtKeyOf(K1), CtKeyOf(K2)};
    assert LiveOffenders(BLOCKED, 8.0) == map[];
  }

  /**
   After this run the first connection is tracked, with an entry that is not stale and never was, and it is missing
   from its device's portal set: its repeated SYN was refused.
   */
  lemma RefusalMisses()
    ensures
      var t := TablesOf(Replay(RefusalSetup(), Initial(map[], None), REFUSAL_RUN).core);
      CtKeyOf(K1) in t.ct && !t.StaleAt(CtKeyOf(K1), 8.0) && !t.Counts(2, CtKeyOf(K1))
  {
    var spec, start := RefusalSetup(), Initial(map[], None);
    assert REFUSAL_RUN[..5] == REFUSAL_RUN && REFUSAL_RUN[..0] == [];
    ReplayNext(spec, start, REFUSAL_RUN, 0);
    ReplayNext(spec, start, REFUSAL_RUN, 1);
    ReplayNext(spec, start, REFUSAL_RUN, 2);
    ReplayNext(spec, start, REFUSAL_RUN, 3);
    ReplayNext(spec, start, REFUSAL_RUN, 4);
    var s := StepB1(start);
    s := StepB2(s);
    s := StepK1(s);
    s := StepK2(s);
    s := StepAgain(s);
  }

  lemma ReplayNext(spec: Spec, start: Sim, events: seq<Event>, n: nat)
    requires n < |events|
    ensures Replay(spec, start, events[..n + 1]) == Replay(spec, Replay(spec, start, events[..n]), [events[n]])
  {
    ReplayAppend(spec, start, events[..n], events[n]);
    assert events[..n] + [events[n]] == events[..n + 1];
  }
}
