/** Who is in `@offenders`, and for how long, over every run of the simulator. */
module OffenderLaw {
  import opened Prelude
  import opened NftNames
  import opened MeterSet
  import opened Tallies
  import opened M = MeterSim
  import opened MeterTrace

  // ------------------------------------------------------------------------- one trip

  /** The hits of one offender, and when the last of them was. */
  ghost function HitsOf(trips: seq<Trip>, who: Offender): nat {
    if trips == [] then 0 else if trips[0].who == who then trips[0].hits else HitsOf(trips[1..], who)
  }

  ghost function LastAt(trips: seq<Trip>, who: Offender): Option<real> {
    if trips == [] then None else if trips[0].who == who then Some(trips[0].lastAt) else LastAt(trips[1..], who)
  }

  lemma {:induction false} StrikeTells(trips: seq<Trip>, who: Offender, at: real, other: Offender)
    ensures HitsOf(Strike(trips, who, at), other) == HitsOf(trips, other) + if other == who then 1 else 0
    ensures LastAt(Strike(trips, who, at), other) == if other == who then Some(at) else LastAt(trips, other)
  {
    if trips != [] && trips[0].who != who {
      StrikeTells(trips[1..], who, at, other);
    }
  }

  /** The offender set has no room for `who`: it is not there, and as many others are that have not expired. */
  ghost predicate NoRoom(spec: Spec, s: Sim, who: Offender, at: real) {
    && who !in s.meters.offenders && "offenders" in spec.sets
    && |set k | k in s.meters.offenders && s.meters.offenders[k] > at| >= spec.sets["offenders"].size
  }

  lemma NoRoomIsFull(spec: Spec, s: Sim, who: Offender, at: real)
    ensures NoRoom(spec, s, who, at) <==> Full(spec, RoomFor(spec, s.meters.offenders, who, at), who)
  {
    var offenders := s.meters.offenders;
    var live := LiveOffenders(offenders, at);
    assert live.Keys == set k | k in offenders && offenders[k] > at;
    assert |live| == |live.Keys|;
  }

  /** All a trip does: without room nothing but a count; else a hit, a verdict, and a drop if the guard enforces. */
  lemma TripExact(spec: Spec, s: Sim, code: Code, guard: Guard, mac: Mac, at: real)
    ensures
      var who, (after, passed) := (mac, code), TripRule(spec, s, code, guard, mac, at);
      if NoRoom(spec, s, who, at) then
        passed && after.books == s.books && after.meters.offendersFull == s.meters.offendersFull + 1
      else
        && after.meters.offendersFull == s.meters.offendersFull
        && who in after.meters.offenders && after.meters.offenders[who] == at + spec.OffenderTimeout()
        && (forall k :: HitsOf(after.books.trips, k) == HitsOf(s.books.trips, k) + if k == who then 1 else 0)
        && (forall g :: Count(after.books.verdictHits, g)
                        == Count(s.books.verdictHits, g) + if g == guard then 1 else 0)
        && (forall g :: Count(after.books.guardDrops, g)
                        == Count(s.books.guardDrops, g) + if g == guard && g in spec.enforcing then 1 else 0)
        && passed == (guard !in spec.enforcing)
  {
    var who := (mac, code);
    NoRoomIsFull(spec, s, who, at);
    forall k ensures HitsOf(Strike(s.books.trips, who, at), k) == HitsOf(s.books.trips, k) + if k == who then 1 else 0 {
      StrikeTells(s.books.trips, who, at, k);
    }
    forall g ensures Count(Bump(s.books.verdictHits, guard), g)
                  == Count(s.books.verdictHits, g) + if g == guard then 1 else 0 {
      BumpCounts(s.books.verdictHits, guard, g);
    }
    forall g ensures Count(Bump(s.books.guardDrops, guard), g)
                  == Count(s.books.guardDrops, g) + if g == guard then 1 else 0 {
      BumpCounts(s.books.guardDrops, guard, g);
    }
  }

  // ------------------------------------------------------------- steps at one moment

  /** What part of an event does to one offender: a trip, or nothing but that an expired entry may go. */
  ghost predicate Stays(spec: Spec, s: Sim, t: Sim, at: real, who: Offender) {
    || (LastAt(t.books.trips, who) == Some(at) && who in t.meters.offenders
        && t.meters.offenders[who] == at + spec.OffenderTimeout())
    || (LastAt(t.books.trips, who) == LastAt(s.books.trips, who)
        && if who in t.meters.offenders
           then who in s.meters.offenders && t.meters.offenders[who] == s.meters.offenders[who]
           else who in s.meters.offenders ==> s.meters.offenders[who] <= at)
  }

  ghost predicate Steps(spec: Spec, s: Sim, t: Sim, at: real) {
    forall who :: Stays(spec, s, t, at, who)
  }

  /** The offenders that have not expired. */
  ghost function Barred(s: Sim, at: real): set<Offender> {
    set k | k in s.meters.offenders && s.meters.offenders[k] > at
  }

  /** Barred, or the set is full of others that are. */
  ghost predicate Noted(spec: Spec, s: Sim, who: Offender, at: real) {
    who in Barred(s, at) || ("offenders" in spec.sets && |Barred(s, at)| >= spec.sets["offenders"].size)
  }

  ghost predicate AnyOver(log: Log) { exists i :: 0 <= i < |log| && log[i].outcome == Over }

  /** From `s` to `t` the rule was asked as the log says, and whoever was over is noted. */
  ghost predicate Notes(spec: Spec, s: Sim, t: Sim, at: real, log: Log, who: Offender) {
    Steps(spec, s, t, at) && (AnyOver(log) ==> Noted(spec, t, who, at))
  }

  lemma StaysOn(spec: Spec, s: Sim, t: Sim, u: Sim, at: real, who: Offender)
    requires Stays(spec, s, t, at, who) && Stays(spec, t, u, at, who) && spec.OffenderTimeout() > 0.0
    ensures Stays(spec, s, u, at, who)
  {
  }

  lemma BarredGrows(spec: Spec, s: Sim, t: Sim, at: real)
    requires Steps(spec, s, t, at) && spec.OffenderTimeout() > 0.0
    ensures Barred(s, at) <= Barred(t, at) && |Barred(s, at)| <= |Barred(t, at)|
  {
    forall k | k in Barred(s, at) ensures k in Barred(t, at) {
      assert Stays(spec, s, t, at, k);
    }
    SubsetSize(Barred(s, at), Barred(t, at));
  }

  lemma NotesThen(spec: Spec, s: Sim, t: Sim, u: Sim, at: real, a: Log, b: Log, who: Offender)
    requires Notes(spec, s, t, at, a, who) && Notes(spec, t, u, at, b, who) && spec.OffenderTimeout() > 0.0
    ensures Notes(spec, s, u, at, a + b, who)
  {
    forall k ensures Stays(spec, s, u, at, k) {
      assert Stays(spec, s, t, at, k) && Stays(spec, t, u, at, k);
      StaysOn(spec, s, t, u, at, k);
    }
    BarredGrows(spec, t, u, at);
    if AnyOver(a + b) {
      var i :| 0 <= i < |a + b| && (a + b)[i].outcome == Over;
      assert if i < |a| then a[i].outcome == Over else b[i - |a|].outcome == Over;
    }
  }

  /** Neither the offenders nor the trips change. */
  lemma Quiet(spec: Spec, s: Sim, t: Sim, at: real, who: Offender)
    requires s.meters.offenders == t.meters.offenders && s.books.trips == t.books.trips
    ensures Notes(spec, s, t, at, [], who)
  {
  }

  lemma TripSteps(spec: Spec, s: Sim, code: Code, guard: Guard, mac: Mac, at: real)
    requires spec.OffenderTimeout() > 0.0
    ensures Steps(spec, s, TripRule(spec, s, code, guard, mac, at).0, at)
    ensures Noted(spec, TripRule(spec, s, code, guard, mac, at).0, (mac, code), at)
  {
    var who, after := (mac, code), TripRule(spec, s, code, guard, mac, at).0;
    TripExact(spec, s, code, guard, mac, at);
    forall k ensures Stays(spec, s, after, at, k) {
      StrikeTells(s.books.trips, who, at, k);
    }
    if NoRoom(spec, s, who, at) {
      assert Barred(after, at) == Barred(s, at);
    }
  }

  // -------------------------------------------------------------------- frame by frame

  lemma CheckNotes(spec: Spec, s: Sim, check: Check, f: Ipv4, at: real, code: MeterCode)
    requires spec.OffenderTimeout() > 0.0
    ensures Notes(spec, s, RunCheck(spec, s, check, f, at).0, at, CheckLog(spec, s, check, f, at, Metered(code)),
                  (f.mac, code))
  {
    match check {
      case Metered(asked) =>
        var drawn := Drawn(spec, s, check, f, at);
        MeterDecides(spec, s, asked, f, at);
        MeterNotes(spec, s, asked, f, at, drawn, (f.mac, code));
        assert AnyOver(CheckLog(spec, s, check, f, at, Metered(code))) ==> asked == code && drawn.1 == Over;
      case Backstopped(name) => Quiet(spec, s, BackstopCheck(spec, s, name, at).0, at, (f.mac, code));
    }
  }

  lemma MeterNotes(
    spec: Spec, s: Sim, asked: MeterCode, f: Ipv4, at: real, drawn: (MeterSet.Elements<MeterKey>, Outcome),
    who: Offender)
    requires spec.OffenderTimeout() > 0.0
    ensures
      var t := Police(spec, s, asked, f.mac, at, drawn).0;
      Steps(spec, s, t, at) && (drawn.1 == Over && who == (f.mac, asked) ==> Noted(spec, t, who, at))
  {
    assert spec.Declared(asked);
    var rule := spec.meters[asked];
    var metered := s.(meters := s.meters.(buckets := s.meters.buckets[rule.name := drawn.0]));
    Quiet(spec, s, metered, at, who);
    if drawn.1 == Over {
      TripSteps(spec, metered, asked, rule.guard, f.mac, at);
      var t := TripRule(spec, metered, asked, rule.guard, f.mac, at).0;
      forall k ensures Stays(spec, s, t, at, k) {
        assert Stays(spec, metered, t, at, k);
      }
    } else {
      Quiet(spec, s, Police(spec, s, asked, f.mac, at, drawn).0, at, who);
    }
  }

  lemma {:induction false} ChainNotes(spec: Spec, s: Sim, chain: seq<Line>, f: Ipv4, at: real, code: MeterCode)
    requires spec.OffenderTimeout() > 0.0
    ensures Notes(spec, s, RunChain(spec, s, chain, f, at).0, at, ChainLog(spec, s, chain, f, at, Metered(code)),
                  (f.mac, code))
    decreases |chain|, 1
  {
    if chain == [] {
      Quiet(spec, s, s, at, (f.mac, code));
    } else if !chain[0].matches {
      ChainNotes(spec, s, chain[1..], f, at, code);
    } else {
      MatchNotes(spec, s, chain, f, at, code);
    }
  }

  lemma MatchNotes(spec: Spec, s: Sim, chain: seq<Line>, f: Ipv4, at: real, code: MeterCode)
    requires spec.OffenderTimeout() > 0.0 && chain != []
    ensures Notes(spec, s, RunMatch(spec, s, chain, f, at).0, at, MatchLog(spec, s, chain, f, at, Metered(code)),
                  (f.mac, code))
    decreases |chain|, 0
  {
    var rule := Metered(code);
    var asked := CheckLog(spec, s, chain[0].check, f, at, rule);
    var (after, passed) := RunCheck(spec, s, chain[0].check, f, at);
    CheckNotes(spec, s, chain[0].check, f, at, code);
    if passed {
      ChainNotes(spec, after, chain[1..], f, at, code);
      NotesThen(spec, s, after, RunChain(spec, after, chain[1..], f, at).0, at, asked,
                ChainLog(spec, after, chain[1..], f, at, rule), (f.mac, code));
    } else {
      assert asked + [] == asked;
    }
  }

  lemma UnicastNotes(spec: Spec, s: Sim, f: Ipv4, at: real, code: MeterCode)
    requires spec.OffenderTimeout() > 0.0
    ensures Notes(spec, s, PrerouteUnicast(spec, s, f, at).0, at, UnicastLog(spec, s, f, at, Metered(code)),
                  (f.mac, code))
  {
    var who, after := (f.mac, code), PrerouteUnicast(spec, s, f, at).0;
    var bindings := Learn(spec, s.core.bindings, f);
    var learnt := s.(core := s.core.(bindings := bindings));
    if !spec.Protected(f.src) || f.src == spec.piIp || (f.src in bindings && bindings[f.src] != f.mac) {
      Quiet(spec, s, after, at, who);
    } else {
      var chain := FloodChain(spec, f, f.src in bindings);
      var log := ChainLog(spec, learnt, chain, f, at, Metered(code));
      Quiet(spec, s, learnt, at, who);
      ChainNotes(spec, learnt, chain, f, at, code);
      NotesThen(spec, s, learnt, after, at, [], log, who);
      assert [] + log == log;
    }
  }

  lemma PrerouteNotes(spec: Spec, s: Sim, f: Ipv4, at: real, code: MeterCode)
    requires spec.OffenderTimeout() > 0.0
    ensures Notes(spec, s, Preroute(spec, s, f, at).0, at, PrerouteLog(spec, s, f, at, Metered(code)), (f.mac, code))
  {
    var gate, rule := [Line(IsDhcp(f), Metered(Dhcp))], Metered(code);
    var asked := ChainLog(spec, s, gate, f, at, rule);
    var (gated, passed) := RunChain(spec, s, gate, f, at);
    ChainNotes(spec, s, gate, f, at, code);
    if !passed || (IsDhcp(f) && f.src == 0) || spec.Broadcast(f.dst) {
      assert asked + [] == asked;
    } else {
      UnicastNotes(spec, gated, f, at, code);
      NotesThen(spec, s, gated, PrerouteUnicast(spec, gated, f, at).0, at, asked,
                UnicastLog(spec, gated, f, at, rule), (f.mac, code));
    }
  }

  lemma PortalNotes(spec: Spec, s: Sim, f: Ipv4, at: real, who: Offender)
    requires spec.OffenderTimeout() > 0.0
    ensures Notes(spec, s, PortalCheck(spec, s, f, at).0, at, [], who)
  {
    var keys := PortalOf(s.core.portal, f.mac) + {CtKeyOf(f)};
    var added, after := SetPortal(s, f.mac, keys), PortalCheck(spec, s, f, at).0;
    TripSteps(spec, added, PortalConcurrency, Input, f.mac, at);
    var tripped := TripRule(spec, added, PortalConcurrency, Input, f.mac, at).0;
    forall k ensures Stays(spec, s, after, at, k) {
      assert Stays(spec, added, tripped, at, k);
    }
  }

  lemma HookNotes(spec: Spec, s: Sim, f: Ipv4, at: real, code: MeterCode)
    requires spec.OffenderTimeout() > 0.0
    ensures Notes(spec, s, Hook(spec, s, f, at).0, at, HookLog(spec, s, f, at, Metered(code)), (f.mac, code))
  {
    var who, rule, isNew := (f.mac, code), Metered(code), IsNew(s.core.ct, f, at);
    var after := Hook(spec, s, f, at).0;
    if f.dst == spec.piIp || spec.Broadcast(f.dst) {
      var chain := InputChain(spec, f, isNew);
      var mid, log := RunChain(spec, s, chain, f, at).0, ChainLog(spec, s, chain, f, at, rule);
      ChainNotes(spec, s, chain, f, at, code);
      PortalNotes(spec, mid, f, at, who);
      Quiet(spec, mid, mid, at, who);
      NotesThen(spec, s, mid, after, at, log, [], who);
      assert log + [] == log;
    } else if spec.Protected(f.dst) || ((f.proto == TCP || f.proto == UDP) && f.ToAny(spec.dnsBypassPorts)) {
      Quiet(spec, s, after, at, who);
    } else {
      ChainNotes(spec, s, ForwardChain(f, isNew), f, at, code);
    }
  }

  lemma Ipv4Notes(spec: Spec, s: Sim, f: Ipv4, at: real, code: MeterCode)
    requires spec.OffenderTimeout() > 0.0
    ensures Notes(spec, s, FeedIpv4(spec, s, f, at), at, Ipv4Log(spec, s, f, at, Metered(code)), (f.mac, code))
  {
    var who, rule, after := (f.mac, code), Metered(code), FeedIpv4(spec, s, f, at);
    if f.fragment {
      Quiet(spec, s, after, at, who);
    } else {
      var first := PrerouteLog(spec, s, f, at, rule);
      var (raw, routed) := Preroute(spec, s, f, at);
      PrerouteNotes(spec, s, f, at, code);
      if routed {
        var hooked, log := Hook(spec, raw, f, at).0, HookLog(spec, raw, f, at, rule);
        HookNotes(spec, raw, f, at, code);
        NotesThen(spec, s, raw, hooked, at, first, log, who);
        Quiet(spec, hooked, after, at, who);
        NotesThen(spec, s, hooked, after, at, first + log, [], who);
        assert first + log + [] == first + log;
      } else {
        assert first + [] == first;
      }
    }
  }

  // ---------------------------------------------------------------------- event by event

  lemma ReadySteps(spec: Spec, s: Sim, f: Frame, at: real)
    ensures Steps(spec, s, Ready(spec, Tick(s), f, at), at)
  {
  }

  lemma StepsThen(spec: Spec, s: Sim, t: Sim, u: Sim, at: real)
    requires Steps(spec, s, t, at) && Steps(spec, t, u, at) && spec.OffenderTimeout() > 0.0
    ensures Steps(spec, s, u, at)
  {
    forall k ensures Stays(spec, s, u, at, k) {
      assert Stays(spec, s, t, at, k) && Stays(spec, t, u, at, k);
      StaysOn(spec, s, t, u, at, k);
    }
  }

  /** The device a frame comes from. */
  ghost function Sender(e: Event): Mac {
    if e.Arrival? && e.frame.Some? then e.frame.value.SrcMac() else 0
  }

  lemma ReadyNotes(spec: Spec, s: Sim, f: Frame, at: real, code: MeterCode)
    requires spec.OffenderTimeout() > 0.0
    ensures Notes(spec, s, FeedReady(spec, s, f, at), at, ReadyLog(spec, s, f, at, Metered(code)), (f.SrcMac(), code))
  {
    var who, after := (f.SrcMac(), code), FeedReady(spec, s, f, at);
    if f.FrameIpv4? && Ingress(spec, s.core.piMac, f) {
      var entered := s.(core := Enter(s.core));
      var log := Ipv4Log(spec, entered, f.ip, at, Metered(code));
      Quiet(spec, s, entered, at, who);
      Ipv4Notes(spec, entered, f.ip, at, code);
      NotesThen(spec, s, entered, after, at, [], log, who);
      assert [] + log == log;
    } else {
      Quiet(spec, s, after, at, who);
    }
  }

  /**
   A device that was over any limit of its own is barred once the frame is through, or the offender set is full of
   others that are; and nothing else but expiry and trips touches the set.
   */
  lemma OverIsNoted(spec: Spec, s: Sim, e: Event, code: MeterCode)
    requires spec.OffenderTimeout() > 0.0
    ensures Notes(spec, s, Step(spec, s, e), e.at, EventLog(spec, s, e, Metered(code)), (Sender(e), code))
  {
    var who, after := (Sender(e), code), Step(spec, s, e);
    if e.Arrival? && e.frame.Some? {
      var f, ready := e.frame.value, Ready(spec, Tick(s), e.frame.value, e.at);
      ReadySteps(spec, s, f, e.at);
      ReadyNotes(spec, ready, f, e.at, code);
      StepsThen(spec, s, ready, after, e.at);
    }
  }

  // ------------------------------------------------------------------------- every run

  /** An entry is the last trip's time and the timeout; one that is gone had expired. */
  ghost predicate Tells(spec: Spec, s: Sim, now: real, who: Offender) {
    var last := LastAt(s.books.trips, who);
    && (who in s.meters.offenders ==>
          last.Some? && s.meters.offenders[who] == last.value + spec.OffenderTimeout())
    && (who !in s.meters.offenders && last.Some? ==> last.value + spec.OffenderTimeout() <= now)
  }

  lemma StepTells(spec: Spec, s: Sim, t: Sim, now: real, at: real, who: Offender)
    requires Tells(spec, s, now, who) && now <= at && Steps(spec, s, t, at)
    ensures Tells(spec, t, at, who)
  {
    assert Stays(spec, s, t, at, who);
  }

  lemma {:induction false} RunTells(
    spec: Spec, bindings: map<Addr, Mac>, piMac: Option<Mac>, events: seq<Event>, now: real, who: Offender)
    requires spec.OffenderTimeout() > 0.0 && InOrder(events) && (events != [] ==> events[|events| - 1].at <= now)
    ensures Tells(spec, Replay(spec, Initial(bindings, piMac), events), now, who)
  {
    if events != [] {
      var start, rest, e := Initial(bindings, piMac), events[..|events| - 1], events[|events| - 1];
      assert Replay(spec, start, events) == ReplayLast(spec, start, events);
      RunTells(spec, bindings, piMac, rest, e.at, who);
      OverIsNoted(spec, Replay(spec, start, rest), e, SynPps);
      StepTells(spec, Replay(spec, start, rest), Replay(spec, start, events), e.at, e.at, who);
    }
  }

  /** Over every run in time order: an offender is barred exactly while its last trip is younger than the timeout. */
  lemma BarredExactly(
    spec: Spec, bindings: map<Addr, Mac>, piMac: Option<Mac>, events: seq<Event>, at: real, who: Offender)
    requires spec.OffenderTimeout() > 0.0 && InOrder(events) && (events != [] ==> events[|events| - 1].at <= at)
    ensures
      var s := Replay(spec, Initial(bindings, piMac), events);
      var last := LastAt(s.books.trips, who);
      who in Barred(s, at) <==> last.Some? && at < last.value + spec.OffenderTimeout()
  {
    RunTells(spec, bindings, piMac, events, at, who);
  }
}
