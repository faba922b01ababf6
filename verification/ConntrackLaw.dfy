/** What conntrack knows about a connection, told from the frames it tracked. */
module ConntrackLaw {
  import opened Prelude
  import opened NftNames
  import opened M = MeterSim
  import opened MeterTrace
  import PortalLaw

  // ------------------------------------------------------------------------- identity

  predicate SameWay(f: Ipv4, g: Ipv4) {
    f.src == g.src && f.dst == g.dst && PortOf(f.sport) == PortOf(g.sport) && PortOf(f.dport) == PortOf(g.dport)
  }

  predicate OtherWay(f: Ipv4, g: Ipv4) {
    f.src == g.dst && f.dst == g.src && PortOf(f.sport) == PortOf(g.dport) && PortOf(f.dport) == PortOf(g.sport)
  }

  /** Two frames belong to one connection exactly when protocol and endpoints agree up to direction. */
  lemma KeyIdentifies(f: Ipv4, g: Ipv4)
    ensures CtKeyOf(f) == CtKeyOf(g) <==> f.proto == g.proto && (SameWay(f, g) || OtherWay(f, g))
  {
  }

  // --------------------------------------------------------- an entry, from its frames

  /** A frame that conntrack took in, and when. */
  datatype Seen = Seen(f: Ipv4, at: real)

  /** Some frame came from another end than the first one did. */
  ghost predicate Replied(seen: seq<Seen>) {
    exists i :: 0 <= i < |seen| && !(seen[i].f.src == seen[0].f.src && seen[i].f.sport == seen[0].f.sport)
  }

  /** Some TCP frame carried FIN or RST. */
  ghost predicate Closing(seen: seq<Seen>) {
    exists i :: 0 <= i < |seen| && seen[i].f.proto == 6 && (FIN in seen[i].f.flags || RST in seen[i].f.flags)
  }

  /** How long after its last frame it is remembered, in seconds. */
  ghost function Patience(proto: nat, seen: seq<Seen>): real {
    if proto == 6 then (if Closing(seen) || !Replied(seen) then 120.0 else 432000.0)
    else if proto == 17 && Replied(seen) then 120.0
    else 30.0
  }

  ghost predicate Overdue(proto: nat, seen: seq<Seen>, at: real) {
    seen != [] && seen[|seen| - 1].at + Patience(proto, seen) <= at
  }

  ghost predicate Tells(conn: Conn, seen: seq<Seen>) {
    && seen != [] && conn.originIp == seen[0].f.src && conn.originPort == seen[0].f.sport
    && (conn.replied <==> Replied(seen)) && (conn.closing <==> Closing(seen)) && conn.last == seen[|seen| - 1].at
  }

  lemma StaleIsOverdue(conn: Conn, proto: nat, seen: seq<Seen>, at: real)
    requires Tells(conn, seen)
    ensures conn.Stale(proto, at) <==> Overdue(proto, seen, at)
  {
  }

  lemma SeenLonger(seen: seq<Seen>, x: Seen)
    requires seen != []
    ensures Replied(seen + [x]) <==> Replied(seen) || !(x.f.src == seen[0].f.src && x.f.sport == seen[0].f.sport)
    ensures Closing(seen + [x]) <==> Closing(seen) || (x.f.proto == 6 && (FIN in x.f.flags || RST in x.f.flags))
  {
    var all := seen + [x];
    assert forall i :: 0 <= i < |seen| ==> all[i] == seen[i];
    assert all[|seen|] == x;
    if Replied(seen) {
      var i :| 0 <= i < |seen| && !(seen[i].f.src == seen[0].f.src && seen[i].f.sport == seen[0].f.sport);
      assert !(all[i].f.src == all[0].f.src && all[i].f.sport == all[0].f.sport);
    }
    if Closing(seen) {
      var i :| 0 <= i < |seen| && seen[i].f.proto == 6 && (FIN in seen[i].f.flags || RST in seen[i].f.flags);
      assert all[i].f.proto == 6 && (FIN in all[i].f.flags || RST in all[i].f.flags);
    }
  }

  // ------------------------------------------------------------------ one connection

  /** The entry of `key` is told by `seen`; without one there was none, or it is overdue. */
  ghost predicate Follows(ct: Conns, key: CtKey, seen: seq<Seen>, now: real) {
    if key in ct then Tells(ct[key], seen) else seen == [] || Overdue(key.proto, seen, now)
  }

  /** What conntrack has seen of `key` once it has taken in `f`: an overdue connection starts over. */
  ghost function Watch(key: CtKey, seen: seq<Seen>, f: Ipv4, at: real): seq<Seen> {
    if CtKeyOf(f) != key then seen
    else if Overdue(key.proto, seen, at) then [Seen(f, at)]
    else seen + [Seen(f, at)]
  }

  lemma SweepFollows(c: Core, key: CtKey, seen: seq<Seen>, now: real, at: real)
    requires Follows(c.ct, key, seen, now) && now <= at
    ensures Follows(SweepConns(c, at).ct, key, seen, at)
  {
    if key in c.ct {
      StaleIsOverdue(c.ct[key], key.proto, seen, at);
    }
  }

  lemma TrackFollows(c: Core, key: CtKey, seen: seq<Seen>, f: Ipv4, at: real)
    requires Follows(c.ct, key, seen, at) && f.Tracked()
    ensures Follows(Conntrack(c, f, at).ct, key, Watch(key, seen, f, at), at)
  {
    if CtKeyOf(f) == key {
      if key in c.ct {
        StaleIsOverdue(c.ct[key], key.proto, seen, at);
      }
      if seen != [] {
        SeenLonger(seen, Seen(f, at));
      }
      var first := [Seen(f, at)];
      assert !Replied(first);
      assert Closing(first) <==> f.Closes() by {
        assert first[0] == Seen(f, at);
      }
    }
  }

  /**
   A frame is new exactly when conntrack has seen nothing of its connection, or that is overdue, or it comes from
   the end that opened it and the other end has not answered.
   */
  lemma NewExactly(ct: Conns, f: Ipv4, seen: seq<Seen>, now: real, at: real)
    requires Follows(ct, CtKeyOf(f), seen, now) && now <= at
    ensures IsNew(ct, f, at) <==>
      || seen == [] || Overdue(f.proto, seen, at)
      || (!Replied(seen) && f.src == seen[0].f.src && f.sport == seen[0].f.sport)
  {
    if CtKeyOf(f) in ct {
      StaleIsOverdue(ct[CtKeyOf(f)], f.proto, seen, at);
    }
  }

  // ---------------------------------------------------------------------- event by event

  /** The hooks let an entering frame through. */
  ghost predicate Accepts(spec: Spec, s: Sim, f: Ipv4, at: real) {
    !f.fragment && var (raw, routed) := Preroute(spec, s, f, at);
      routed && Hook(spec, raw, f, at).1
  }

  /** The frame that an event gives to conntrack: one the Pi sent, or one that was let through. */
  ghost function TrackedBy(spec: Spec, s: Sim, e: Event): Option<Ipv4> {
    if !(e.Arrival? && e.frame.Some? && e.frame.value.FrameIpv4?) then None
    else
      var f, ready := e.frame.value, Ready(spec, Tick(s), e.frame.value, e.at);
      if f.ip.Tracked() && (Ingress(spec, ready.core.piMac, f) ==>
                              Accepts(spec, ready.(core := Enter(ready.core)), f.ip, e.at))
      then Some(f.ip) else None
  }

  lemma ConnsDecide(c: Core, d: Core, f: Ipv4, at: real)
    requires c.ct == d.ct
    ensures Conntrack(c, f, at).ct == Conntrack(d, f, at).ct
    ensures !f.Tracked() ==> Conntrack(c, f, at) == c
  {
  }

  lemma HookConns(spec: Spec, s: Sim, f: Ipv4, at: real)
    ensures Hook(spec, s, f, at).0.core.ct == s.core.ct
  {
    PortalLaw.HookTables(spec, s, f, at);
    var isNew := IsNew(s.core.ct, f, at);
    PortalLaw.CheckedLaw(spec, RunChain(spec, s, InputChain(spec, f, isNew), f, at).0, f, at, f.mac, CtKeyOf(f));
  }

  lemma Ipv4Conns(spec: Spec, s: Sim, f: Ipv4, at: real)
    ensures FeedIpv4(spec, s, f, at).core.ct
         == if Accepts(spec, s, f, at) then Conntrack(s.core, f, at).ct else s.core.ct
  {
    if !f.fragment {
      var (raw, routed) := Preroute(spec, s, f, at);
      PortalLaw.PrerouteTables(spec, s, f, at);
      HookConns(spec, raw, f, at);
      ConnsDecide(Hook(spec, raw, f, at).0.core, s.core, f, at);
    }
  }

  lemma EventConns(spec: Spec, s: Sim, e: Event)
    ensures
      var swept := if e.Arrival? && e.frame.Some? then SweepConns(s.core, e.at) else s.core;
      Step(spec, s, e).core.ct == match TrackedBy(spec, s, e)
                                  case None => swept.ct
                                  case Some(f) => Conntrack(swept, f, e.at).ct
  {
    if e.Arrival? && e.frame.Some? {
      var f, ready := e.frame.value, Ready(spec, Tick(s), e.frame.value, e.at);
      assert ready.core.ct == SweepConns(s.core, e.at).ct;
      if f.FrameIpv4? {
        var entered := ready.(core := Enter(ready.core));
        Ipv4Conns(spec, entered, f.ip, e.at);
        ConnsDecide(entered.core, SweepConns(s.core, e.at), f.ip, e.at);
        ConnsDecide(ready.core, SweepConns(s.core, e.at), f.ip, e.at);
      }
    }
  }

  ghost function WatchEvent(spec: Spec, s: Sim, e: Event, key: CtKey, seen: seq<Seen>): seq<Seen> {
    match TrackedBy(spec, s, e)
    case None => seen
    case Some(f) => Watch(key, seen, f, e.at)
  }

  lemma EventFollows(spec: Spec, s: Sim, e: Event, key: CtKey, seen: seq<Seen>, now: real)
    requires Follows(s.core.ct, key, seen, now) && now <= e.at
    ensures Follows(Step(spec, s, e).core.ct, key, WatchEvent(spec, s, e, key, seen), e.at)
  {
    EventConns(spec, s, e);
    SweepFollows(s.core, key, seen, now, e.at);
    if TrackedBy(spec, s, e).Some? {
      TrackFollows(SweepConns(s.core, e.at), key, seen, TrackedBy(spec, s, e).value, e.at);
    }
  }

  /** The frames of one connection that a run gave to conntrack, since it last started over. */
  ghost function Watched(spec: Spec, s: Sim, events: seq<Event>, key: CtKey): seq<Seen> {
    if events == [] then []
    else
      var rest := events[..|events| - 1];
      WatchEvent(spec, Replay(spec, s, rest), events[|events| - 1], key, Watched(spec, s, rest, key))
  }

  /**
   Over every run in time order conntrack knows of each connection what the frames it took in say: who opened it,
   whether the other end answered, whether it is closing, and when it was last seen. It forgets only what is overdue.
   */
  lemma {:induction false} ConntrackExact(
    spec: Spec, bindings: map<Addr, Mac>, piMac: Option<Mac>, events: seq<Event>, now: real, key: CtKey)
    requires InOrder(events) && (events != [] ==> events[|events| - 1].at <= now)
    ensures
      var start := Initial(bindings, piMac);
      Follows(Replay(spec, start, events).core.ct, key, Watched(spec, start, events, key), now)
  {
    if events != [] {
      var start, rest, e := Initial(bindings, piMac), events[..|events| - 1], events[|events| - 1];
      assert Replay(spec, start, events) == ReplayLast(spec, start, events);
      ConntrackExact(spec, bindings, piMac, rest, e.at, key);
      EventFollows(spec, Replay(spec, start, rest), e, key, Watched(spec, start, rest, key), e.at);
    }
  }

  /** So whether a frame is new after any run in time order depends on the frames of its connection alone. */
  lemma NewInRuns(
    spec: Spec, bindings: map<Addr, Mac>, piMac: Option<Mac>, events: seq<Event>, f: Ipv4, at: real)
    requires InOrder(events) && (events != [] ==> events[|events| - 1].at <= at)
    ensures
      var start := Initial(bindings, piMac);
      var seen := Watched(spec, start, events, CtKeyOf(f));
      IsNew(Replay(spec, start, events).core.ct, f, at) <==>
        || seen == [] || Overdue(f.proto, seen, at)
        || (!Replied(seen) && f.src == seen[0].f.src && f.sport == seen[0].f.sport)
  {
    var start := Initial(bindings, piMac);
    ConntrackExact(spec, bindings, piMac, events, at, CtKeyOf(f));
    NewExactly(Replay(spec, start, events).core.ct, f, Watched(spec, start, events, CtKeyOf(f)), at, at);
  }
}
