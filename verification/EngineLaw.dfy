/** What the engine announces, counts and evicts, over every run. */
module EngineLaw {
  import opened Prelude
  import opened OrderedDict
  import opened Frames
  import opened NativeParser
  import opened Flows
  import opened A = Aggregator
  import FrameLayout
  import ParserParity

  // ------------------------------------------------------------------- routable addresses

  /** Of the addresses of 32 bits, these are left out: 0.0.0.0, 127/8, 169.254/16 and everything from 224.0.0.0 on. */
  predicate Ordinary(address: nat) {
    && address != 0 && !(0x7F00_0000 <= address < 0x8000_0000) && !(0xA9FE_0000 <= address < 0xA9FF_0000)
    && address < 0xE000_0000
  }

  /** The last address of the protected network, where a network has one of its own for broadcast. */
  predicate IsBroadcast(net: Option<(nat, nat)>, address: nat) {
    net.Some? && net.value.1 < 31
    && address == net.value.0 / HostSize(net.value.1) * HostSize(net.value.1) + HostSize(net.value.1) - 1
  }

  lemma HostSizes()
    ensures HostSize(4) == 0x1000_0000 && HostSize(8) == 0x100_0000 && HostSize(16) == 0x1_0000
  {
    assert Pow2(4) == 16 && Pow2(8) == 256;
    assert Pow2(12) == 4096 && Pow2(16) == 0x1_0000;
    assert Pow2(20) == 0x10_0000 && Pow2(24) == 0x100_0000;
    assert Pow2(28) == 0x1000_0000;
  }

  lemma RoutableExactly(config: Config, address: nat)
    requires address < 0x1_0000_0000
    ensures Routable(config, address) <==> Ordinary(address) && !IsBroadcast(config.protectedNet, address)
  {
    HostSizes();
  }

  lemma {:induction false} NumberBounded(octets: seq<Byte>)
    ensures FrameLayout.Number(octets) < PowerOf256(|octets|)
  {
    if octets != [] {
      NumberBounded(octets[..|octets| - 1]);
    }
  }

  ghost function PowerOf256(n: nat): nat {
    if n == 0 then 1 else 256 * PowerOf256(n - 1)
  }

  predicate Reaches(config: Config, address: nat) {
    Ordinary(address) && !IsBroadcast(config.protectedNet, address)
  }

  /** A frame of IPv4 contributes its packet exactly when both its addresses are ordinary. */
  lemma AdmittedExactly(config: Config, f: FrameLayout.Ipv4Frame, tsUs: int)
    requires f.Fits()
    ensures Admitted(config, f.Octets(), tsUs) ==
      if Reaches(config, FrameLayout.Number(f.src)) && Reaches(config, FrameLayout.Number(f.dst))
      then [f.Read(tsUs)] else []
  {
    FrameLayout.NativeRoundTrip(f, tsUs);
    NumberBounded(f.src);
    NumberBounded(f.dst);
    assert PowerOf256(1) == 256 && PowerOf256(2) == 0x1_0000 && PowerOf256(3) == 0x100_0000;
    RoutableExactly(config, FrameLayout.Number(f.src));
    RoutableExactly(config, FrameLayout.Number(f.dst));
  }

  /** No other frame contributes anything. */
  lemma OthersNotAdmitted(config: Config, raw: seq<Byte>, tsUs: int)
    requires Admitted(config, raw, tsUs) != []
    ensures exists f: FrameLayout.Ipv4Frame :: f.Fits() && f.Octets() == raw
  {
    var f := FrameLayout.AcceptedWasLaidOut(raw, tsUs);
  }

  // -------------------------------------------------------------------------- counters

  /** The frames of a run, and those that did not parse. */
  ghost function FramesFed(ops: seq<Op>, broken: bool): nat {
    if ops == [] then 0
    else
      var last := ops[|ops| - 1];
      FramesFed(ops[..|ops| - 1], broken)
      + if last.OpFeed? && (broken ==> Parse(last.raw, last.tsUs).Err?) then 1 else 0
  }

  lemma AggregateKeepsCounters(config: Config, s: State, p: Packet)
    ensures
      var t := Aggregate(config, s, p);
      t.packetsSeen == s.packetsSeen && t.packetsMalformed == s.packetsMalformed && t.tls == s.tls
  {
  }

  lemma {:induction false} RunCountsFrames(config: Config, ops: seq<Op>)
    ensures Run(config, ops).packetsSeen == FramesFed(ops, false)
    ensures Run(config, ops).packetsMalformed == FramesFed(ops, true)
  {
    if ops != [] {
      var rest, op := ops[..|ops| - 1], ops[|ops| - 1];
      RunCountsFrames(config, rest);
      if op.OpFeed? && Parse(op.raw, op.tsUs).Ok? {
        var p := Parse(op.raw, op.tsUs).value;
        var offered := CountFrame(Run(config, rest), false);
        AggregateKeepsCounters(config, offered.(tls := offered.tls + OfferedTls(config, op.raw, p)), p);
      }
    }
  }

  // ----------------------------------------------------------------------- announcements

  /** The packets that opened a flow as initiators, in order. */
  ghost function Openers(config: Config, ops: seq<Op>): seq<Packet> {
    if ops == [] then []
    else
      var rest := ops[..|ops| - 1];
      Openers(config, rest) + OpenersBy(config, Run(config, rest), ops[|ops| - 1])
  }

  ghost function OpenersBy(config: Config, s: State, op: Op): seq<Packet> {
    if !op.OpFeed? then []
    else
      var ps := Admitted(config, op.raw, op.tsUs);
      if ps != [] && Lookup(s.entries, KeyOf(ps[0])).None? && Initiates(ps[0]) then ps else []
  }

  /** The announcements a run has handed over. */
  ghost function Announced(config: Config, ops: seq<Op>): seq<NewFlow> {
    if ops == [] then []
    else
      var rest := ops[..|ops| - 1];
      Announced(config, rest) + AnnouncedBy(Run(config, rest), ops[|ops| - 1])
  }

  ghost function AnnouncedBy(s: State, op: Op): seq<NewFlow> {
    if op.OpDrain? then s.newFlows else []
  }

  ghost predicate Announces(n: NewFlow, p: Packet) {
    && n.src == p.src && n.dst == p.dst && n.srcMac == p.srcMac && n.dstMac == p.dstMac && n.dport == p.dport
    && n.proto == p.proto && n.tsUs == p.tsUs
  }

  ghost predicate AllAnnounce(ns: seq<NewFlow>, ps: seq<Packet>) {
    |ns| == |ps| && forall i :: 0 <= i < |ns| ==> Announces(ns[i], ps[i])
  }

  /** What one admitted packet adds to the announcements: nothing, one, or when they are at their limit one shed. */
  lemma AggregateSignals(config: Config, s: State, p: Packet)
    ensures
      var t := Aggregate(config, s, p);
      var opens := Lookup(s.entries, KeyOf(p)).None? && Initiates(p);
      && (!opens ==> t.newFlows == s.newFlows && t.newFlowsShed == s.newFlowsShed)
      && (opens ==>
            if |s.newFlows| >= s.maxPendingNewFlows then
              t.newFlowsShed == s.newFlowsShed + 1 && t.newFlows == s.newFlows
            else
              && t.newFlowsShed == s.newFlowsShed && |t.newFlows| == |s.newFlows| + 1
              && t.newFlows[..|s.newFlows|] == s.newFlows && Announces(t.newFlows[|s.newFlows|], p))
  {
  }

  ghost predicate Told(s: State, announced: seq<NewFlow>, openers: seq<Packet>) {
    && |announced| + |s.newFlows| + s.newFlowsShed == |openers|
    && (s.newFlowsShed == 0 ==> AllAnnounce(announced + s.newFlows, openers))
  }

  /** The packet opened a flow: one announcement more, or one shed. */
  lemma ToldMore(s: State, t: State, announced: seq<NewFlow>, openers: seq<Packet>, p: Packet)
    requires Told(s, announced, openers)
    requires
      || (t.newFlowsShed == s.newFlowsShed + 1 && t.newFlows == s.newFlows)
      || (t.newFlowsShed == s.newFlowsShed && |t.newFlows| == |s.newFlows| + 1
          && t.newFlows[..|s.newFlows|] == s.newFlows && Announces(t.newFlows[|s.newFlows|], p))
    ensures Told(t, announced, openers + [p])
  {
    if |t.newFlows| > |s.newFlows| {
      assert announced + t.newFlows == (announced + s.newFlows) + [t.newFlows[|s.newFlows|]];
    }
  }

  lemma FeedTold(config: Config, s: State, op: Op, announced: seq<NewFlow>, openers: seq<Packet>)
    requires Told(s, announced, openers) && op.OpFeed?
    ensures Told(Step(config, s, op), announced, openers + OpenersBy(config, s, op))
  {
    var ps := Admitted(config, op.raw, op.tsUs);
    assert openers + [] == openers;
    if ps != [] {
      var fed, p := Fed(config, s, op.raw, ps[0]), ps[0];
      assert ps == [p] && Step(config, s, op) == Aggregate(config, fed, p);
      AggregateSignals(config, fed, p);
      if OpenersBy(config, s, op) != [] {
        ToldMore(s, Aggregate(config, fed, p), announced, openers, p);
      }
    }
  }

  lemma StepTold(config: Config, s: State, op: Op, announced: seq<NewFlow>, openers: seq<Packet>)
    requires Told(s, announced, openers)
    ensures Told(Step(config, s, op), announced + AnnouncedBy(s, op), openers + OpenersBy(config, s, op))
  {
    assert announced + [] == announced && openers + [] == openers;
    if op.OpFeed? {
      FeedTold(config, s, op, announced, openers);
    } else if op.OpDrain? {
      assert (announced + s.newFlows) + [] == announced + s.newFlows;
    }
  }

  /**
   Every flow that an initiator opened is announced once, pending, handed over or shed; and while none is shed the
   announcements are exactly those packets, in order, field by field.
   */
  lemma {:induction false} AnnouncementsExact(config: Config, ops: seq<Op>)
    ensures Told(Run(config, ops), Announced(config, ops), Openers(config, ops))
  {
    if ops != [] {
      var rest := ops[..|ops| - 1];
      AnnouncementsExact(config, rest);
      StepTold(config, Run(config, rest), ops[|ops| - 1], Announced(config, rest), Openers(config, rest));
    }
  }

  // ---------------------------------------------------------------------- recency of use

  /** The number of packets up to and with the last one of a flow. */
  ghost function LastUse(ps: seq<Packet>, key: FlowKey): nat {
    if ps == [] then 0 else if KeyOf(ps[|ps| - 1]) == key then |ps| else LastUse(ps[..|ps| - 1], key)
  }

  lemma LastUseLonger(ps: seq<Packet>, p: Packet, key: FlowKey)
    ensures LastUse(ps + [p], key) == if KeyOf(p) == key then |ps| + 1 else LastUse(ps, key)
  {
    assert (ps + [p])[..|ps|] == ps;
  }

  lemma {:induction false} LastUseBounded(ps: seq<Packet>, key: FlowKey)
    ensures LastUse(ps, key) <= |ps|
  {
    if ps != [] {
      LastUseBounded(ps[..|ps| - 1], key);
    }
  }

  /** Entries stand in the order of the last packets of their flows. */
  ghost predicate ByUse(d: Dict<FlowKey, FlowState>, ps: seq<Packet>) {
    forall i, j :: 0 <= i < j < |d| ==> LastUse(ps, d[i].0) < LastUse(ps, d[j].0)
  }

  lemma HeadFirst(d: Dict<FlowKey, FlowState>, ps: seq<Packet>)
    requires d != [] && ByUse(d, ps)
    ensures ByUse(d[1..], ps) && forall e :: e in d[1..] ==> LastUse(ps, d[0].0) < LastUse(ps, e.0)
  {
    forall e | e in d[1..] ensures LastUse(ps, d[0].0) < LastUse(ps, e.0) {
      var i :| 0 <= i < |d[1..]| && d[1..][i] == e;
      assert d[i + 1] == e;
    }
  }

  lemma ConsByUse(first: (FlowKey, FlowState), rest: Dict<FlowKey, FlowState>, ps: seq<Packet>)
    requires ByUse(rest, ps) && forall e :: e in rest ==> LastUse(ps, first.0) < LastUse(ps, e.0)
    ensures ByUse([first] + rest, ps)
  {
    var all := [first] + rest;
    forall i, j | 0 <= i < j < |all| ensures LastUse(ps, all[i].0) < LastUse(ps, all[j].0) {
      assert all[j] == rest[j - 1] && rest[j - 1] in rest;
    }
  }

  lemma {:induction false} FilterByUse(
    d: Dict<FlowKey, FlowState>, ps: seq<Packet>, test: FlowState -> bool, want: bool)
    requires ByUse(d, ps)
    ensures ByUse(Filter(d, test, want), ps) && forall e :: e in Filter(d, test, want) ==> e in d
  {
    if d != [] {
      HeadFirst(d, ps);
      FilterByUse(d[1..], ps, test, want);
      ConsByUse(d[0], Filter(d[1..], test, want), ps);
    }
  }

  lemma {:induction false} DeleteByUse(d: Dict<FlowKey, FlowState>, ps: seq<Packet>, key: FlowKey)
    requires ByUse(d, ps)
    ensures ByUse(Delete(d, key), ps) && forall e :: e in Delete(d, key) ==> e in d && e.0 != key
  {
    if d != [] {
      HeadFirst(d, ps);
      DeleteByUse(d[1..], ps, key);
      ConsByUse(d[0], Delete(d[1..], key), ps);
    }
  }

  /** A packet of another flow leaves the order alone; its own entry goes last. */
  lemma AppendByUse(d: Dict<FlowKey, FlowState>, ps: seq<Packet>, p: Packet, flow: FlowState)
    requires ByUse(d, ps) && forall e :: e in d ==> e.0 != KeyOf(p)
    ensures ByUse(d + [(KeyOf(p), flow)], ps + [p])
  {
    var all := d + [(KeyOf(p), flow)];
    forall i, j | 0 <= i < j < |all| ensures LastUse(ps + [p], all[i].0) < LastUse(ps + [p], all[j].0) {
      LastUseLonger(ps, p, all[i].0);
      LastUseLonger(ps, p, all[j].0);
      LastUseBounded(ps, all[i].0);
      assert d[i] in d && (j < |d| ==> d[j] in d);
    }
  }

  lemma AbsorbByUse(config: Config, s: State, p: Packet, ps: seq<Packet>)
    requires ByUse(s.entries, ps)
    ensures ByUse(Absorb(config, s, p).entries, ps + [p])
  {
    LookupAbsent(s.entries, KeyOf(p));
    if Lookup(s.entries, KeyOf(p)).Some? {
      DeleteByUse(s.entries, ps, KeyOf(p));
      AppendByUse(Delete(s.entries, KeyOf(p)), ps, p, Lookup(s.entries, KeyOf(p)).value.Observe(p));
    } else {
      var left := EvictOldest(s.entries, config.maxFlows);
      forall e | e in left ensures e.0 != KeyOf(p) {
        assert e in s.entries;
      }
      assert ByUse(left, ps);
      AppendByUse(left, ps, p, Opening(p));
    }
  }

  lemma AggregateByUse(config: Config, s: State, p: Packet, ps: seq<Packet>)
    requires ByUse(s.entries, ps)
    ensures ByUse(Aggregate(config, s, p).entries, ps + [p])
  {
    var t := Absorb(config, s, p);
    AbsorbByUse(config, s, p, ps);
    if Closes(config, s, p) && Lookup(t.entries, KeyOf(p)).Some? {
      DeleteByUse(t.entries, ps + [p], KeyOf(p));
    }
  }

  lemma StepByUse(config: Config, s: State, op: Op, ps: seq<Packet>)
    requires ByUse(s.entries, ps)
    ensures ByUse(Step(config, s, op).entries, ps + if op.OpFeed? then Admitted(config, op.raw, op.tsUs) else [])
  {
    assert ps + [] == ps;
    if op.OpFeed? {
      var admitted := Admitted(config, op.raw, op.tsUs);
      if admitted != [] {
        assert admitted == [admitted[0]];
        AggregateByUse(config, Fed(config, s, op.raw, admitted[0]), admitted[0], ps);
      }
    } else if op.OpSweep? {
      FilterByUse(s.entries, ps, TimedOut(config, op.nowUs), false);
    }
  }

  /** Over every run the table stands in the order of last use. */
  lemma {:induction false} RunByUse(config: Config, ops: seq<Op>)
    ensures ByUse(Run(config, ops).entries, AllAdmitted(config, ops))
  {
    if ops != [] {
      RunByUse(config, ops[..|ops| - 1]);
      StepByUse(config, Run(config, ops[..|ops| - 1]), ops[|ops| - 1], AllAdmitted(config, ops[..|ops| - 1]));
    }
  }

  lemma Remains(d: Dict<FlowKey, FlowState>, max: nat, entry: (FlowKey, FlowState), i: nat)
    requires i < |d| && (|d| >= max ==> i > 0)
    ensures Has(EvictOldest(d, max) + [entry], d[i].0)
  {
    var after := EvictOldest(d, max) + [entry];
    assert after[if |d| >= max then i - 1 else i] == d[i];
  }

  lemma GivesWay(d: Dict<FlowKey, FlowState>, max: nat, entry: (FlowKey, FlowState), gone: FlowKey)
    requires Has(d, gone) && !Has(EvictOldest(d, max) + [entry], gone)
    ensures d != [] && d[0].0 == gone
  {
    var i :| 0 <= i < |d| && d[i].0 == gone;
    if |d| < max || i > 0 {
      Remains(d, max, entry, i);
    }
  }

  lemma FirstIsOldest(d: Dict<FlowKey, FlowState>, ps: seq<Packet>, other: FlowKey)
    requires d != [] && ByUse(d, ps) && Has(d, other) && other != d[0].0
    ensures LastUse(ps, d[0].0) < LastUse(ps, other)
  {
    var j :| 0 <= j < |d| && d[j].0 == other;
  }

  /** So the flow that gives way to a new one is the one whose last packet came before those of all the others. */
  lemma EvictsLeastRecent(config: Config, ops: seq<Op>, p: Packet, gone: FlowKey, other: FlowKey)
    requires Has(Run(config, ops).entries, gone) && !Has(Start(config, Run(config, ops), p).entries, gone)
    requires Has(Run(config, ops).entries, other) && other != gone
    ensures LastUse(AllAdmitted(config, ops), gone) < LastUse(AllAdmitted(config, ops), other)
  {
    var s := Run(config, ops);
    RunByUse(config, ops);
    assert Start(config, s, p).entries == EvictOldest(s.entries, config.maxFlows) + [(KeyOf(p), Opening(p))];
    GivesWay(s.entries, config.maxFlows, (KeyOf(p), Opening(p)), gone);
    FirstIsOldest(s.entries, AllAdmitted(config, ops), other);
  }

  // ------------------------------------------------------------------ flags and TLS payloads

  /** The flags a flow counts are those of the frame, and a TCP flow is initiated by SYN without ACK and RST. */
  lemma FlagsOfFrame(f: FrameLayout.Ipv4Frame, tsUs: int)
    requires f.Fits()
    ensures
      var p := f.Read(tsUs);
      if f.segment.TcpSegment? then
        && Carries(p, FIN) == f.segment.flags.fin && Carries(p, SYN) == f.segment.flags.syn
        && Carries(p, RST) == f.segment.flags.rst && Carries(p, PSH) == f.segment.flags.psh
        && Carries(p, ACK) == f.segment.flags.ack && Carries(p, URG) == f.segment.flags.urg
        && Initiates(p) == (f.segment.flags.syn && !f.segment.flags.ack && !f.segment.flags.rst)
      else
        Initiates(p) && forall bit: nat :: bit > 0 ==> !Carries(p, bit)
  {
    if f.segment.TcpSegment? {
      FrameLayout.FlagsRoundTrip(f.segment.flags, f.segment.ecn);
    }
  }

  lemma PayloadOfFrame(f: FrameLayout.Ipv4Frame, tsUs: int)
    requires f.Fits() && f.segment.TcpSegment?
    ensures TcpPayload(f.Octets(), f.Read(tsUs)) == Some(f.payload)
  {
    var raw, at := f.Octets(), 14 + 4 * f.words + 4 * f.segment.words;
    FrameLayout.NativeRoundTrip(f, tsUs);
    ParserParity.PayloadParity(raw, tsUs);
    var before := f.Head() + f.options + f.segment.Header();
    assert raw == before + f.payload + f.trailer && |before| == at;
    assert raw[at..at + |f.payload|] == f.payload;
  }

  /** A heartbeat record, or a handshake record that starts with a ClientHello. */
  predicate TlsOfInterest(payload: seq<Byte>) {
    || (|payload| >= 1 && payload[0] == 24)
    || (|payload| >= 6 && payload[0] == 22 && payload[5] == 1)
  }

  /** A frame to or from the TLS port offers its payload when a detector could act on it, with its endpoints. */
  lemma OfferOfFrame(config: Config, f: FrameLayout.Ipv4Frame, tsUs: int)
    requires f.Fits()
    ensures OfferedTls(config, f.Octets(), f.Read(tsUs)) ==
      if f.segment.TcpSegment? && (f.segment.sport == config.tlsPort || f.segment.dport == config.tlsPort)
          && TlsOfInterest(f.payload)
      then [TlsCandidate(FrameLayout.Number(f.src), FrameLayout.Number(f.dst), Some(f.segment.sport),
                         Some(f.segment.dport), tsUs, f.payload)]
      else []
  {
    if f.segment.TcpSegment? {
      PayloadOfFrame(f, tsUs);
    }
  }

  /** The payloads that a run's frames offer. */
  ghost function Offers(config: Config, ops: seq<Op>): seq<TlsCandidate> {
    if ops == [] then []
    else
      var last := ops[|ops| - 1];
      Offers(config, ops[..|ops| - 1])
      + if last.OpFeed? && Parse(last.raw, last.tsUs).Ok?
        then OfferedTls(config, last.raw, Parse(last.raw, last.tsUs).value) else []
  }

  /** Those it has handed over. */
  ghost function Delivered(config: Config, ops: seq<Op>): seq<TlsCandidate> {
    if ops == [] then []
    else
      var rest := ops[..|ops| - 1];
      Delivered(config, rest) + if ops[|ops| - 1].OpDrain? then Run(config, rest).tls else []
  }

  lemma StepTls(config: Config, s: State, op: Op)
    ensures Step(config, s, op).tls ==
      if op.OpDrain? then []
      else if op.OpFeed? && Parse(op.raw, op.tsUs).Ok?
      then s.tls + OfferedTls(config, op.raw, Parse(op.raw, op.tsUs).value) else s.tls
  {
    if op.OpFeed? && Parse(op.raw, op.tsUs).Ok? {
      var p, counted := Parse(op.raw, op.tsUs).value, CountFrame(s, false);
      AggregateKeepsCounters(config, counted.(tls := counted.tls + OfferedTls(config, op.raw, p)), p);
    }
  }

  lemma StepOffers(config: Config, s: State, op: Op, delivered: seq<TlsCandidate>, offers: seq<TlsCandidate>)
    requires delivered + s.tls == offers
    ensures
      var more := if op.OpFeed? && Parse(op.raw, op.tsUs).Ok?
        then OfferedTls(config, op.raw, Parse(op.raw, op.tsUs).value) else [];
      (delivered + if op.OpDrain? then s.tls else []) + Step(config, s, op).tls == offers + more
  {
    StepTls(config, s, op);
    assert delivered + [] == delivered && offers + [] == offers && (delivered + s.tls) + [] == delivered + s.tls;
  }

  /** None is lost: what is handed over and what is pending are all of them, in order. */
  lemma {:induction false} NoOfferLost(config: Config, ops: seq<Op>)
    ensures Delivered(config, ops) + Run(config, ops).tls == Offers(config, ops)
  {
    if ops != [] {
      var rest := ops[..|ops| - 1];
      NoOfferLost(config, rest);
      StepOffers(config, Run(config, rest), ops[|ops| - 1], Delivered(config, rest), Offers(config, rest));
    }
  }
}
