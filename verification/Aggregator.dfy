/**
 The flow aggregator as a pure machine over an ordered dictionary: what the native engine has to
 compute, without slab, links or index. Runs of it are the subject of the conservation theorems.
 */
module Aggregator {
  import opened Prelude
  import opened OrderedDict
  import opened Frames
  import opened NativeParser
  import opened Flows
  import opened FlowLedger
  import TlsPrefilter

  /** Everything knowable from a flow's first packet. */
  datatype NewFlow = NewFlow(src: nat, dst: nat, srcMac: nat, dstMac: nat, dport: Option<nat>, proto: Proto, tsUs: int)

  datatype TlsCandidate = TlsCandidate(
    src: nat, dst: nat, sport: Option<nat>, dport: Option<nat>, tsUs: int, payload: seq<Byte>)

  datatype Config = Config(
    activeS: real, inactiveS: real, maxFlows: Pos, protectedNet: Option<(nat, nat)>, tlsPort: nat)

  function Pow2(n: nat): nat {
    if n == 0 then 1 else 2 * Pow2(n - 1)
  }

  /** The address lies in `network`/`prefix`. */
  predicate InPrefix(address: nat, network: nat, prefix: nat)
    requires prefix <= 32
  {
    address / HostSize(prefix) == network / HostSize(prefix)
  }

  function HostSize(prefix: nat): (n: nat)
    requires prefix <= 32
    ensures n > 0
  {
    Positive(32 - prefix);
    Pow2(32 - prefix)
  }

  lemma Positive(n: nat)
    ensures Pow2(n) > 0
  {
  }

  /** Not unspecified, loopback, multicast, link-local or reserved, and not the protected net's broadcast. */
  predicate Routable(config: Config, address: nat) {
    && address != 0
    && !InPrefix(address, 0x7F00_0000, 8)
    && !InPrefix(address, 0xE000_0000, 4)
    && !InPrefix(address, 0xA9FE_0000, 16)
    && !InPrefix(address, 0xF000_0000, 4)
    && address != 0xFFFF_FFFF
    && match config.protectedNet
       case Some((network, prefix)) =>
         prefix < 31 ==> address != network / HostSize(prefix) * HostSize(prefix) + HostSize(prefix) - 1
       case None => true
  }

  /** The packet a frame contributes to some flow: parsed, IPv4, both ends routable. */
  function Admitted(config: Config, raw: seq<Byte>, tsUs: int): seq<Packet> {
    match Parse(raw, tsUs)
    case Err(_) => []
    case Ok(p) => if p.ipv4 && Routable(config, p.src) && Routable(config, p.dst) then [p] else []
  }

  datatype State = State(
    entries: Dict<FlowKey, FlowState>,
    completed: seq<FlowState>,
    newFlows: seq<NewFlow>,
    tls: seq<TlsCandidate>,
    packetsSeen: nat,
    packetsMalformed: nat,
    maxPendingCompleted: nat,
    maxPendingNewFlows: nat,
    completedShed: nat,
    newFlowsShed: nat,
    flowsLostToPanics: nat)

  const USIZE_MAX: nat := 0xFFFF_FFFF_FFFF_FFFF

  ghost const INITIAL := State([], [], [], [], 0, 0, USIZE_MAX, USIZE_MAX, 0, 0, 0)

  // --------------------------------------------------------------- one operation

  ghost function PushCompleted(s: State, flow: FlowState): State {
    if |s.completed| < s.maxPendingCompleted then s.(completed := s.completed + [flow])
    else s.(completedShed := s.completedShed + 1)
  }

  ghost function Signal(s: State, p: Packet): State {
    if !Initiates(p) then s
    else if |s.newFlows| < s.maxPendingNewFlows then
      s.(newFlows := s.newFlows + [NewFlow(p.src, p.dst, p.srcMac, p.dstMac, p.dport, p.proto, p.tsUs)])
    else s.(newFlowsShed := s.newFlowsShed + 1)
  }

  /** The packet's flow is open: observe it and make it the most recent. */
  ghost function Continue(s: State, p: Packet): State
    requires Lookup(s.entries, KeyOf(p)).Some?
  {
    s.(entries := PutLast(s.entries, KeyOf(p), Lookup(s.entries, KeyOf(p)).value.Observe(p)))
  }

  ghost predicate Full(config: Config, s: State) {
    |s.entries| >= config.maxFlows && s.entries != []
  }

  /** Open a flow; a full table first gives up its oldest one. */
  ghost function Start(config: Config, s: State, p: Packet): State {
    var signalled := Signal(s, p);
    var grown := signalled.(entries := EvictOldest(s.entries, config.maxFlows) + [(KeyOf(p), Opening(p))]);
    if Full(config, s) then PushCompleted(grown, s.entries[0].1) else grown
  }

  ghost function Absorb(config: Config, s: State, p: Packet): State {
    if Lookup(s.entries, KeyOf(p)).Some? then Continue(s, p) else Start(config, s, p)
  }

  /** The state of the packet's flow once it has been observed. */
  ghost function Current(s: State, p: Packet): FlowState {
    match Lookup(s.entries, KeyOf(p))
    case Some(flow) => flow.Observe(p)
    case None => Opening(p)
  }

  ghost function Close(s: State, key: FlowKey): State {
    match Lookup(s.entries, key)
    case Some(flow) => PushCompleted(s.(entries := Delete(s.entries, key)), flow)
    case None => s
  }

  ghost function Aggregate(config: Config, s: State, p: Packet): State {
    Settle(Absorb(config, s, p), KeyOf(p), Closes(config, s, p))
  }

  /** Whether the packet brings its flow to an end. */
  ghost predicate Closes(config: Config, s: State, p: Packet) {
    Current(s, p).ShouldClose(p.tsUs, config.activeS, config.inactiveS)
  }

  ghost function Settle(s: State, key: FlowKey, closes: bool): State {
    if closes then Close(s, key) else s
  }

  function OfferedTls(config: Config, raw: seq<Byte>, p: Packet): seq<TlsCandidate> {
    if p.proto == Tcp && (p.sport == Some(config.tlsPort) || p.dport == Some(config.tlsPort)) && p.ipv4 then
      var payload := TcpPayload(raw, p);
      if payload.Some? && TlsPrefilter.Interesting(payload.value)
      then [TlsCandidate(p.src, p.dst, p.sport, p.dport, p.tsUs, payload.value)] else []
    else []
  }

  ghost function Feed(config: Config, s: State, raw: seq<Byte>, tsUs: int): State {
    FeedParsed(config, s, raw, Parse(raw, tsUs))
  }

  ghost function FeedParsed(config: Config, s: State, raw: seq<Byte>, parsed: Result<Packet>): State {
    match parsed
    case Err(_) => CountFrame(s, true)
    case Ok(p) => FeedPacket(config, CountFrame(s, false), raw, p)
  }

  ghost function CountFrame(s: State, malformed: bool): State {
    s.(packetsSeen := s.packetsSeen + 1,
       packetsMalformed := if malformed then s.packetsMalformed + 1 else s.packetsMalformed)
  }

  ghost function FeedPacket(config: Config, s: State, raw: seq<Byte>, p: Packet): State {
    var offered := s.(tls := s.tls + OfferedTls(config, raw, p));
    if p.ipv4 && Routable(config, p.src) && Routable(config, p.dst) then Aggregate(config, offered, p) else offered
  }

  ghost function TimedOut(config: Config, nowUs: int): FlowState -> bool {
    (flow: FlowState) => flow.ShouldClose(nowUs, config.activeS, config.inactiveS)
  }

  ghost function Sweep(config: Config, s: State, nowUs: int): State {
    s.(entries := Filter(s.entries, TimedOut(config, nowUs), false))
  }

  // ------------------------------------------------------------------- whole runs

  datatype Op =
    | OpFeed(raw: seq<Byte>, tsUs: int)
    | OpDrain
    | OpSweep(nowUs: int)
    | OpFlush
    | OpRecover
    | OpLimits(completed: nat, newFlows: nat)

  ghost function Step(config: Config, s: State, op: Op): State {
    match op
    case OpFeed(raw, tsUs) => Feed(config, s, raw, tsUs)
    case OpDrain => s.(completed := [], newFlows := [], tls := [])
    case OpSweep(nowUs) => Sweep(config, s, nowUs)
    case OpFlush => s.(entries := [])
    case OpRecover => s.(entries := [], flowsLostToPanics := s.flowsLostToPanics + |s.entries|)
    case OpLimits(completed, newFlows) => s.(maxPendingCompleted := completed, maxPendingNewFlows := newFlows)
  }

  ghost function Run(config: Config, ops: seq<Op>): State {
    if ops == [] then INITIAL else Step(config, Run(config, ops[..|ops| - 1]), ops[|ops| - 1])
  }

  lemma RunAppend(config: Config, ops: seq<Op>, op: Op)
    ensures Run(config, ops + [op]) == Step(config, Run(config, ops), op)
  {
    assert (ops + [op])[..|ops|] == ops;
  }

  ghost function PositionOf<V>(d: Dict<FlowKey, V>, key: FlowKey): nat
    requires Has(d, key)
    ensures PositionOf(d, key) < |d| && d[PositionOf(d, key)].0 == key
  {
    var i :| 0 <= i < |d| && d[i].0 == key;
    i
  }

  // ------------------------------------------------- the books of one operation

  ghost function AbsorbLedger(config: Config, s: State, l: Ledger, p: Packet): Ledger
    requires |l.open| == |s.entries|
  {
    if Has(s.entries, KeyOf(p)) then FlowLedger.Hit(l, PositionOf(s.entries, KeyOf(p)), p)
    else if Full(config, s) then FlowLedger.Open(Evict(s, l), p)
    else FlowLedger.Open(l, p)
  }

  ghost function CloseLedger(s: State, l: Ledger, key: FlowKey): Ledger
    requires |l.open| == |s.entries|
  {
    if Has(s.entries, key) then Complete(l, PositionOf(s.entries, key), |s.completed| < s.maxPendingCompleted) else l
  }

  /** The machine, its ledger, and the states handed out so far. */
  datatype Books = Books(s: State, l: Ledger, out: seq<FlowState>)
  {
    /** The ledger agrees with the machine: states, counters of shed and lost flows, and distinct keys. */
    ghost predicate Sound() {
      && Balanced(l, s.entries, s.completed, out)
      && WellFormed(s.entries)
      && s.completedShed == |l.shed|
      && s.flowsLostToPanics == |l.lost|
    }
  }

  type SoundBooks = b: Books | b.Sound() ghost witness Books(INITIAL, EMPTY_LEDGER, [])

  lemma PutLastAt(d: Dict<FlowKey, FlowState>, p: nat, flow: FlowState)
    requires WellFormed(d) && p < |d|
    ensures Lookup(d, d[p].0) == Some(d[p].1) && Delete(d, d[p].0) == LruTables.Without(d, p)
    ensures PutLast(d, d[p].0, flow) == LruTables.Without(d, p) + [(d[p].0, flow)]
    ensures WellFormed(LruTables.Without(d, p)) && WellFormed(PutLast(d, d[p].0, flow))
  {
    DeleteAt(d, p);
    LruTables.WithoutAt(d, p);
  }

  lemma ContinueSound(b: SoundBooks, p: Packet) returns (b': SoundBooks)
    requires Has(b.s.entries, KeyOf(p))
    ensures Lookup(b.s.entries, KeyOf(p)).Some?
    ensures b' == b.(s := Continue(b.s, p), l := FlowLedger.Hit(b.l, PositionOf(b.s.entries, KeyOf(p)), p))
  {
    var k := PositionOf(b.s.entries, KeyOf(p));
    PutLastAt(b.s.entries, k, b.s.entries[k].1.Observe(p));
    HitBalanced(b.l, b.s.entries, b.s.completed, b.out, k, p);
    b' := b.(s := Continue(b.s, p), l := FlowLedger.Hit(b.l, k, p));
  }

  ghost function Evict(s: State, l: Ledger): Ledger
    requires |l.open| == |s.entries| > 0
  {
    Complete(l, 0, |s.completed| < s.maxPendingCompleted)
  }

  /** The machine once the flow at position `k` has left the table. */
  ghost function Removed(s: State, k: nat): State
    requires k < |s.entries|
  {
    PushCompleted(s.(entries := LruTables.Without(s.entries, k)), s.entries[k].1)
  }

  /** One flow leaves the table. */
  lemma RemoveSound(b: SoundBooks, k: nat) returns (b': SoundBooks)
    requires k < |b.s.entries|
    ensures b' == b.(s := Removed(b.s, k), l := Complete(b.l, k, |b.s.completed| < b.s.maxPendingCompleted))
  {
    LruTables.WithoutAt(b.s.entries, k);
    if |b.s.completed| < b.s.maxPendingCompleted {
      CompleteBalanced(b.l, b.s.entries, b.s.completed, b.out, k, true);
    } else {
      CompleteBalanced(b.l, b.s.entries, b.s.completed, b.out, k, false);
    }
    b' := b.(s := Removed(b.s, k), l := Complete(b.l, k, |b.s.completed| < b.s.maxPendingCompleted));
  }

  lemma OpenSound(b: SoundBooks, p: Packet) returns (b': SoundBooks)
    requires !Has(b.s.entries, KeyOf(p))
    ensures b' == b.(s := b.s.(entries := b.s.entries + [(KeyOf(p), Opening(p))]), l := FlowLedger.Open(b.l, p))
  {
    OpenBalanced(b.l, b.s.entries, b.s.completed, b.out, p);
    b' := b.(s := b.s.(entries := b.s.entries + [(KeyOf(p), Opening(p))]), l := FlowLedger.Open(b.l, p));
  }

  /** The books do not see the other fields. */
  lemma SoundFrame(b: SoundBooks, s: State) returns (b': SoundBooks)
    requires s.entries == b.s.entries && s.completed == b.s.completed
    requires s.completedShed == b.s.completedShed && s.flowsLostToPanics == b.s.flowsLostToPanics
    ensures b' == b.(s := s)
  {
    b' := b.(s := s);
  }

  /** A new flow enters a table that has made room for it; only the signals differ besides. */
  lemma StartShape(config: Config, s: State, p: Packet)
    ensures
      var rest, t := if Full(config, s) then Removed(s, 0) else s, Start(config, s, p);
      && t.entries == rest.entries + [(KeyOf(p), Opening(p))] && t.completed == rest.completed
      && t.completedShed == rest.completedShed && t.flowsLostToPanics == rest.flowsLostToPanics
      && (forall k :: Has(rest.entries, k) ==> Has(s.entries, k))
  {
    if Full(config, s) {
      assert LruTables.Without(s.entries, 0) == s.entries[1..];
    }
  }

  lemma StartSound(config: Config, b: SoundBooks, p: Packet) returns (b': SoundBooks)
    requires !Has(b.s.entries, KeyOf(p))
    ensures |b.l.open| == |b.s.entries|
    ensures b' == b.(s := Start(config, b.s, p),
                     l := FlowLedger.Open(if Full(config, b.s) then Evict(b.s, b.l) else b.l, p))
  {
    StartShape(config, b.s, p);
    var rest := b;
    if Full(config, b.s) {
      rest := RemoveSound(b, 0);
    }
    b' := OpenSound(rest, p);
    b' := SoundFrame(b', Start(config, b.s, p));
  }

  lemma CloseShape(s: State, key: FlowKey)
    requires WellFormed(s.entries) && Has(s.entries, key)
    ensures Close(s, key) == Removed(s, PositionOf(s.entries, key))
  {
    DeleteAt(s.entries, PositionOf(s.entries, key));
  }

  lemma CloseSound(b: SoundBooks, key: FlowKey) returns (b': SoundBooks)
    ensures |b.l.open| == |b.s.entries|
    ensures b' == b.(s := Close(b.s, key), l := CloseLedger(b.s, b.l, key))
  {
    b' := b;
    if Has(b.s.entries, key) {
      CloseShape(b.s, key);
      b' := RemoveSound(b, PositionOf(b.s.entries, key));
    } else {
      LookupAbsent(b.s.entries, key);
    }
  }

  ghost function SettleLedger(s: State, l: Ledger, key: FlowKey, closes: bool): Ledger {
    if closes && |l.open| == |s.entries| then CloseLedger(s, l, key) else l
  }

  ghost function AggregateLedger(config: Config, s: State, l: Ledger, p: Packet): Ledger {
    if |l.open| != |s.entries| then l
    else SettleLedger(Absorb(config, s, p), AbsorbLedger(config, s, l, p), KeyOf(p), Closes(config, s, p))
  }

  lemma SettleSound(b: SoundBooks, key: FlowKey, closes: bool) returns (b': SoundBooks)
    ensures b' == b.(s := Settle(b.s, key, closes), l := SettleLedger(b.s, b.l, key, closes))
    ensures b'.l.accepted == b.l.accepted && b'.l.flows == b.l.flows
  {
    b' := b;
    if closes {
      b' := CloseSound(b, key);
    }
  }

  /** How many flows an admitted packet opens. */
  ghost function Opens(s: State, p: Packet): nat {
    if Lookup(s.entries, KeyOf(p)).None? then 1 else 0
  }

  lemma AbsorbSound(config: Config, b: SoundBooks, p: Packet) returns (b': SoundBooks)
    ensures |b.l.open| == |b.s.entries|
    ensures b' == b.(s := Absorb(config, b.s, p), l := AbsorbLedger(config, b.s, b.l, p))
    ensures b'.l.accepted == b.l.accepted + [p] && b'.l.flows == b.l.flows + Opens(b.s, p)
  {
    LookupAbsent(b.s.entries, KeyOf(p));
    if Has(b.s.entries, KeyOf(p)) {
      b' := ContinueSound(b, p);
    } else {
      b' := StartSound(config, b, p);
    }
  }

  lemma AggregateSound(config: Config, b: SoundBooks, p: Packet) returns (b': SoundBooks)
    ensures b' == b.(s := Aggregate(config, b.s, p), l := AggregateLedger(config, b.s, b.l, p))
    ensures b'.l.accepted == b.l.accepted + [p] && b'.l.flows == b.l.flows + Opens(b.s, p)
  {
    var absorbed := AbsorbSound(config, b, p);
    b' := SettleSound(absorbed, KeyOf(p), Closes(config, b.s, p));
  }

  // ---------------------------------------------------------------- every run

  ghost function Fed(config: Config, s: State, raw: seq<Byte>, p: Packet): State {
    s.(packetsSeen := s.packetsSeen + 1, tls := s.tls + OfferedTls(config, raw, p))
  }

  ghost function StepLedger(config: Config, s: State, l: Ledger, op: Op): Ledger {
    match op
    case OpFeed(raw, tsUs) =>
      var ps := Admitted(config, raw, tsUs);
      if ps == [] then l else AggregateLedger(config, Fed(config, s, raw, ps[0]), l, ps[0])
    case OpDrain => FlowLedger.Drain(l)
    case OpSweep(nowUs) =>
      if |l.open| == |s.entries| then FlowLedger.Sweep(l, s.entries, TimedOut(config, nowUs)) else l
    case OpFlush => FlowLedger.Flush(l)
    case OpRecover => FlowLedger.Lose(l)
    case OpLimits(_, _) => l
  }

  ghost function RunLedger(config: Config, ops: seq<Op>): Ledger {
    if ops == [] then EMPTY_LEDGER
    else StepLedger(config, Run(config, ops[..|ops| - 1]), RunLedger(config, ops[..|ops| - 1]), ops[|ops| - 1])
  }

  /** The flow states an operation returns to its caller. */
  ghost function Returned(config: Config, s: State, op: Op): seq<FlowState> {
    match op
    case OpDrain => s.completed
    case OpSweep(nowUs) => Values(Filter(s.entries, TimedOut(config, nowUs), true))
    case OpFlush => Values(s.entries)
    case _ => []
  }

  /** Everything a run returned. */
  ghost function HandedOut(config: Config, ops: seq<Op>): seq<FlowState> {
    if ops == [] then []
    else HandedOut(config, ops[..|ops| - 1]) + Returned(config, Run(config, ops[..|ops| - 1]), ops[|ops| - 1])
  }

  /** The packets a run's frames contribute. */
  ghost function AllAdmitted(config: Config, ops: seq<Op>): seq<Packet> {
    if ops == [] then []
    else
      AllAdmitted(config, ops[..|ops| - 1])
      + if ops[|ops| - 1].OpFeed? then Admitted(config, ops[|ops| - 1].raw, ops[|ops| - 1].tsUs) else []
  }

  lemma {:induction false} FilterWellFormed(d: Dict<FlowKey, FlowState>, test: FlowState -> bool, want: bool)
    requires WellFormed(d)
    ensures WellFormed(Filter(d, test, want))
  {
    if d != [] {
      FilterWellFormed(d[1..], test, want);
      var rest := Filter(d[1..], test, want);
      FilterSubset(d[1..], test, want);
      assert forall i :: 0 <= i < |rest| ==> rest[i] in rest;
      assert forall e :: e in d[1..] ==> e.0 != d[0].0;
    }
  }

  lemma {:induction false} FilterSubset(d: Dict<FlowKey, FlowState>, test: FlowState -> bool, want: bool)
    ensures forall e :: e in Filter(d, test, want) ==> e in d
  {
    if d != [] {
      FilterSubset(d[1..], test, want);
    }
  }

  /** How many flows one operation opens: one for a frame whose admitted packet finds no entry. */
  ghost function OpenedBy(config: Config, s: State, op: Op): nat {
    if !op.OpFeed? then 0
    else
      var ps := Admitted(config, op.raw, op.tsUs);
      if ps == [] then 0 else Opens(s, ps[0])
  }

  /** The flows a run opened. */
  ghost function FlowsOpened(config: Config, ops: seq<Op>): nat {
    if ops == [] then 0
    else FlowsOpened(config, ops[..|ops| - 1]) + OpenedBy(config, Run(config, ops[..|ops| - 1]), ops[|ops| - 1])
  }

  lemma FeedSound(config: Config, b: SoundBooks, raw: seq<Byte>, tsUs: int) returns (b': SoundBooks)
    ensures b' == b.(s := Feed(config, b.s, raw, tsUs), l := StepLedger(config, b.s, b.l, OpFeed(raw, tsUs)))
    ensures b'.l.accepted == b.l.accepted + Admitted(config, raw, tsUs)
    ensures b'.l.flows == b.l.flows + OpenedBy(config, b.s, OpFeed(raw, tsUs))
  {
    var ps := Admitted(config, raw, tsUs);
    if ps == [] {
      b' := SoundFrame(b, Feed(config, b.s, raw, tsUs));
    } else {
      b' := SoundFrame(b, Fed(config, b.s, raw, ps[0]));
      b' := AggregateSound(config, b', ps[0]);
    }
  }

  lemma SweepSound(config: Config, b: SoundBooks, nowUs: int) returns (b': SoundBooks)
    ensures |b.l.open| == |b.s.entries|
    ensures b' == Books(Sweep(config, b.s, nowUs), FlowLedger.Sweep(b.l, b.s.entries, TimedOut(config, nowUs)),
                        b.out + Values(Filter(b.s.entries, TimedOut(config, nowUs), true)))
    ensures b'.l.accepted == b.l.accepted && b'.l.flows == b.l.flows
  {
    SweepBalanced(b.l, b.s.entries, b.s.completed, b.out, TimedOut(config, nowUs));
    FilterWellFormed(b.s.entries, TimedOut(config, nowUs), false);
    b' := Books(Sweep(config, b.s, nowUs), FlowLedger.Sweep(b.l, b.s.entries, TimedOut(config, nowUs)),
                b.out + Values(Filter(b.s.entries, TimedOut(config, nowUs), true)));
  }

  /** What the operations other than feeding do. */
  lemma OtherSound(config: Config, b: SoundBooks, op: Op) returns (b': SoundBooks)
    requires !op.OpFeed?
    ensures b' == Books(Step(config, b.s, op), StepLedger(config, b.s, b.l, op), b.out + Returned(config, b.s, op))
    ensures b'.l.accepted == b.l.accepted && b'.l.flows == b.l.flows
  {
    assert b.out + [] == b.out;
    match op {
      case OpDrain =>
        DrainBalanced(b.l, b.s.entries, b.s.completed, b.out);
        b' := Books(Step(config, b.s, op), FlowLedger.Drain(b.l), b.out + b.s.completed);
      case OpSweep(nowUs) => b' := SweepSound(config, b, nowUs);
      case OpFlush =>
        FlushBalanced(b.l, b.s.entries, b.s.completed, b.out);
        b' := Books(Step(config, b.s, op), FlowLedger.Flush(b.l), b.out + Values(b.s.entries));
      case OpRecover =>
        LoseBalanced(b.l, b.s.entries, b.s.completed, b.out);
        b' := b.(s := Step(config, b.s, op), l := FlowLedger.Lose(b.l));
      case OpLimits(_, _) => b' := b.(s := Step(config, b.s, op));
    }
  }

  lemma StepSound(config: Config, b: SoundBooks, op: Op) returns (b': SoundBooks)
    ensures b' == Books(Step(config, b.s, op), StepLedger(config, b.s, b.l, op), b.out + Returned(config, b.s, op))
    ensures b'.l.accepted == b.l.accepted + if op.OpFeed? then Admitted(config, op.raw, op.tsUs) else []
    ensures b'.l.flows == b.l.flows + OpenedBy(config, b.s, op)
  {
    if op.OpFeed? {
      b' := FeedSound(config, b, op.raw, op.tsUs);
      assert b.out + [] == b.out;
    } else {
      b' := OtherSound(config, b, op);
      assert b.l.accepted + [] == b.l.accepted;
    }
  }

  lemma {:induction false} RunBooks(config: Config, ops: seq<Op>) returns (b: SoundBooks)
    ensures b == Books(Run(config, ops), RunLedger(config, ops), HandedOut(config, ops))
    ensures b.l.accepted == AllAdmitted(config, ops) && b.l.flows == FlowsOpened(config, ops)
  {
    b := Books(INITIAL, EMPTY_LEDGER, []);
    if ops != [] {
      b := RunBooks(config, ops[..|ops| - 1]);
      b := StepSound(config, b, ops[|ops| - 1]);
    }
  }

  /** In every run the books are sound and record exactly the admitted packets and the flows opened. */
  lemma RunSound(config: Config, ops: seq<Op>)
    ensures Books(Run(config, ops), RunLedger(config, ops), HandedOut(config, ops)).Sound()
    ensures RunLedger(config, ops).accepted == AllAdmitted(config, ops)
    ensures RunLedger(config, ops).flows == FlowsOpened(config, ops)
  {
    var b := RunBooks(config, ops);
  }

  /** Flows opened = open + pending + handed out + shed + lost, after every run. */
  lemma RunConservesFlows(config: Config, ops: seq<Op>)
    ensures
      var s := Run(config, ops);
      FlowsOpened(config, ops)
      == |s.entries| + |s.completed| + |HandedOut(config, ops)| + s.completedShed + s.flowsLostToPanics
  {
    RunSound(config, ops);
    FlowsConserved(RunLedger(config, ops));
  }

  /**
   If nothing was shed or lost, the packet counters of the open, pending and handed-out flows add up
   to the number of frames that parsed as IPv4 with both ends routable.
   */
  lemma RunConservesPackets(config: Config, ops: seq<Op>)
    requires Run(config, ops).completedShed == 0 && Run(config, ops).flowsLostToPanics == 0
    ensures
      var s := Run(config, ops);
      CountPackets(Values(s.entries)) + CountPackets(s.completed) + CountPackets(HandedOut(config, ops))
      == |AllAdmitted(config, ops)|
  {
    var s, l, out := Run(config, ops), RunLedger(config, ops), HandedOut(config, ops);
    RunSound(config, ops);
    PacketsConserved(l);
    PairsStates(l, l.open, s.entries);
    CountersAreTotals(l, l.open, Values(s.entries));
    CountersAreTotals(l, l.pending, s.completed);
    CountersAreTotals(l, l.out, out);
  }

  /** Every state a run holds or has handed out is the recount of one conversation's packets. */
  lemma RunStatesAreRecounts(config: Config, ops: seq<Op>, f: FlowState)
    requires f in Values(Run(config, ops).entries) || f in Run(config, ops).completed || f in HandedOut(config, ops)
    ensures exists ps :: OneConversation(ps) && f == Replay(ps) && multiset(ps) <= multiset(AllAdmitted(config, ops))
  {
    var s, l, out := Run(config, ops), RunLedger(config, ops), HandedOut(config, ops);
    RunSound(config, ops);
    PairsStates(l, l.open, s.entries);
    var id: nat;
    if f in Values(s.entries) {
      id := Locate(l, l.open, Values(s.entries), f);
    } else if f in s.completed {
      id := Locate(l, l.pending, s.completed, f);
    } else {
      id := Locate(l, l.out, out, f);
    }
    PacketsAreAccepted(l.accepted, l.home, id);
    assert OneConversation(PacketsOf(l.accepted, l.home, id));
  }

  // ------------------------------------------------------------------ when flows end

  /** Both timeouts can be reached. */
  predicate Timeouts(config: Config) { Reachable(config.activeS) && Reachable(config.inactiveS) }

  /** One conversation among the admitted packets of a run. */
  ghost predicate Conversation(config: Config, ops: seq<Op>, ps: seq<Packet>) {
    OneConversation(ps) && multiset(ps) <= multiset(AllAdmitted(config, ops))
  }

  /** The state of a conversation of the run, and whether that conversation is due to end. */
  ghost predicate Judged(config: Config, ops: seq<Op>, f: FlowState, nowUs: int, due: bool) {
    exists ps ::
      Conversation(config, ops, ps) && f == Replay(ps) && (due <==> Due(ps, nowUs, config.activeS, config.inactiveS))
  }

  /** The flow of the run's latest packet stays open exactly when the conversation that ends with it is not due. */
  ghost predicate EndsWhenDue(config: Config, ops: seq<Op>, p: Packet, open: bool) {
    exists ps ::
      && Conversation(config, ops, ps) && ps[|ps| - 1] == p
      && (open <==> !Due(ps, p.tsUs, config.activeS, config.inactiveS))
  }

  lemma OpenIsJudged(config: Config, ops: seq<Op>, f: FlowState, nowUs: int)
    requires Timeouts(config) && f in Values(Run(config, ops).entries)
    ensures Judged(config, ops, f, nowUs, f.ShouldClose(nowUs, config.activeS, config.inactiveS))
  {
    RunStatesAreRecounts(config, ops, f);
    var ps :| OneConversation(ps) && f == Replay(ps) && multiset(ps) <= multiset(AllAdmitted(config, ops));
    ClosesExactly(ps, nowUs, config.activeS, config.inactiveS);
    assert Conversation(config, ops, ps);
  }

  /** A sweep takes out exactly the flows whose packets say they are due, and leaves exactly the others. */
  lemma SweepExact(config: Config, ops: seq<Op>, nowUs: int)
    requires Timeouts(config)
    ensures
      var s := Run(config, ops);
      && (forall f :: f in Returned(config, s, OpSweep(nowUs)) ==> Judged(config, ops, f, nowUs, true))
      && (forall f :: f in Values(Sweep(config, s, nowUs).entries) ==> Judged(config, ops, f, nowUs, false))
  {
    var s := Run(config, ops);
    FilterValues(s.entries, TimedOut(config, nowUs), true);
    FilterValues(s.entries, TimedOut(config, nowUs), false);
    forall f | f in Values(s.entries)
      ensures Judged(config, ops, f, nowUs, TimedOut(config, nowUs)(f))
    {
      OpenIsJudged(config, ops, f, nowUs);
    }
  }

  lemma {:induction false} FilterValues(d: Dict<FlowKey, FlowState>, test: FlowState -> bool, want: bool)
    ensures forall f :: f in Values(Filter(d, test, want)) ==> f in Values(d) && test(f) == want
  {
    if d != [] {
      FilterValues(d[1..], test, want);
    }
  }

  /** A packet that is admitted ends its flow exactly when the flow's packets, this one included, say it is due. */
  lemma FeedExact(config: Config, ops: seq<Op>, raw: seq<Byte>, tsUs: int)
    requires Timeouts(config) && Admitted(config, raw, tsUs) != []
    ensures
      var all, p := ops + [OpFeed(raw, tsUs)], Admitted(config, raw, tsUs)[0];
      EndsWhenDue(config, all, p, Has(Run(config, all).entries, KeyOf(p)))
  {
    var s, p, op := Run(config, ops), Admitted(config, raw, tsUs)[0], OpFeed(raw, tsUs);
    RunAppend(config, ops, op);
    var ps := CurrentPackets(config, ops, p);
    ClosesExactly(ps, p.tsUs, config.activeS, config.inactiveS);
    RunSound(config, ops);
    SettledKey(config, Fed(config, s, raw, p), p);
    assert AllAdmitted(config, ops + [op]) == AllAdmitted(config, ops) + [p] by {
      assert (ops + [op])[..|ops|] == ops;
    }
    assert Conversation(config, ops + [op], ps);
  }

  /** The packets behind the state that an admitted packet leads to. */
  lemma CurrentPackets(config: Config, ops: seq<Op>, p: Packet) returns (ps: seq<Packet>)
    ensures OneConversation(ps) && ps[|ps| - 1] == p && Current(Run(config, ops), p) == Replay(ps)
    ensures multiset(ps) <= multiset(AllAdmitted(config, ops) + [p])
  {
    ps := [p];
    var s := Run(config, ops);
    var found := Lookup(s.entries, KeyOf(p));
    if found.Some? {
      var before := EntryPackets(config, ops, KeyOf(p));
      ps := before + [p];
      assert ps[..|before|] == before;
    }
  }

  lemma EntryPackets(config: Config, ops: seq<Op>, key: FlowKey) returns (ps: seq<Packet>)
    requires Lookup(Run(config, ops).entries, key).Some?
    ensures OneConversation(ps) && KeyOf(ps[0]) == key && multiset(ps) <= multiset(AllAdmitted(config, ops))
    ensures Lookup(Run(config, ops).entries, key) == Some(Replay(ps))
  {
    var s, l := Run(config, ops), RunLedger(config, ops);
    RunSound(config, ops);
    LookupAbsent(s.entries, key);
    var k := PositionOf(s.entries, key);
    DeleteAt(s.entries, k);
    ps := PacketsOf(l.accepted, l.home, l.open[k]);
    PacketsAreAccepted(l.accepted, l.home, l.open[k]);
    assert s.entries[k] == (KeyOfFlow(l, l.open[k]), StateOf(l, l.open[k]));
  }

  /** An admitted packet's flow is in the table afterwards exactly when it did not close. */
  lemma SettledKey(config: Config, s: State, p: Packet)
    requires WellFormed(s.entries)
    ensures Has(Aggregate(config, s, p).entries, KeyOf(p)) <==> !Closes(config, s, p)
  {
    var t := Absorb(config, s, p);
    AbsorbedLast(config, s, p);
    if Closes(config, s, p) {
      DeleteAt(t.entries, |t.entries| - 1);
      LookupAbsent(t.entries, KeyOf(p));
    } else {
      assert t.entries[|t.entries| - 1].0 == KeyOf(p);
    }
  }

  lemma AbsorbedLast(config: Config, s: State, p: Packet)
    requires WellFormed(s.entries)
    ensures
      var d := Absorb(config, s, p).entries;
      WellFormed(d) && d != [] && d[|d| - 1].0 == KeyOf(p)
  {
    LookupAbsent(s.entries, KeyOf(p));
    if Has(s.entries, KeyOf(p)) {
      var k := PositionOf(s.entries, KeyOf(p));
      PutLastAt(s.entries, k, s.entries[k].1.Observe(p));
    }
  }

  lemma Locate(l: Ledger, ids: seq<nat>, states: seq<FlowState>, f: FlowState) returns (id: nat)
    requires Homed(l) && States(l, ids, states) && f in states
    ensures id < l.flows && f == StateOf(l, id)
  {
    var i :| 0 <= i < |states| && states[i] == f;
    id := ids[i];
  }

  lemma {:induction false} PacketsAreAccepted(accepted: seq<Packet>, home: seq<nat>, f: nat)
    requires |accepted| == |home|
    ensures multiset(PacketsOf(accepted, home, f)) <= multiset(accepted)
  {
    if accepted != [] {
      var n := |accepted| - 1;
      PacketsAreAccepted(accepted[..n], home[..n], f);
      assert accepted == accepted[..n] + [accepted[n]];
    }
  }
}
