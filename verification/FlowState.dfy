/** Welford's running statistics over exact reals. */
module Welford {
  import opened Prelude

  /** `min`/`max` are None where the source holds the two infinities. */
  datatype RunningStats = RunningStats(count: nat, mean: real, m2: real, min: Option<real>, max: Option<real>) {
    function Add(value: real): RunningStats {
      var count' := count + 1;
      var delta := value - mean;
      var mean' := mean + delta / count' as real;
      RunningStats(count', mean', m2 + delta * (value - mean'),
                   if min.None? || value < min.value then Some(value) else min,
                   if max.None? || value > max.value then Some(value) else max)
    }
  }

  const EMPTY := RunningStats(0, 0.0, 0.0, None, None)

  function AddAll(xs: seq<real>): RunningStats {
    if xs == [] then EMPTY else AddAll(xs[..|xs| - 1]).Add(xs[|xs| - 1])
  }

  function Square(x: real): real {
    x * x
  }

  function Sum(xs: seq<real>): real {
    if xs == [] then 0.0 else Sum(xs[..|xs| - 1]) + xs[|xs| - 1]
  }

  /** Sum of squared deviations from `centre`. */
  function Deviation(xs: seq<real>, centre: real): real {
    if xs == [] then 0.0
    else Deviation(xs[..|xs| - 1], centre) + Square(xs[|xs| - 1] - centre)
  }

  function SumOfSquares(xs: seq<real>): real {
    if xs == [] then 0.0 else SumOfSquares(xs[..|xs| - 1]) + Square(xs[|xs| - 1])
  }

  function Expand(n: real, squares: real, sum: real, c: real): real {
    squares - 2.0 * c * sum + n * (c * c)
  }

  /** Huygens: squared deviations from any centre, in terms of the sum and the sum of squares. */
  lemma {:induction false} DeviationExpands(xs: seq<real>, c: real)
    ensures Deviation(xs, c) == Expand(|xs| as real, SumOfSquares(xs), Sum(xs), c)
  {
    if xs != [] {
      var rest, x := xs[..|xs| - 1], xs[|xs| - 1];
      assert Deviation(xs, c) == Deviation(rest, c) + Square(x - c);
      assert SumOfSquares(xs) == SumOfSquares(rest) + Square(x) && Sum(xs) == Sum(rest) + x;
      assert |xs| as real == |rest| as real + 1.0;
      DeviationExpands(rest, c);
      ExpandStep(|rest| as real, SumOfSquares(rest), Sum(rest), x, c);
    }
  }

  lemma ExpandStep(n: real, squares: real, sum: real, x: real, c: real)
    ensures Expand(n, squares, sum, c) + Square(x - c) == Expand(n + 1.0, squares + Square(x), sum + x, c)
  {
  }

  /** One Welford step in terms of the scaled increment of the mean. */
  lemma Increment(count: nat, mean: real, x: real) returns (e: real)
    ensures e == (x - mean) / (count + 1) as real
    ensures (count as real + 1.0) * e == x - mean
  {
    var m := (count + 1) as real;
    e := (x - mean) / m;
    assert m * e == x - mean;
  }

  lemma MeanStep(n: real, mean: real, sum: real, x: real, e: real)
    requires n * mean == sum && (n + 1.0) * e == x - mean
    ensures (n + 1.0) * (mean + e) == sum + x
  {
    assert (n + 1.0) * (mean + e) == n * mean + mean + (n + 1.0) * e;
  }

  ghost predicate MeanOf(r: RunningStats, sum: real) {
    r.count as real * r.mean == sum
  }

  lemma AddKeepsMean(r: RunningStats, sum: real, x: real)
    requires MeanOf(r, sum)
    ensures MeanOf(r.Add(x), sum + x)
  {
    var e := Increment(r.count, r.mean, x);
    MeanStep(r.count as real, r.mean, sum, x, e);
    assert r.Add(x).mean == r.mean + e;
    assert r.Add(x).count as real == r.count as real + 1.0;
  }

  lemma {:induction false} MeanIsExact(xs: seq<real>)
    ensures AddAll(xs).count == |xs|
    ensures MeanOf(AddAll(xs), Sum(xs))
  {
    if xs != [] {
      MeanIsExact(xs[..|xs| - 1]);
      AddKeepsMean(AddAll(xs[..|xs| - 1]), Sum(xs[..|xs| - 1]), xs[|xs| - 1]);
    }
  }

  ghost predicate DeviationOf(r: RunningStats, squares: real) {
    r.m2 == squares - r.count as real * (r.mean * r.mean)
  }

  lemma AddKeepsDeviation(r: RunningStats, squares: real, x: real)
    requires DeviationOf(r, squares)
    ensures DeviationOf(r.Add(x), squares + Square(x))
  {
    var e := Increment(r.count, r.mean, x);
    WelfordStep(r.count as real, e, x, r.mean);
    assert r.Add(x).mean == r.mean + e;
    assert r.Add(x).count as real == r.count as real + 1.0;
  }

  lemma WelfordStep(n: real, e: real, x: real, mean: real)
    requires (n + 1.0) * e == x - mean
    ensures (x - mean) * (x - (mean + e)) == x * x + n * (mean * mean) - (n + 1.0) * ((mean + e) * (mean + e))
  {
    var d := x - mean;
    assert d == (n + 1.0) * e && x == mean + d;
    assert (n + 1.0) * ((mean + e) * (mean + e)) == n * (mean * mean) + mean * mean + 2.0 * mean * d + d * e;
    assert x * x == mean * mean + 2.0 * mean * d + d * d;
  }

  lemma {:induction false} SquaresTracked(xs: seq<real>)
    ensures DeviationOf(AddAll(xs), SumOfSquares(xs))
  {
    if xs != [] {
      var rest, x := xs[..|xs| - 1], xs[|xs| - 1];
      assert AddAll(xs) == AddAll(rest).Add(x) && SumOfSquares(xs) == SumOfSquares(rest) + Square(x);
      SquaresTracked(rest);
      AddKeepsDeviation(AddAll(rest), SumOfSquares(rest), x);
    }
  }

  lemma CentreAtMean(r: RunningStats, squares: real, sum: real)
    requires MeanOf(r, sum) && DeviationOf(r, squares)
    ensures r.m2 == Expand(r.count as real, squares, sum, r.mean)
  {
    var n, mean := r.count as real, r.mean;
    assert mean * sum == mean * (n * mean) == n * (mean * mean);
  }

  /** `m2` is the sum of squared deviations from the true mean. */
  lemma DeviationIsExact(xs: seq<real>)
    ensures AddAll(xs).m2 == Deviation(xs, AddAll(xs).mean)
  {
    var r := AddAll(xs);
    MeanIsExact(xs);
    SquaresTracked(xs);
    CentreAtMean(r, SumOfSquares(xs), Sum(xs));
    assert r.count as real == |xs| as real;
    DeviationExpands(xs, r.mean);
  }

  lemma {:induction false} ExtremesAreExact(xs: seq<real>)
    ensures
      var r := AddAll(xs);
      && r.min.Some? == r.max.Some? == (xs != [])
      && (xs != [] ==> r.min.value in xs && r.max.value in xs)
      && (forall x :: x in xs ==> r.min.value <= x <= r.max.value)
  {
    if xs != [] {
      var rest, x := xs[..|xs| - 1], xs[|xs| - 1];
      ExtremesAreExact(rest);
      assert forall y :: y in xs <==> y in rest || y == x;
    }
  }

  lemma AddAllLast(xs: seq<real>, x: real)
    ensures AddAll(xs + [x]) == AddAll(xs).Add(x)
  {
    assert (xs + [x])[..|xs|] == xs;
  }
}

/** Per-flow accumulators of the native engine. */
module Flows {
  import opened Prelude
  import opened Frames
  import opened NativeParser
  import opened Welford

  // ------------------------------------------------------------------- identity

  type Endpoint = (nat, int)

  datatype FlowKey = FlowKey(proto: Proto, a: Endpoint, b: Endpoint)

  function PortValue(port: Option<nat>): int {
    if port.Some? then port.value else -1
  }

  function Source(p: Packet): Endpoint { (p.src, PortValue(p.sport)) }

  function Destination(p: Packet): Endpoint { (p.dst, PortValue(p.dport)) }

  predicate Before(x: Endpoint, y: Endpoint) {
    x.0 < y.0 || (x.0 == y.0 && x.1 < y.1)
  }

  function KeyOf(p: Packet): FlowKey {
    if Before(Destination(p), Source(p)) then FlowKey(p.proto, Destination(p), Source(p))
    else FlowKey(p.proto, Source(p), Destination(p))
  }

  predicate SameDirection(p: Packet, q: Packet) {
    p.src == q.src && p.sport == q.sport && p.dst == q.dst && p.dport == q.dport
  }

  predicate Reversed(p: Packet, q: Packet) {
    p.src == q.dst && p.sport == q.dport && p.dst == q.src && p.dport == q.sport
  }

  /** Two packets share a flow exactly when protocol and endpoints agree up to reversal. */
  lemma KeyIdentifiesConversation(p: Packet, q: Packet)
    ensures KeyOf(p) == KeyOf(q) <==> p.proto == q.proto && (SameDirection(p, q) || Reversed(p, q))
  {
    assert Source(p) == Source(q) <==> p.src == q.src && p.sport == q.sport;
    assert Source(p) == Destination(q) <==> p.src == q.dst && p.sport == q.dport;
    assert Destination(p) == Source(q) <==> p.dst == q.src && p.dport == q.sport;
    assert Destination(p) == Destination(q) <==> p.dst == q.dst && p.dport == q.dport;
  }

  // --------------------------------------------------------------- accumulation

  datatype FlowState = FlowState(
    proto: Proto,
    fwdSrc: nat,
    fwdSport: Option<nat>,
    fwdDst: nat,
    fwdDport: Option<nat>,
    fwdSrcMac: nat,
    fwdDstMac: nat,
    firstSeenUs: int,
    lastSeenUs: int,
    packetCount: nat,
    byteCount: nat,
    fwdPackets: nat,
    bwdPackets: nat,
    fwdBytes: nat,
    bwdBytes: nat,
    fwdPayload: nat,
    bwdPayload: nat,
    syn: nat,
    ack: nat,
    fin: nat,
    rst: nat,
    psh: nat,
    urg: nat,
    sawFinForward: bool,
    sawFinBackward: bool,
    sawRst: bool,
    initiated: bool,
    packetSize: RunningStats,
    payloadSize: RunningStats,
    interArrival: RunningStats,
    lastPacketUs: Option<int>)
  {
    predicate IsForward(p: Packet) {
      p.src == fwdSrc && p.sport == fwdSport
    }

    function Observe(p: Packet): FlowState {
      var forward := IsForward(p);
      this.(
      lastSeenUs := if p.tsUs > lastSeenUs then p.tsUs else lastSeenUs,
      packetCount := packetCount + 1,
      byteCount := byteCount + p.totalLength,
      fwdPackets := fwdPackets + if forward then 1 else 0,
      bwdPackets := bwdPackets + if forward then 0 else 1,
      fwdBytes := fwdBytes + if forward then p.totalLength else 0,
      bwdBytes := bwdBytes + if forward then 0 else p.totalLength,
      fwdPayload := fwdPayload + if forward then p.payloadLength else 0,
      bwdPayload := bwdPayload + if forward then 0 else p.payloadLength,
      syn := syn + (if Carries(p, SYN) then 1 else 0), ack := ack + (if Carries(p, ACK) then 1 else 0),
      fin := fin + (if Carries(p, FIN) then 1 else 0), rst := rst + (if Carries(p, RST) then 1 else 0),
      psh := psh + (if Carries(p, PSH) then 1 else 0), urg := urg + (if Carries(p, URG) then 1 else 0),
      sawFinForward := sawFinForward || (forward && Carries(p, FIN)),
      sawFinBackward := sawFinBackward || (!forward && Carries(p, FIN)),
      sawRst := sawRst || Carries(p, RST),
      packetSize := packetSize.Add(p.totalLength as real),
      payloadSize := payloadSize.Add(p.payloadLength as real),
      interArrival :=
        if lastPacketUs.Some? && SaturatingSub(p.tsUs, lastPacketUs.value) >= 0
        then interArrival.Add(Seconds(SaturatingSub(p.tsUs, lastPacketUs.value)))
        else interArrival,
      lastPacketUs := Some(p.tsUs))
    }

    predicate TcpCompleted() {
      proto == Tcp && (sawRst || (sawFinForward && sawFinBackward))
    }

    predicate ShouldClose(nowUs: int, activeS: real, inactiveS: real) {
      || TcpCompleted()
      || Seconds(SaturatingSub(nowUs, firstSeenUs)) >= activeS
      || Seconds(SaturatingSub(nowUs, lastSeenUs)) >= inactiveS
    }
  }

  predicate Carries(p: Packet, bit: nat)
    requires bit > 0
  {
    p.tcpFlags.Some? && FlagSet(p.tcpFlags.value, bit)
  }

  const I64_MAX: int := 0x7FFF_FFFF_FFFF_FFFF

  /** `i64::saturating_sub`. */
  function SaturatingSub(a: int, b: int): (d: int)
    ensures -0x8000_0000_0000_0000 <= d <= 0x7FFF_FFFF_FFFF_FFFF
    ensures -0x8000_0000_0000_0000 <= a - b <= 0x7FFF_FFFF_FFFF_FFFF ==> d == a - b
    ensures a - b < -0x8000_0000_0000_0000 ==> d == -0x8000_0000_0000_0000
    ensures a - b > 0x7FFF_FFFF_FFFF_FFFF ==> d == 0x7FFF_FFFF_FFFF_FFFF
  {
    Max(-I64_MAX - 1, Min(I64_MAX, a - b))
  }

  function Seconds(us: int): real {
    us as real / 1000000.0
  }

  /** The opening packet was a TCP SYN without ACK or RST, or anything that is not TCP. */
  predicate Initiates(p: Packet) {
    p.tcpFlags.Some? && p.proto == Tcp ==>
      FlagSet(p.tcpFlags.value, SYN) && !FlagSet(p.tcpFlags.value, ACK) && !FlagSet(p.tcpFlags.value, RST)
  }

  function Opening(p: Packet): FlowState {
    FlowState(p.proto, p.src, p.sport, p.dst, p.dport, p.srcMac, p.dstMac, p.tsUs, p.tsUs,
              0, 0, 0, 0, 0, 0, 0, 0, 0, 0, 0, 0, 0, 0, false, false, false, Initiates(p),
              EMPTY, EMPTY, EMPTY, None).Observe(p)
  }

  /** The state a flow has after exactly these packets. */
  function Replay(ps: seq<Packet>): FlowState
    requires ps != []
  {
    if |ps| == 1 then Opening(ps[0]) else Replay(ps[..|ps| - 1]).Observe(ps[|ps| - 1])
  }

  // ---------------------------------------------------------------- recomputation

  /** The packets that pass `test`, in order. */
  function Select(ps: seq<Packet>, test: Packet -> bool): seq<Packet> {
    if ps == [] then []
    else Select(ps[..|ps| - 1], test) + if test(ps[|ps| - 1]) then [ps[|ps| - 1]] else []
  }

  function Bytes(ps: seq<Packet>): nat {
    if ps == [] then 0 else Bytes(ps[..|ps| - 1]) + ps[|ps| - 1].totalLength
  }

  function PayloadBytes(ps: seq<Packet>): nat {
    if ps == [] then 0 else PayloadBytes(ps[..|ps| - 1]) + ps[|ps| - 1].payloadLength
  }

  /** Sent by the endpoint that opened the flow. */
  function FromOpener(first: Packet): Packet -> bool {
    (p: Packet) => p.src == first.src && p.sport == first.sport
  }

  /** Sent the other way: from the flow's destination to its source. */
  function ToOpener(first: Packet): Packet -> bool {
    (p: Packet) => !FromOpener(first)(p)
  }

  function With(bit: nat): Packet -> bool
    requires bit > 0
  {
    (p: Packet) => Carries(p, bit)
  }

  function Lengths(ps: seq<Packet>): seq<real> {
    seq(|ps|, i requires 0 <= i < |ps| => ps[i].totalLength as real)
  }

  function PayloadLengths(ps: seq<Packet>): seq<real> {
    seq(|ps|, i requires 0 <= i < |ps| => ps[i].payloadLength as real)
  }

  /** Seconds between successive packets, skipping steps back in time. */
  function Gaps(ps: seq<Packet>): seq<real> {
    if |ps| < 2 then []
    else
      var gap := SaturatingSub(ps[|ps| - 1].tsUs, ps[|ps| - 2].tsUs);
      if gap >= 0 then Gaps(ps[..|ps| - 1]) + [Seconds(gap)] else Gaps(ps[..|ps| - 1])
  }

  /** Every counter of a flow, recomputed from its packet list. */
  ghost predicate CountersAgree(f: FlowState, ps: seq<Packet>)
    requires ps != []
  {
    var forward, backward := Select(ps, FromOpener(ps[0])), Select(ps, ToOpener(ps[0]));
    && f.packetCount == |ps| && f.byteCount == Bytes(ps)
    && f.fwdPackets == |forward| && f.bwdPackets == |backward|
    && f.fwdBytes == Bytes(forward) && f.bwdBytes == Bytes(backward)
    && f.fwdPayload == PayloadBytes(forward) && f.bwdPayload == PayloadBytes(backward)
  }

  ghost predicate FlagsAgree(f: FlowState, ps: seq<Packet>)
    requires ps != []
  {
    && f.syn == |Select(ps, With(SYN))| && f.ack == |Select(ps, With(ACK))| && f.fin == |Select(ps, With(FIN))|
    && f.rst == |Select(ps, With(RST))| && f.psh == |Select(ps, With(PSH))| && f.urg == |Select(ps, With(URG))|
  }

  ghost predicate ClosureAgrees(f: FlowState, ps: seq<Packet>)
    requires ps != []
  {
    && (f.sawRst <==> exists p :: p in ps && Carries(p, RST))
    && (f.sawFinForward <==> exists p :: p in ps && Carries(p, FIN) && FromOpener(ps[0])(p))
    && (f.sawFinBackward <==> exists p :: p in ps && Carries(p, FIN) && !FromOpener(ps[0])(p))
  }

  ghost predicate StatisticsAgree(f: FlowState, ps: seq<Packet>)
    requires ps != []
  {
    && f.packetSize == AddAll(Lengths(ps))
    && f.payloadSize == AddAll(PayloadLengths(ps))
    && f.interArrival == AddAll(Gaps(ps))
  }

  /** The identity and the clock come from the first packet; the last time is the latest one. */
  ghost predicate IdentityAgrees(f: FlowState, ps: seq<Packet>)
    requires ps != []
  {
    var first := ps[0];
    && f.proto == first.proto && f.fwdSrc == first.src && f.fwdSport == first.sport
    && f.fwdDst == first.dst && f.fwdDport == first.dport
    && f.fwdSrcMac == first.srcMac && f.fwdDstMac == first.dstMac
    && f.firstSeenUs == first.tsUs && f.initiated == Initiates(first)
    && f.lastPacketUs == Some(ps[|ps| - 1].tsUs)
    && (exists p :: p in ps && p.tsUs == f.lastSeenUs)
    && (forall p :: p in ps ==> p.tsUs <= f.lastSeenUs)
  }

  ghost predicate Recounted(f: FlowState, ps: seq<Packet>)
    requires ps != []
  {
    CountersAgree(f, ps) && FlagsAgree(f, ps) && ClosureAgrees(f, ps) && StatisticsAgree(f, ps) && IdentityAgrees(f, ps)
  }

  lemma SelectLast(ps: seq<Packet>, p: Packet, test: Packet -> bool)
    ensures Select(ps + [p], test) == if test(p) then Select(ps, test) + [p] else Select(ps, test)
  {
    assert (ps + [p])[..|ps|] == ps;
  }

  lemma BytesLast(ps: seq<Packet>, p: Packet)
    ensures Bytes(ps + [p]) == Bytes(ps) + p.totalLength
    ensures PayloadBytes(ps + [p]) == PayloadBytes(ps) + p.payloadLength
  {
    assert (ps + [p])[..|ps|] == ps;
  }

  /** What one packet adds to the directional counters. */
  ghost predicate CountersMove(f: FlowState, g: FlowState, p: Packet, forward: bool) {
    && g.packetCount == f.packetCount + 1 && g.byteCount == f.byteCount + p.totalLength
    && g.fwdPackets == f.fwdPackets + (if forward then 1 else 0)
    && g.bwdPackets == f.bwdPackets + (if forward then 0 else 1)
    && g.fwdBytes == f.fwdBytes + (if forward then p.totalLength else 0)
    && g.bwdBytes == f.bwdBytes + (if forward then 0 else p.totalLength)
    && g.fwdPayload == f.fwdPayload + (if forward then p.payloadLength else 0)
    && g.bwdPayload == f.bwdPayload + (if forward then 0 else p.payloadLength)
  }

  lemma CountersStep(f: FlowState, g: FlowState, ps: seq<Packet>, p: Packet)
    requires ps != [] && CountersAgree(f, ps) && CountersMove(f, g, p, FromOpener(ps[0])(p))
    ensures CountersAgree(g, ps + [p])
  {
    var forward, backward := FromOpener(ps[0]), ToOpener(ps[0]);
    assert backward(p) == !forward(p);
    SelectLast(ps, p, forward);
    SelectLast(ps, p, backward);
    BytesLast(ps, p);
    BytesLast(Select(ps, forward), p);
    BytesLast(Select(ps, backward), p);
  }

  lemma CountersOpening(p: Packet)
    ensures CountersAgree(Opening(p), [p])
  {
    assert [p] == [] + [p];
    SelectLast([], p, FromOpener(p));
    SelectLast([], p, ToOpener(p));
    BytesLast([], p);
  }

  lemma {:induction false} CountersRecount(ps: seq<Packet>)
    requires ps != []
    ensures CountersAgree(Replay(ps), ps)
  {
    var rest, p := ps[..|ps| - 1], ps[|ps| - 1];
    assert ps == rest + [p];
    if rest == [] {
      CountersOpening(p);
    } else {
      assert Replay(ps) == Replay(rest).Observe(p);
      CountersRecount(rest);
      IdentityRecount(rest);
      assert CountersMove(Replay(rest), Replay(ps), p, FromOpener(ps[0])(p));
      CountersStep(Replay(rest), Replay(ps), rest, p);
    }
  }

  lemma {:induction false} IdentityRecount(ps: seq<Packet>)
    requires ps != []
    ensures IdentityAgrees(Replay(ps), ps)
  {
    var rest, p := ps[..|ps| - 1], ps[|ps| - 1];
    if rest != [] {
      IdentityRecount(rest);
      assert forall q :: q in ps <==> q in rest || q == p;
    }
  }

  lemma {:induction false} FlagsRecount(ps: seq<Packet>)
    requires ps != []
    ensures FlagsAgree(Replay(ps), ps)
  {
    var rest, p := ps[..|ps| - 1], ps[|ps| - 1];
    if rest != [] {
      FlagsRecount(rest);
    }
  }

  lemma {:induction false} ClosureRecount(ps: seq<Packet>)
    requires ps != []
    ensures ClosureAgrees(Replay(ps), ps)
  {
    var rest, p := ps[..|ps| - 1], ps[|ps| - 1];
    if rest != [] {
      ClosureRecount(rest);
      IdentityRecount(rest);
      assert forall q :: q in ps <==> q in rest || q == p;
    }
  }

  lemma LengthsLast(ps: seq<Packet>, p: Packet)
    ensures AddAll(Lengths(ps + [p])) == AddAll(Lengths(ps)).Add(p.totalLength as real)
    ensures AddAll(PayloadLengths(ps + [p])) == AddAll(PayloadLengths(ps)).Add(p.payloadLength as real)
  {
    assert Lengths(ps + [p]) == Lengths(ps) + [p.totalLength as real];
    assert PayloadLengths(ps + [p]) == PayloadLengths(ps) + [p.payloadLength as real];
    AddAllLast(Lengths(ps), p.totalLength as real);
    AddAllLast(PayloadLengths(ps), p.payloadLength as real);
  }

  lemma GapsLast(ps: seq<Packet>, p: Packet)
    requires ps != []
    ensures
      var gap := SaturatingSub(p.tsUs, ps[|ps| - 1].tsUs);
      AddAll(Gaps(ps + [p])) == if gap >= 0 then AddAll(Gaps(ps)).Add(Seconds(gap)) else AddAll(Gaps(ps))
  {
    var all, gap := ps + [p], SaturatingSub(p.tsUs, ps[|ps| - 1].tsUs);
    assert all[..|ps|] == ps;
    if gap >= 0 {
      assert Gaps(all) == Gaps(ps) + [Seconds(gap)];
      AddAllLast(Gaps(ps), Seconds(gap));
    } else {
      assert Gaps(all) == Gaps(ps);
    }
  }

  lemma StatisticsStep(f: FlowState, ps: seq<Packet>, p: Packet)
    requires ps != [] && StatisticsAgree(f, ps) && f.lastPacketUs == Some(ps[|ps| - 1].tsUs)
    ensures StatisticsAgree(f.Observe(p), ps + [p])
  {
    LengthsLast(ps, p);
    GapsLast(ps, p);
  }

  lemma {:induction false} StatisticsRecount(ps: seq<Packet>)
    requires ps != []
    ensures StatisticsAgree(Replay(ps), ps)
  {
    var rest, p := ps[..|ps| - 1], ps[|ps| - 1];
    assert ps == rest + [p];
    if rest != [] {
      StatisticsRecount(rest);
      IdentityRecount(rest);
      StatisticsStep(Replay(rest), rest, p);
    } else {
      LengthsLast(rest, p);
    }
  }

  /** A flow's accumulators are the recomputation from its packet list. */
  lemma ReplayIsRecount(ps: seq<Packet>)
    requires ps != []
    ensures Recounted(Replay(ps), ps)
  {
    CountersRecount(ps);
    IdentityRecount(ps);
    FlagsRecount(ps);
    ClosureRecount(ps);
    StatisticsRecount(ps);
  }

  // ------------------------------------------------------------------ when a flow ends

  /** A TCP conversation is over: a RST, or a FIN from the opener and one from the other end. */
  ghost predicate Hung(ps: seq<Packet>)
    requires ps != []
  {
    && ps[0].proto == Tcp
    && ((exists p :: p in ps && Carries(p, 0x04))
        || ((exists p :: p in ps && Carries(p, 0x01) && p.src == ps[0].src && p.sport == ps[0].sport)
            && (exists p :: p in ps && Carries(p, 0x01) && !(p.src == ps[0].src && p.sport == ps[0].sport))))
  }

  /** The seconds from `thenUs` to `nowUs`. */
  function Elapsed(nowUs: int, thenUs: int): real { (nowUs - thenUs) as real / 1000000.0 }

  /** It is over, it opened `activeS` or more ago, or every packet of it came `inactiveS` or more ago. */
  ghost predicate Due(ps: seq<Packet>, nowUs: int, activeS: real, inactiveS: real)
    requires ps != []
  {
    || Hung(ps)
    || Elapsed(nowUs, ps[0].tsUs) >= activeS
    || forall p :: p in ps ==> Elapsed(nowUs, p.tsUs) >= inactiveS
  }

  /** A timeout that a difference of two 64-bit microsecond times can reach. */
  predicate Reachable(seconds: real) { 0.0 <= seconds <= 9223372036854.0 }

  lemma SaturationHidesNothing(nowUs: int, thenUs: int, seconds: real)
    requires Reachable(seconds)
    ensures Seconds(SaturatingSub(nowUs, thenUs)) >= seconds <==> Elapsed(nowUs, thenUs) >= seconds
  {
  }

  /** When a flow closes, from its packets alone. */
  lemma ClosesExactly(ps: seq<Packet>, nowUs: int, activeS: real, inactiveS: real)
    requires ps != [] && Reachable(activeS) && Reachable(inactiveS)
    ensures Replay(ps).ShouldClose(nowUs, activeS, inactiveS) <==> Due(ps, nowUs, activeS, inactiveS)
  {
    var f := Replay(ps);
    IdentityRecount(ps);
    ClosureRecount(ps);
    SaturationHidesNothing(nowUs, ps[0].tsUs, activeS);
    SaturationHidesNothing(nowUs, f.lastSeenUs, inactiveS);
    assert f.TcpCompleted() <==> Hung(ps);
    forall p | p in ps ensures Elapsed(nowUs, p.tsUs) >= Elapsed(nowUs, f.lastSeenUs) {
    }
  }

  /** A packet of the flow that is not counted forward travels exactly the reverse way. */
  lemma BackwardIsReversed(ps: seq<Packet>, p: Packet)
    requires ps != [] && KeyOf(p) == KeyOf(ps[0])
    ensures Replay(ps).IsForward(p) <==> FromOpener(ps[0])(p)
    ensures !Replay(ps).IsForward(p) ==> Reversed(p, ps[0])
    ensures Replay(ps).IsForward(p) ==> SameDirection(p, ps[0])
  {
    IdentityRecount(ps);
    KeyIdentifiesConversation(p, ps[0]);
  }

  /** Forward and backward halves add up. */
  lemma {:induction false} DirectionsPartition(ps: seq<Packet>)
    requires ps != []
    ensures
      var f := Replay(ps);
      && f.fwdPackets + f.bwdPackets == f.packetCount == |ps|
      && f.fwdBytes + f.bwdBytes == f.byteCount == Bytes(ps)
      && f.fwdPayload + f.bwdPayload == PayloadBytes(ps)
  {
    var rest, p := ps[..|ps| - 1], ps[|ps| - 1];
    if rest != [] {
      DirectionsPartition(rest);
    } else {
      assert Bytes(rest) == 0 && PayloadBytes(rest) == 0;
    }
  }
}
