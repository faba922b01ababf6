/** Walking one `TPACKET_V3` ring block. */
module RingBlock {
  import opened Prelude
  import opened Fields

  const NUM_PKTS := 12
  const FIRST_PKT := 16
  const PKT_NEXT := 0
  const PKT_SEC := 4
  const PKT_NSEC := 8
  const PKT_SNAPLEN := 12
  const PKT_MAC := 24
  const PKT_HEADER_MIN := 26

  /** What the callback receives. */
  datatype Delivery = Delivery(frame: seq<Byte>, tsUs: int)

  /** One packet visited: delivered, or skipped because its frame offset leaves the block. */
  type Visit = Option<Delivery>

  function U32At(block: seq<Byte>, at: nat, big: bool): Option<nat> {
    if at + 4 <= |block| then Some(Get32(block, at, big)) else None
  }

  /** The distance to the next packet, read from the header at `offset`. */
  function NextAt(block: seq<Byte>, offset: nat, big: bool): nat
    requires offset + PKT_HEADER_MIN <= |block|
  {
    Get32(block, offset + PKT_NEXT, big)
  }

  function TimeAt(block: seq<Byte>, offset: nat, big: bool): int
    requires offset + PKT_HEADER_MIN <= |block|
  {
    Get32(block, offset + PKT_SEC, big) * 1_000_000 + Get32(block, offset + PKT_NSEC, big) / 1_000
  }

  /** What a visit makes of the packet at `offset`: the frame is clamped to the block. */
  function VisitAt(block: seq<Byte>, offset: nat, big: bool): Visit
    requires offset + PKT_HEADER_MIN <= |block|
  {
    var mac := Get16(block, offset + PKT_MAC, big);
    var left := |block| - offset;
    if mac <= left then
      var length := Min(Get32(block, offset + PKT_SNAPLEN, big), left - mac);
      Some(Delivery(block[offset + mac..offset + mac + length], TimeAt(block, offset, big)))
    else None
  }

  /** The packets reachable from `offset`, at most `budget` of them. */
  function Offsets(block: seq<Byte>, offset: nat, budget: nat, big: bool): (offs: seq<nat>)
    ensures forall i :: 0 <= i < |offs| ==> offs[i] + PKT_HEADER_MIN <= |block|
    ensures |offs| <= budget
    decreases budget
  {
    if budget == 0 || offset + PKT_HEADER_MIN > |block| then []
    else
      var next := NextAt(block, offset, big);
      var rest := if next == 0 || offset + next >= |block| then [] else Offsets(block, offset + next, budget - 1, big);
      [offset] + rest
  }

  /** The calls made for packets at these offsets, in order. */
  function Calls(block: seq<Byte>, offs: seq<nat>, big: bool): seq<Delivery>
    requires forall i :: 0 <= i < |offs| ==> offs[i] + PKT_HEADER_MIN <= |block|
  {
    if offs == [] then []
    else
      var visit, rest := VisitAt(block, offs[0], big), Calls(block, offs[1..], big);
      if visit.Some? then [visit.value] + rest else rest
  }

  /** The packets of a whole block; a block too short for its own header has none. */
  function BlockOffsets(block: seq<Byte>, big: bool): (offs: seq<nat>)
    ensures forall i :: 0 <= i < |offs| ==> offs[i] + PKT_HEADER_MIN <= |block|
  {
    match (U32At(block, NUM_PKTS, big), U32At(block, FIRST_PKT, big))
    case (Some(count), Some(first)) => Offsets(block, first, count, big)
    case _ => []
  }

  /** The walk itself. `big` is the machine's byte order; the callback's calls are collected in order. */
  method WalkBlock(block: seq<Byte>, big: bool) returns (visited: nat, calls: seq<Delivery>)
    ensures visited == |BlockOffsets(block, big)| && calls == Calls(block, BlockOffsets(block, big), big)
  {
    visited, calls := 0, [];
    var count := U32At(block, NUM_PKTS, big);
    if count.None? {
      return;
    }
    var first := U32At(block, FIRST_PKT, big);
    if first.None? {
      return;
    }
    visited, calls := WalkFrom(block, first.value, count.value, big);
  }

  /** How many packets a walk visits, and the calls it makes. */
  datatype Walked = Walked(visited: nat, calls: seq<Delivery>)
  {
    ghost function After(visited: nat, calls: seq<Delivery>): Walked {
      Walked(visited + this.visited, calls + this.calls)
    }
  }

  /** What the rest of the walk will do. */
  ghost function Rest(block: seq<Byte>, offset: nat, left: nat, walking: bool, big: bool): Walked {
    var offs := Offsets(block, offset, left, big);
    if walking then Walked(|offs|, Calls(block, offs, big)) else Walked(0, [])
  }

  method WalkFrom(block: seq<Byte>, first: nat, count: nat, big: bool) returns (visited: nat, calls: seq<Delivery>)
    ensures Walked(visited, calls) == Rest(block, first, count, true, big)
  {
    visited, calls := 0, [];
    var offset: nat, left: nat, walking := first, count, true;
    ghost var whole := Rest(block, first, count, true, big);
    while walking && left > 0
      invariant Rest(block, offset, left, walking, big).After(visited, calls) == whole
      decreases left, walking
    {
      offset, left, walking, visited, calls := VisitOne(block, offset, left, big, visited, calls, whole);
    }
    Stopped(block, offset, left, walking, big, visited, calls);
  }

  /** Delivers the packet at `offset`, if its header is inside the block, and moves on to the next. */
  method VisitOne(
    block: seq<Byte>, offset: nat, left: nat, big: bool, visited: nat, calls: seq<Delivery>, ghost whole: Walked)
    returns (next: nat, left': nat, walking: bool, visited': nat, delivered: seq<Delivery>)
    requires left > 0 && Rest(block, offset, left, true, big).After(visited, calls) == whole
    ensures Rest(block, next, left', walking, big).After(visited', delivered) == whole
    ensures left' < left || (left' == left && !walking)
  {
    if offset + PKT_HEADER_MIN > |block| {
      Progress(block, offset, left, big, visited, calls);
      return offset, left, false, visited, calls;
    }
    next, walking, delivered := Deliver(block, offset, left, big, visited, calls, whole);
    left', visited' := left - 1, visited + 1;
  }

  method Deliver(
    block: seq<Byte>, offset: nat, left: nat, big: bool, ghost visited: nat, calls: seq<Delivery>, ghost whole: Walked)
    returns (next: nat, walking: bool, delivered: seq<Delivery>)
    requires left > 0 && offset + PKT_HEADER_MIN <= |block|
    requires Rest(block, offset, left, true, big).After(visited, calls) == whole
    ensures Rest(block, next, left - 1, walking, big).After(visited + 1, delivered) == whole
  {
    Progress(block, offset, left, big, visited, calls);
    var step := NextAt(block, offset, big);
    next, walking := offset + step, step != 0 && offset + step < |block|;
    delivered := Called(calls, VisitAt(block, offset, big));
  }

  function Called(calls: seq<Delivery>, visit: Option<Delivery>): seq<Delivery> {
    if visit.Some? then calls + [visit.value] else calls
  }

  lemma Stopped(block: seq<Byte>, offset: nat, left: nat, walking: bool, big: bool, visited: nat, calls: seq<Delivery>)
    requires !walking || left == 0
    ensures Rest(block, offset, left, walking, big).After(visited, calls) == Walked(visited, calls)
  {
    assert calls + [] == calls;
  }

  /** One step of the walk. */
  lemma Progress(block: seq<Byte>, offset: nat, left: nat, big: bool, visited: nat, calls: seq<Delivery>)
    requires left > 0
    ensures Rest(block, offset, left, true, big).After(visited, calls) ==
      if offset + PKT_HEADER_MIN > |block| then Rest(block, offset, left, false, big).After(visited, calls)
      else
        var next, visit := NextAt(block, offset, big), VisitAt(block, offset, big);
        Rest(block, offset + next, left - 1, next != 0 && offset + next < |block|, big)
        .After(visited + 1, Called(calls, visit))
  {
    if offset + PKT_HEADER_MIN <= |block| {
      var offs := Offsets(block, offset, left, big);
      var visit, rest := VisitAt(block, offset, big), Calls(block, offs[1..], big);
      assert offs[0] == offset && Calls(block, offs, big) == if visit.Some? then [visit.value] + rest else rest;
      if visit.Some? {
        assert calls + ([visit.value] + rest) == (calls + [visit.value]) + rest;
      }
    }
  }

  /**
   Whatever the header says, a packet whose frame starts inside the block is delivered from there: as many octets as it
   declares, or all that are left.
   */
  lemma FrameIsClamped(block: seq<Byte>, offset: nat, big: bool)
    requires offset + 26 <= |block|
    ensures
      var start, declared := offset + Get16(block, offset + 24, big), Get32(block, offset + 12, big);
      if start > |block| then VisitAt(block, offset, big).None?
      else
        && VisitAt(block, offset, big).Some?
        && var frame := VisitAt(block, offset, big).value.frame;
           && frame <= block[start..] && |frame| <= declared
           && (|frame| == declared || frame == block[start..])
  {
  }

  /** No value read from the ring makes a delivered slice leave the block. */
  lemma {:induction false} CallsInside(block: seq<Byte>, offs: seq<nat>, big: bool)
    requires forall i :: 0 <= i < |offs| ==> offs[i] + PKT_HEADER_MIN <= |block|
    ensures forall c :: c in Calls(block, offs, big) ==>
      exists lo, hi :: 0 <= lo <= hi <= |block| && c.frame == block[lo..hi]
    ensures |Calls(block, offs, big)| <= |offs|
  {
    if offs != [] {
      CallsInside(block, offs[1..], big);
      var visit := VisitAt(block, offs[0], big);
      if visit.Some? {
        var lo := offs[0] + Get16(block, offs[0] + PKT_MAC, big);
        assert visit.value.frame == block[lo..lo + |visit.value.frame|];
      }
    }
  }

  lemma WalkStaysInside(block: seq<Byte>, big: bool)
    ensures
      var calls := Calls(block, BlockOffsets(block, big), big);
      && (forall c :: c in calls ==> exists lo, hi :: 0 <= lo <= hi <= |block| && c.frame == block[lo..hi])
      && (U32At(block, NUM_PKTS, big).Some? ==>
          |calls| <= |BlockOffsets(block, big)| <= U32At(block, NUM_PKTS, big).value)
  {
    CallsInside(block, BlockOffsets(block, big), big);
  }

  // ---------------------------------------------------------- blocks the kernel writes

  /** One captured frame with its kernel timestamp. */
  datatype Captured = Captured(data: seq<Byte>, sec: nat, nsec: nat)

  function Zeros(n: nat): (z: seq<Byte>)
    ensures |z| == n
  {
    seq(n, _ => 0)
  }

  /** Distance to the next packet: header and frame, rounded up to 16 bytes. */
  function Stride(c: Captured, mac: nat): nat {
    (mac + |c.data| + 15) / 16 * 16
  }

  predicate Fits(c: Captured, mac: nat) {
    c.sec < U32 && c.nsec < U32 && Stride(c, mac) < U32
  }

  predicate AllFit(cs: seq<Captured>, mac: nat) {
    forall i :: 0 <= i < |cs| ==> Fits(cs[i], mac)
  }

  /** The packet header up to the frame: next offset, time, length, frame offset, zero elsewhere. */
  function PacketHeader(c: Captured, next: nat, mac: nat, big: bool): (h: seq<Byte>)
    requires Fits(c, mac) && next < U32 && PKT_HEADER_MIN <= mac < U16
    ensures |h| == mac
  {
    Put32(next, big) + Put32(c.sec, big) + Put32(c.nsec, big) + Put32(|c.data|, big)
    + Zeros(8) + Put16(mac, big) + Zeros(mac - PKT_HEADER_MIN)
  }

  /** Header and frame; every packet but the last is padded to its stride and points at the next. */
  function Packets(cs: seq<Captured>, mac: nat, big: bool): seq<Byte>
    requires AllFit(cs, mac) && PKT_HEADER_MIN <= mac < U16
  {
    if cs == [] then []
    else if |cs| == 1 then PacketHeader(cs[0], 0, mac, big) + cs[0].data
    else
      PacketHeader(cs[0], Stride(cs[0], mac), mac, big) + cs[0].data + Zeros(Stride(cs[0], mac) - mac - |cs[0].data|)
      + Packets(cs[1..], mac, big)
  }

  /** Block descriptor: packet count and first offset, zero elsewhere. */
  function Descriptor(count: nat, first: nat, big: bool): (d: seq<Byte>)
    requires count < U32 && 20 <= first < U32
    ensures |d| == first
  {
    Zeros(NUM_PKTS) + Put32(count, big) + Put32(first, big) + Zeros(first - 20)
  }

  function Expected(c: Captured): Delivery {
    Delivery(c.data, c.sec * 1_000_000 + c.nsec / 1_000)
  }

  /** A field of the packet header lies where the walker looks for it, at any offset in the block. */
  lemma HeaderField(before: seq<Byte>, lead: seq<Byte>, n: nat, count: nat, tail: seq<Byte>, big: bool)
    requires n < Pow256(count)
    ensures Get(before + (lead + Put(n, count, big) + tail), |before| + |lead|, count, big) == n
  {
    var p := Put(n, count, big);
    FieldAt(before + lead, n, count, tail, big);
    Regroup(before, lead + p, tail);
    Regroup(before, lead, p);
  }

  /** One 32-bit word of a packet, wherever the packet lies. */
  lemma WordAt(before: seq<Byte>, packet: seq<Byte>, at: nat, n: nat, big: bool)
    requires n < U32 && at + 4 <= |packet| && packet[at..at + 4] == Put32(n, big)
    ensures Get32(before + packet, |before| + at, big) == n
  {
    Widths();
    assert packet == packet[..at] + Put32(n, big) + packet[at + 4..];
    HeaderField(before, packet[..at], n, 4, packet[at + 4..], big);
  }

  /** The words of a packet header, each where the walker looks for it. */
  lemma HeaderWords(c: Captured, next: nat, mac: nat, big: bool, rest: seq<Byte>)
    requires Fits(c, mac) && next < U32 && PKT_HEADER_MIN <= mac < U16
    ensures
      var packet := PacketHeader(c, next, mac, big) + rest;
      && |packet| >= PKT_HEADER_MIN
      && packet[PKT_NEXT..PKT_NEXT + 4] == Put32(next, big) && packet[PKT_SEC..PKT_SEC + 4] == Put32(c.sec, big)
      && packet[PKT_NSEC..PKT_NSEC + 4] == Put32(c.nsec, big)
      && packet[PKT_SNAPLEN..PKT_SNAPLEN + 4] == Put32(|c.data|, big)
      && packet[PKT_MAC..PKT_MAC + 2] == Put16(mac, big)
  {
  }

  lemma PacketFields(before: seq<Byte>, c: Captured, next: nat, mac: nat, big: bool, rest: seq<Byte>)
    requires Fits(c, mac) && next < U32 && PKT_HEADER_MIN <= mac < U16
    ensures
      var block, at := before + (PacketHeader(c, next, mac, big) + rest), |before|;
      && Get32(block, at + PKT_NEXT, big) == next && Get32(block, at + PKT_SEC, big) == c.sec
      && Get32(block, at + PKT_NSEC, big) == c.nsec && Get32(block, at + PKT_SNAPLEN, big) == |c.data|
      && Get16(block, at + PKT_MAC, big) == mac
  {
    var packet := PacketHeader(c, next, mac, big) + rest;
    HeaderWords(c, next, mac, big, rest);
    WordAt(before, packet, PKT_NEXT, next, big);
    WordAt(before, packet, PKT_SEC, c.sec, big);
    WordAt(before, packet, PKT_NSEC, c.nsec, big);
    WordAt(before, packet, PKT_SNAPLEN, |c.data|, big);
    HalfAt(before, packet, PKT_MAC, mac, big);
  }

  lemma HalfAt(before: seq<Byte>, packet: seq<Byte>, at: nat, n: nat, big: bool)
    requires n < U16 && at + 2 <= |packet| && packet[at..at + 2] == Put16(n, big)
    ensures Get16(before + packet, |before| + at, big) == n
  {
    Widths();
    assert packet == packet[..at] + Put16(n, big) + packet[at + 2..];
    HeaderField(before, packet[..at], n, 2, packet[at + 2..], big);
  }

  lemma FrameBytes(before: seq<Byte>, header: seq<Byte>, data: seq<Byte>, rest: seq<Byte>)
    ensures
      var lo := |before| + |header|;
      (before + (header + (data + rest)))[lo..lo + |data|] == data
  {
  }

  /** A packet is delivered with its exact bytes and time. */
  lemma PacketVisited(before: seq<Byte>, c: Captured, next: nat, mac: nat, big: bool, rest: seq<Byte>)
    requires Fits(c, mac) && next < U32 && PKT_HEADER_MIN <= mac < U16
    ensures
      var block := before + (PacketHeader(c, next, mac, big) + (c.data + rest));
      VisitAt(block, |before|, big) == Some(Expected(c)) && NextAt(block, |before|, big) == next
  {
    PacketFields(before, c, next, mac, big, c.data + rest);
    FrameBytes(before, PacketHeader(c, next, mac, big), c.data, rest);
  }

  /** Where each packet starts. */
  function Positions(cs: seq<Captured>, at: nat, mac: nat): seq<nat> {
    if cs == [] then [] else [at] + Positions(cs[1..], at + Stride(cs[0], mac), mac)
  }

  /** The first of several packets, and what follows it. */
  lemma LayoutStep(
    cs: seq<Captured>, mac: nat, big: bool, padding: seq<Byte>) returns (first: seq<Byte>, gap: seq<Byte>)
    requires AllFit(cs, mac) && PKT_HEADER_MIN <= mac < U16 && |cs| > 1
    ensures |first| == Stride(cs[0], mac)
    ensures Packets(cs, mac, big) + padding == first + (Packets(cs[1..], mac, big) + padding)
    ensures first + (Packets(cs[1..], mac, big) + padding)
         == PacketHeader(cs[0], Stride(cs[0], mac), mac, big)
             + (cs[0].data + (gap + (Packets(cs[1..], mac, big) + padding)))
  {
    gap := Zeros(Stride(cs[0], mac) - mac - |cs[0].data|);
    first := PacketHeader(cs[0], Stride(cs[0], mac), mac, big) + cs[0].data + gap;
  }

  lemma PacketsNonEmpty(cs: seq<Captured>, mac: nat, big: bool)
    requires AllFit(cs, mac) && PKT_HEADER_MIN <= mac < U16 && cs != []
    ensures |Packets(cs, mac, big)| >= mac
  {
  }

  /** A walk from `at` over packets laid out there. */
  datatype Walk = Walk(block: seq<Byte>, at: nat, cs: seq<Captured>, mac: nat, budget: nat, big: bool)
  {
    ghost function Offs(): seq<nat> { Offsets(block, at, budget, big) }

    /** It visits each packet in order and stops at the last. */
    ghost predicate Visits() {
      Offs() == Positions(cs, at, mac) && forall i :: 0 <= i < |cs| ==> VisitedAt(block, Offs(), cs, i, big)
    }
  }

  type FullWalk = w: Walk | w.Visits() ghost witness Walk([], 0, [], 0, 0, false)

  ghost predicate VisitedAt(block: seq<Byte>, offs: seq<nat>, cs: seq<Captured>, i: nat, big: bool)
    requires i < |cs|
  {
    i < |offs| && offs[i] + PKT_HEADER_MIN <= |block| && VisitAt(block, offs[i], big) == Some(Expected(cs[i]))
  }

  /** Walking packets laid out by the kernel visits each one in order and stops at the last. */
  lemma {:induction false} PacketsVisited(
    block: seq<Byte>, before: seq<Byte>, cs: seq<Captured>, mac: nat, big: bool, padding: seq<Byte>, budget: nat)
    returns (w: FullWalk)
    requires AllFit(cs, mac) && PKT_HEADER_MIN <= mac < U16 && 0 < |cs| <= budget
    requires block == before + (Packets(cs, mac, big) + padding)
    ensures w == Walk(block, |before|, cs, mac, budget, big)
    decreases |cs|
  {
    if |cs| == 1 {
      w := LastVisited(block, before, cs, mac, big, padding, budget);
    } else {
      var first, gap := LayoutAt(block, before, cs, mac, big, padding);
      w := PacketsVisited(block, before + first, cs[1..], mac, big, padding, budget - 1);
      w := FirstVisited(w, before, first, gap, Packets(cs[1..], mac, big) + padding, cs);
    }
  }

  /** The block around the first of several packets, grouped both ways. */
  lemma LayoutAt(block: seq<Byte>, before: seq<Byte>, cs: seq<Captured>, mac: nat, big: bool, padding: seq<Byte>)
    returns (first: seq<Byte>, gap: seq<Byte>)
    requires AllFit(cs, mac) && PKT_HEADER_MIN <= mac < U16 && |cs| > 1
    requires block == before + (Packets(cs, mac, big) + padding)
    ensures
      var rest := Packets(cs[1..], mac, big) + padding;
      && rest != [] && |first| == Stride(cs[0], mac) && |before + first| == |before| + |first|
      && block == before + (first + rest) && block == (before + first) + rest
      && first + rest == PacketHeader(cs[0], Stride(cs[0], mac), mac, big) + (cs[0].data + (gap + rest))
  {
    first, gap := LayoutStep(cs, mac, big, padding);
    PacketsNonEmpty(cs[1..], mac, big);
    Regroup(before, first, Packets(cs[1..], mac, big) + padding);
  }

  lemma Regroup(a: seq<Byte>, b: seq<Byte>, c: seq<Byte>)
    ensures (a + b) + c == a + (b + c)
  {
  }

  lemma LastVisited(
    block: seq<Byte>, before: seq<Byte>, cs: seq<Captured>, mac: nat, big: bool, padding: seq<Byte>, budget: nat)
    returns (w: FullWalk)
    requires |cs| == 1 && Fits(cs[0], mac) && PKT_HEADER_MIN <= mac < U16 && budget > 0
    requires block == before + (Packets(cs, mac, big) + padding)
    ensures w == Walk(block, |before|, cs, mac, budget, big)
  {
    var c := cs[0];
    assert Packets(cs, mac, big) + padding == PacketHeader(c, 0, mac, big) + (c.data + padding);
    PacketVisited(before, c, 0, mac, big, padding);
    assert Positions(cs, |before|, mac) == [|before|] + Positions([], |before| + Stride(c, mac), mac);
    assert Offsets(block, |before|, budget, big) == [|before|];
    w := Walk(block, |before|, cs, mac, budget, big);
  }

  /** What the walker finds at the first of several packets. */
  lemma HeadVisited(
    block: seq<Byte>, before: seq<Byte>, first: seq<Byte>, gap: seq<Byte>, rest: seq<Byte>, c: Captured, mac: nat,
    big: bool)
    requires Fits(c, mac) && PKT_HEADER_MIN <= mac < U16 && rest != []
    requires |first| == Stride(c, mac) && block == before + (first + rest)
    requires first + rest == PacketHeader(c, Stride(c, mac), mac, big) + (c.data + (gap + rest))
    ensures |before| + PKT_HEADER_MIN <= |before| + Stride(c, mac) < |block|
    ensures VisitAt(block, |before|, big) == Some(Expected(c)) && NextAt(block, |before|, big) == Stride(c, mac) > 0
  {
    PacketVisited(before, c, Stride(c, mac), mac, big, gap + rest);
  }

  lemma FirstVisited(
    w: FullWalk, before: seq<Byte>, first: seq<Byte>, gap: seq<Byte>, rest: seq<Byte>, cs: seq<Captured>)
    returns (w': FullWalk)
    requires |cs| > 1 && w.cs == cs[1..] && w.at == |before| + |first| && Fits(cs[0], w.mac)
    requires PKT_HEADER_MIN <= w.mac < U16 && rest != []
    requires |first| == Stride(cs[0], w.mac) && w.block == before + (first + rest)
    requires first + rest == PacketHeader(cs[0], Stride(cs[0], w.mac), w.mac, w.big) + (cs[0].data + (gap + rest))
    ensures w' == Walk(w.block, |before|, cs, w.mac, w.budget + 1, w.big)
  {
    HeadVisited(w.block, before, first, gap, rest, cs[0], w.mac, w.big);
    w' := VisitedStep(w, |before|, cs);
  }

  lemma VisitedStep(w: FullWalk, at: nat, cs: seq<Captured>) returns (w': FullWalk)
    requires |cs| > 1 && w.cs == cs[1..] && at + PKT_HEADER_MIN <= |w.block|
    requires w.at == at + Stride(cs[0], w.mac) < |w.block|
    requires NextAt(w.block, at, w.big) == Stride(cs[0], w.mac) > 0
    requires VisitAt(w.block, at, w.big) == Some(Expected(cs[0]))
    ensures w' == Walk(w.block, at, cs, w.mac, w.budget + 1, w.big)
  {
    var longer := Walk(w.block, at, cs, w.mac, w.budget + 1, w.big);
    assert longer.Offs() == [at] + w.Offs();
    forall i | 0 <= i < |cs| ensures VisitedAt(w.block, longer.Offs(), cs, i, w.big) {
      if i > 0 {
        assert VisitedAt(w.block, w.Offs(), w.cs, i - 1, w.big);
      }
    }
    w' := longer;
  }

  lemma {:induction false} CallsOf(block: seq<Byte>, offs: seq<nat>, cs: seq<Captured>, big: bool)
    requires |offs| == |cs| && forall i :: 0 <= i < |cs| ==> VisitedAt(block, offs, cs, i, big)
    ensures forall i :: 0 <= i < |offs| ==> offs[i] + PKT_HEADER_MIN <= |block|
    ensures |Calls(block, offs, big)| == |cs|
    ensures forall i :: 0 <= i < |cs| ==> Calls(block, offs, big)[i] == Expected(cs[i])
  {
    forall i | 0 <= i < |offs| ensures offs[i] + PKT_HEADER_MIN <= |block| {
      assert VisitedAt(block, offs, cs, i, big);
    }
    if cs != [] {
      forall i | 0 <= i < |cs| - 1 ensures VisitedAt(block, offs[1..], cs[1..], i, big) {
        assert VisitedAt(block, offs, cs, i + 1, big);
      }
      CallsOf(block, offs[1..], cs[1..], big);
      assert VisitedAt(block, offs, cs, 0, big);
    }
  }

  lemma {:induction false} PositionsCount(cs: seq<Captured>, at: nat, mac: nat)
    ensures |Positions(cs, at, mac)| == |cs|
  {
    if cs != [] {
      PositionsCount(cs[1..], at + Stride(cs[0], mac), mac);
    }
  }

  lemma DescriptorFields(count: nat, first: nat, big: bool, rest: seq<Byte>)
    requires count < U32 && 20 <= first < U32
    ensures
      var block := Descriptor(count, first, big) + rest;
      Get32(block, NUM_PKTS, big) == count && Get32(block, FIRST_PKT, big) == first
  {
    Widths();
    var block := Descriptor(count, first, big) + rest;
    var tail := Zeros(first - 20) + rest;
    FieldAt(Zeros(NUM_PKTS), count, 4, Put32(first, big) + tail, big);
    assert block == Zeros(NUM_PKTS) + Put32(count, big) + (Put32(first, big) + tail);
    FieldAt(Zeros(NUM_PKTS) + Put32(count, big), first, 4, tail, big);
    assert block == Zeros(NUM_PKTS) + Put32(count, big) + Put32(first, big) + tail;
  }

  /** Every block of frames that fit is walked frame by frame: one call each, in order, with exact bytes and time. */
  lemma BlockRoundTrip(cs: seq<Captured>, first: nat, mac: nat, big: bool, padding: seq<Byte>)
    requires AllFit(cs, mac) && PKT_HEADER_MIN <= mac < U16 && |cs| < U32 && 20 <= first < U32
    ensures
      var block := Descriptor(|cs|, first, big) + (Packets(cs, mac, big) + padding);
      var calls := Calls(block, BlockOffsets(block, big), big);
      |BlockOffsets(block, big)| == |calls| == |cs| && forall i :: 0 <= i < |cs| ==> calls[i] == Expected(cs[i])
  {
    var d := Descriptor(|cs|, first, big);
    var block := d + (Packets(cs, mac, big) + padding);
    DescriptorFields(|cs|, first, big, Packets(cs, mac, big) + padding);
    if cs != [] {
      var w := PacketsVisited(block, d, cs, mac, big, padding, |cs|);
      PositionsCount(cs, first, mac);
      CallsOf(block, Offsets(block, first, |cs|, big), cs, big);
    }
  }
}
