/**
 Bookkeeping over a whole run of the flow engine: which accepted packet went to which flow,
 and where each flow that was ever opened is now. It exists only in proofs.
 */
module FlowLedger {
  import opened Prelude
  import opened OrderedDict
  import opened NativeParser
  import opened Flows
  import LruTables

  /**
   Flows are numbered in the order they opened. `home[i]` is the flow of the i-th accepted packet;
   each list holds the numbers of the flows in one place.
   */
  datatype Ledger = Ledger(
    accepted: seq<Packet>,
    home: seq<nat>,
    flows: nat,
    open: seq<nat>,
    pending: seq<nat>,
    out: seq<nat>,
    shed: seq<nat>,
    lost: seq<nat>)

  ghost const EMPTY_LEDGER := Ledger([], [], 0, [], [], [], [], [])

  /** The packets of one flow, in arrival order. */
  ghost function PacketsOf(accepted: seq<Packet>, home: seq<nat>, flow: nat): seq<Packet>
    requires |accepted| == |home|
  {
    if accepted == [] then []
    else
      var n := |accepted| - 1;
      var rest := PacketsOf(accepted[..n], home[..n], flow);
      if home[n] == flow then rest + [accepted[n]] else rest
  }

  ghost function Range(n: nat): seq<nat> {
    if n == 0 then [] else Range(n - 1) + [n - 1]
  }

  /** Every flow ever opened is in exactly one place. */
  ghost predicate Partition(l: Ledger) {
    multiset(l.open) + multiset(l.pending) + multiset(l.out) + multiset(l.shed) + multiset(l.lost)
    == multiset(Range(l.flows))
  }

  ghost predicate Homed(l: Ledger) {
    && |l.home| == |l.accepted|
    && (forall i :: 0 <= i < |l.home| ==> l.home[i] < l.flows)
    && (forall f :: 0 <= f < l.flows ==> OneConversation(PacketsOf(l.accepted, l.home, f)))
  }

  /** A non-empty list of packets with one flow key. */
  ghost predicate OneConversation(ps: seq<Packet>) {
    ps != [] && forall p :: p in ps ==> KeyOf(p) == KeyOf(ps[0])
  }

  ghost function StateOf(l: Ledger, flow: nat): FlowState
    requires |l.home| == |l.accepted| && PacketsOf(l.accepted, l.home, flow) != []
  {
    Replay(PacketsOf(l.accepted, l.home, flow))
  }

  ghost function KeyOfFlow(l: Ledger, flow: nat): FlowKey
    requires |l.home| == |l.accepted| && PacketsOf(l.accepted, l.home, flow) != []
  {
    KeyOf(PacketsOf(l.accepted, l.home, flow)[0])
  }

  /** `states[i]` is the state of flow `ids[i]`. */
  ghost predicate States(l: Ledger, ids: seq<nat>, states: seq<FlowState>)
    requires Homed(l)
  {
    && |ids| == |states|
    && (forall i :: 0 <= i < |ids| ==> ids[i] < l.flows && states[i] == StateOf(l, ids[i]))
  }

  /** `entries` pairs each listed flow's key with its state. */
  ghost predicate Pairs(l: Ledger, ids: seq<nat>, entries: Dict<FlowKey, FlowState>)
    requires Homed(l)
  {
    && |ids| == |entries|
    && (forall i :: 0 <= i < |ids| ==> ids[i] < l.flows && entries[i] == (KeyOfFlow(l, ids[i]), StateOf(l, ids[i])))
  }

  ghost predicate Balanced(
    l: Ledger, entries: Dict<FlowKey, FlowState>, completed: seq<FlowState>, out: seq<FlowState>) {
    && Homed(l) && Partition(l) && Pairs(l, l.open, entries)
    && States(l, l.pending, completed) && States(l, l.out, out)
  }

  // ------------------------------------------------------------------ the steps

  /** A packet of the open flow at position `p`; the table moves it to the end. */
  ghost function Hit(l: Ledger, p: nat, packet: Packet): Ledger
    requires p < |l.open|
  {
    l.(accepted := l.accepted + [packet], home := l.home + [l.open[p]],
       open := LruTables.Without(l.open, p) + [l.open[p]])
  }

  /** A packet that opens a flow. */
  ghost function Open(l: Ledger, packet: Packet): Ledger {
    l.(accepted := l.accepted + [packet], home := l.home + [l.flows], flows := l.flows + 1, open := l.open + [l.flows])
  }

  /** The open flow at position `p` leaves the table; it waits to be drained unless the queue is full. */
  ghost function Complete(l: Ledger, p: nat, kept: bool): Ledger
    requires p < |l.open|
  {
    var left := l.(open := LruTables.Without(l.open, p));
    if kept then left.(pending := l.pending + [l.open[p]]) else left.(shed := l.shed + [l.open[p]])
  }

  lemma PacketsOfLast(accepted: seq<Packet>, home: seq<nat>, packet: Packet, f: nat, g: nat)
    requires |accepted| == |home|
    ensures PacketsOf(accepted + [packet], home + [f], g) ==
            if f == g then PacketsOf(accepted, home, g) + [packet] else PacketsOf(accepted, home, g)
  {
    assert (accepted + [packet])[..|accepted|] == accepted && (home + [f])[..|home|] == home;
  }

  lemma {:induction false} NoPackets(accepted: seq<Packet>, home: seq<nat>, f: nat)
    requires |accepted| == |home| && forall i :: 0 <= i < |home| ==> home[i] < f
    ensures PacketsOf(accepted, home, f) == []
  {
    if accepted != [] {
      NoPackets(accepted[..|accepted| - 1], home[..|home| - 1], f);
    }
  }

  lemma {:induction false} RangeIs(n: nat)
    ensures |Range(n)| == n
    ensures forall x: nat :: multiset(Range(n))[x] == if x < n then 1 else 0
  {
    if n > 0 {
      RangeIs(n - 1);
    }
  }

  lemma TwiceCounted(s: seq<nat>, i: nat, j: nat)
    requires i < j < |s| && s[i] == s[j]
    ensures multiset(s)[s[i]] >= 2
  {
    assert s == s[..j] + [s[j]] + s[j + 1..];
    assert s[..j][i] == s[i];
    assert multiset(s[..j])[s[i]] >= 1 && multiset([s[j]])[s[i]] == 1;
  }

  /** Occurring at most once each means pairwise different. */
  lemma DistinctByCount(s: seq<nat>)
    requires forall x :: multiset(s)[x] <= 1
    ensures Distinct(s)
  {
    forall i, j | 0 <= i < j < |s| ensures s[i] != s[j] {
      if s[i] == s[j] {
        TwiceCounted(s, i, j);
        assert false;
      }
    }
  }

  /** Open flows are numbered differently from one another and from the pending ones. */
  lemma OpenDistinct(l: Ledger)
    requires Partition(l)
    ensures Distinct(l.open)
    ensures forall f :: f in l.open ==> f < l.flows && f !in l.pending && f !in l.out
  {
    RangeIs(l.flows);
    assert forall x: nat :: multiset(l.open)[x] <= multiset(Range(l.flows))[x];
    DistinctByCount(l.open);
    forall f | f in l.open ensures f < l.flows && f !in l.pending && f !in l.out {
      assert multiset(l.open)[f] >= 1;
      assert multiset(l.open)[f] + multiset(l.pending)[f] + multiset(l.out)[f] <= multiset(Range(l.flows))[f];
    }
  }

  lemma MovedLast<T>(s: seq<T>, p: nat)
    requires p < |s|
    ensures multiset(LruTables.Without(s, p) + [s[p]]) == multiset(s)
    ensures multiset(LruTables.Without(s, p)) + multiset{s[p]} == multiset(s)
  {
    assert s == s[..p] + [s[p]] + s[p + 1..];
  }

  lemma HitHomed(l: Ledger, p: nat, packet: Packet)
    requires Homed(l) && p < |l.open| && l.open[p] < l.flows
    requires KeyOf(packet) == KeyOfFlow(l, l.open[p])
    ensures Homed(Hit(l, p, packet))
    ensures forall g :: 0 <= g < l.flows && g != l.open[p] ==>
      StateOf(Hit(l, p, packet), g) == StateOf(l, g) && KeyOfFlow(Hit(l, p, packet), g) == KeyOfFlow(l, g)
    ensures StateOf(Hit(l, p, packet), l.open[p]) == StateOf(l, l.open[p]).Observe(packet)
    ensures KeyOfFlow(Hit(l, p, packet), l.open[p]) == KeyOfFlow(l, l.open[p])
  {
    var l', f := Hit(l, p, packet), l.open[p];
    forall g | 0 <= g < l.flows
      ensures PacketsOf(l'.accepted, l'.home, g) ==
        if f == g then PacketsOf(l.accepted, l.home, g) + [packet] else PacketsOf(l.accepted, l.home, g)
      ensures OneConversation(PacketsOf(l'.accepted, l'.home, g))
    {
      PacketsOfLast(l.accepted, l.home, packet, f, g);
      assert OneConversation(PacketsOf(l.accepted, l.home, g));
    }
    var ps := PacketsOf(l.accepted, l.home, f);
    assert (ps + [packet])[..|ps|] == ps;
  }

  lemma HitPartition(l: Ledger, p: nat, packet: Packet)
    requires Partition(l) && p < |l.open|
    ensures Partition(Hit(l, p, packet))
  {
    MovedLast(l.open, p);
  }

  lemma HitEntries(l: Ledger, entries: Dict<FlowKey, FlowState>, p: nat, packet: Packet)
    requires Homed(l) && Pairs(l, l.open, entries) && Distinct(l.open) && p < |entries|
    requires KeyOf(packet) == entries[p].0
    ensures Homed(Hit(l, p, packet))
    ensures Pairs(Hit(l, p, packet), Hit(l, p, packet).open,
                  LruTables.Without(entries, p) + [(entries[p].0, entries[p].1.Observe(packet))])
  {
    HitHomed(l, p, packet);
    LruTables.WithoutAt(l.open, p);
    LruTables.WithoutAt(entries, p);
    var l', after := Hit(l, p, packet), LruTables.Without(entries, p) + [(entries[p].0, entries[p].1.Observe(packet))];
    forall i | 0 <= i < |after|
      ensures l'.open[i] < l'.flows && after[i] == (KeyOfFlow(l', l'.open[i]), StateOf(l', l'.open[i]))
    {
      if i < |after| - 1 {
        var k := if i < p then i else i + 1;
        assert l'.open[i] == l.open[k] && after[i] == entries[k];
      }
    }
  }

  /** A further packet keeps the books: its flow's entry moves to the end with the packet observed. */
  lemma HitBalanced(
    l: Ledger, entries: Dict<FlowKey, FlowState>, completed: seq<FlowState>, out: seq<FlowState>, p: nat,
    packet: Packet)
    requires Balanced(l, entries, completed, out) && p < |entries| && KeyOf(packet) == entries[p].0
    ensures Balanced(Hit(l, p, packet),
                     LruTables.Without(entries, p) + [(entries[p].0, entries[p].1.Observe(packet))], completed, out)
  {
    OpenDistinct(l);
    HitPartition(l, p, packet);
    HitEntries(l, entries, p, packet);
    HitStates(l, p, packet, l.pending, completed);
    HitStates(l, p, packet, l.out, out);
  }

  lemma HitStates(l: Ledger, p: nat, packet: Packet, ids: seq<nat>, states: seq<FlowState>)
    requires Homed(l) && States(l, ids, states) && p < |l.open| && l.open[p] < l.flows && l.open[p] !in ids
    requires KeyOf(packet) == KeyOfFlow(l, l.open[p])
    ensures Homed(Hit(l, p, packet)) && States(Hit(l, p, packet), ids, states)
  {
    HitHomed(l, p, packet);
    assert forall i :: 0 <= i < |ids| ==> ids[i] in ids;
  }

  lemma OpenHomed(l: Ledger, packet: Packet)
    requires Homed(l)
    ensures Homed(Open(l, packet))
    ensures forall g :: 0 <= g < l.flows ==>
      StateOf(Open(l, packet), g) == StateOf(l, g) && KeyOfFlow(Open(l, packet), g) == KeyOfFlow(l, g)
    ensures StateOf(Open(l, packet), l.flows) == Opening(packet)
    ensures KeyOfFlow(Open(l, packet), l.flows) == KeyOf(packet)
  {
    var l' := Open(l, packet);
    NoPackets(l.accepted, l.home, l.flows);
    forall g | 0 <= g < l'.flows
      ensures PacketsOf(l'.accepted, l'.home, g) == if g == l.flows then [packet] else PacketsOf(l.accepted, l.home, g)
      ensures OneConversation(PacketsOf(l'.accepted, l'.home, g))
    {
      PacketsOfLast(l.accepted, l.home, packet, l.flows, g);
    }
  }

  lemma OpenPartition(l: Ledger, packet: Packet)
    requires Partition(l)
    ensures Partition(Open(l, packet))
  {
  }

  /** A packet without an open flow opens the next one, at the end of the table. */
  lemma OpenBalanced(
    l: Ledger, entries: Dict<FlowKey, FlowState>, completed: seq<FlowState>, out: seq<FlowState>, packet: Packet)
    requires Balanced(l, entries, completed, out)
    ensures Balanced(Open(l, packet), entries + [(KeyOf(packet), Opening(packet))], completed, out)
  {
    OpenPartition(l, packet);
    OpenHomed(l, packet);
    var l', after := Open(l, packet), entries + [(KeyOf(packet), Opening(packet))];
    forall i | 0 <= i < |after|
      ensures l'.open[i] < l'.flows && after[i] == (KeyOfFlow(l', l'.open[i]), StateOf(l', l'.open[i]))
    {
      assert i < |entries| ==> l'.open[i] == l.open[i] && after[i] == entries[i];
    }
  }

  lemma CompletePartition(l: Ledger, p: nat, kept: bool)
    requires Partition(l) && p < |l.open|
    ensures Partition(Complete(l, p, kept))
  {
    MovedLast(l.open, p);
  }

  lemma CompleteEntries(l: Ledger, entries: Dict<FlowKey, FlowState>, p: nat, kept: bool)
    requires Homed(l) && Pairs(l, l.open, entries) && p < |entries|
    ensures Homed(Complete(l, p, kept))
    ensures Pairs(Complete(l, p, kept), Complete(l, p, kept).open, LruTables.Without(entries, p))
  {
    var l', after := Complete(l, p, kept), LruTables.Without(entries, p);
    LruTables.WithoutAt(l.open, p);
    LruTables.WithoutAt(entries, p);
    forall i | 0 <= i < |after|
      ensures l'.open[i] < l'.flows && after[i] == (KeyOfFlow(l', l'.open[i]), StateOf(l', l'.open[i]))
    {
      var k := if i < p then i else i + 1;
      assert l'.open[i] == l.open[k] && after[i] == entries[k];
    }
  }

  lemma StatesAppend(l: Ledger, ids: seq<nat>, states: seq<FlowState>, id: nat)
    requires Homed(l) && States(l, ids, states) && id < l.flows
    ensures States(l, ids + [id], states + [StateOf(l, id)])
  {
  }

  /** Two ledgers with the same packets assign the same states. */
  lemma StatesFrame(l: Ledger, l': Ledger, ids: seq<nat>, states: seq<FlowState>)
    requires Homed(l) && States(l, ids, states)
    requires l'.accepted == l.accepted && l'.home == l.home && l'.flows == l.flows
    ensures Homed(l') && States(l', ids, states)
  {
  }

  /** A flow that leaves the table is pending, or counted as shed. */
  lemma CompleteBalanced(
    l: Ledger, entries: Dict<FlowKey, FlowState>, completed: seq<FlowState>, out: seq<FlowState>, p: nat, kept: bool)
    requires Balanced(l, entries, completed, out) && p < |entries|
    ensures Balanced(Complete(l, p, kept), LruTables.Without(entries, p),
                     if kept then completed + [entries[p].1] else completed, out)
  {
    var l' := Complete(l, p, kept);
    CompletePartition(l, p, kept);
    CompleteEntries(l, entries, p, kept);
    if kept {
      assert entries[p].1 == StateOf(l, l.open[p]);
      StatesAppend(l, l.pending, completed, l.open[p]);
    }
    StatesFrame(l, l', l'.pending, if kept then completed + [entries[p].1] else completed);
    StatesFrame(l, l', l.out, out);
  }

  // ------------------------------------------------------- emptying the table

  /** The numbers of the open flows whose state passes (or fails) the test. */
  ghost function PickIds(
    ids: seq<nat>, entries: Dict<FlowKey, FlowState>, test: FlowState -> bool, want: bool): seq<nat>
    requires |ids| == |entries|
  {
    if ids == [] then []
    else if test(entries[0].1) == want then [ids[0]] + PickIds(ids[1..], entries[1..], test, want)
    else PickIds(ids[1..], entries[1..], test, want)
  }

  ghost function Sweep(l: Ledger, entries: Dict<FlowKey, FlowState>, test: FlowState -> bool): Ledger
    requires |l.open| == |entries|
  {
    l.(open := PickIds(l.open, entries, test, false), out := l.out + PickIds(l.open, entries, test, true))
  }

  ghost function Flush(l: Ledger): Ledger {
    l.(open := [], out := l.out + l.open)
  }

  ghost function Lose(l: Ledger): Ledger {
    l.(open := [], lost := l.lost + l.open)
  }

  ghost function Drain(l: Ledger): Ledger {
    l.(pending := [], out := l.out + l.pending)
  }

  lemma {:induction false} PickPartition(ids: seq<nat>, entries: Dict<FlowKey, FlowState>, test: FlowState -> bool)
    requires |ids| == |entries|
    ensures multiset(PickIds(ids, entries, test, true)) + multiset(PickIds(ids, entries, test, false)) == multiset(ids)
  {
    if ids != [] {
      PickPartition(ids[1..], entries[1..], test);
      assert ids == [ids[0]] + ids[1..];
    }
  }

  lemma {:induction false} PickPairs(
    l: Ledger, ids: seq<nat>, entries: Dict<FlowKey, FlowState>, test: FlowState -> bool, want: bool)
    requires Homed(l) && Pairs(l, ids, entries)
    ensures Pairs(l, PickIds(ids, entries, test, want), Filter(entries, test, want))
  {
    if ids != [] {
      PickPairs(l, ids[1..], entries[1..], test, want);
      PairsBehind(l, ids[0], PickIds(ids[1..], entries[1..], test, want), entries[0],
                  Filter(entries[1..], test, want));
    }
  }

  lemma PairsBehind(
    l: Ledger, id: nat, ids: seq<nat>, entry: (FlowKey, FlowState), entries: Dict<FlowKey, FlowState>)
    requires Homed(l) && Pairs(l, ids, entries) && id < l.flows && entry == (KeyOfFlow(l, id), StateOf(l, id))
    ensures Pairs(l, [id] + ids, [entry] + entries)
  {
  }

  lemma {:induction false} PairsStates(l: Ledger, ids: seq<nat>, entries: Dict<FlowKey, FlowState>)
    requires Homed(l) && Pairs(l, ids, entries)
    ensures States(l, ids, Values(entries))
  {
    if ids != [] {
      PairsStates(l, ids[1..], entries[1..]);
    }
  }

  lemma StatesJoin(l: Ledger, a: seq<nat>, b: seq<nat>, x: seq<FlowState>, y: seq<FlowState>)
    requires Homed(l) && States(l, a, x) && States(l, b, y)
    ensures States(l, a + b, x + y)
  {
  }

  /** A sweep moves exactly the flows that pass the test, and keeps the others in order. */
  lemma SweepBalanced(
    l: Ledger, entries: Dict<FlowKey, FlowState>, completed: seq<FlowState>, out: seq<FlowState>,
    test: FlowState -> bool)
    requires Balanced(l, entries, completed, out)
    ensures Balanced(Sweep(l, entries, test), Filter(entries, test, false), completed,
                     out + Values(Filter(entries, test, true)))
  {
    var l', gone := Sweep(l, entries, test), PickIds(l.open, entries, test, true);
    PickPartition(l.open, entries, test);
    PickPairs(l, l.open, entries, test, true);
    PickPairs(l, l.open, entries, test, false);
    PairsStates(l, gone, Filter(entries, test, true));
    StatesJoin(l, l.out, gone, out, Values(Filter(entries, test, true)));
    StatesFrame(l, l', l'.pending, completed);
    StatesFrame(l, l', l'.out, out + Values(Filter(entries, test, true)));
    assert Pairs(l', l'.open, Filter(entries, test, false)) by {
      assert Pairs(l, l'.open, Filter(entries, test, false));
    }
  }

  lemma FlushBalanced(l: Ledger, entries: Dict<FlowKey, FlowState>, completed: seq<FlowState>, out: seq<FlowState>)
    requires Balanced(l, entries, completed, out)
    ensures Balanced(Flush(l), [], completed, out + Values(entries))
  {
    PairsStates(l, l.open, entries);
    StatesJoin(l, l.out, l.open, out, Values(entries));
    StatesFrame(l, Flush(l), l.pending, completed);
    StatesFrame(l, Flush(l), l.out + l.open, out + Values(entries));
  }

  lemma LoseBalanced(l: Ledger, entries: Dict<FlowKey, FlowState>, completed: seq<FlowState>, out: seq<FlowState>)
    requires Balanced(l, entries, completed, out)
    ensures Balanced(Lose(l), [], completed, out)
  {
    StatesFrame(l, Lose(l), l.pending, completed);
    StatesFrame(l, Lose(l), l.out, out);
  }

  lemma DrainBalanced(l: Ledger, entries: Dict<FlowKey, FlowState>, completed: seq<FlowState>, out: seq<FlowState>)
    requires Balanced(l, entries, completed, out)
    ensures Balanced(Drain(l), entries, [], out + completed)
  {
    StatesJoin(l, l.out, l.pending, out, completed);
    StatesFrame(l, Drain(l), l.out + l.pending, out + completed);
  }

  // -------------------------------------------------------------- conservation

  /** Flows opened = open + pending + handed out + shed + lost. */
  lemma FlowsConserved(l: Ledger)
    requires Partition(l)
    ensures l.flows == |l.open| + |l.pending| + |l.out| + |l.shed| + |l.lost|
  {
    RangeIs(l.flows);
    assert |multiset(Range(l.flows))| == l.flows;
  }

  /** Packets of the listed flows, added up. */
  ghost function PacketTotal(l: Ledger, ids: seq<nat>): nat
    requires |l.home| == |l.accepted|
  {
    if ids == [] then 0 else PacketTotal(l, ids[..|ids| - 1]) + |PacketsOf(l.accepted, l.home, ids[|ids| - 1])|
  }

  lemma {:induction false} TotalWithLast(l: Ledger, n: nat)
    requires |l.home| == |l.accepted| > 0
    ensures
      var k := |l.accepted| - 1;
      var before := l.(accepted := l.accepted[..k], home := l.home[..k]);
      PacketTotal(l, Range(n)) == PacketTotal(before, Range(n)) + if l.home[k] < n then 1 else 0
  {
    if n > 0 {
      TotalWithLast(l, n - 1);
      assert Range(n)[..n - 1] == Range(n - 1) by { RangeIs(n - 1); }
    }
  }

  /** Every accepted packet is in exactly one flow. */
  lemma {:induction false} RangeTotal(l: Ledger, n: nat)
    requires |l.home| == |l.accepted| && forall i :: 0 <= i < |l.home| ==> l.home[i] < n
    ensures PacketTotal(l, Range(n)) == |l.accepted|
    decreases |l.accepted|
  {
    if l.accepted == [] {
      EmptyTotal(l, Range(n));
    } else {
      TotalWithLast(l, n);
      var k := |l.accepted| - 1;
      RangeTotal(l.(accepted := l.accepted[..k], home := l.home[..k]), n);
    }
  }

  lemma {:induction false} EmptyTotal(l: Ledger, ids: seq<nat>)
    requires l.accepted == [] && l.home == []
    ensures PacketTotal(l, ids) == 0
  {
    if ids != [] {
      EmptyTotal(l, ids[..|ids| - 1]);
    }
  }

  lemma {:induction false} TotalSplits(l: Ledger, a: seq<nat>, b: seq<nat>)
    requires |l.home| == |l.accepted|
    ensures PacketTotal(l, a + b) == PacketTotal(l, a) + PacketTotal(l, b)
  {
    if b == [] {
      assert a + b == a;
    } else {
      TotalSplits(l, a, b[..|b| - 1]);
      assert (a + b)[..|a + b| - 1] == a + b[..|b| - 1];
    }
  }

  /** The total does not depend on the order of the list. */
  lemma {:induction false} TotalPermutes(l: Ledger, a: seq<nat>, b: seq<nat>)
    requires |l.home| == |l.accepted| && multiset(a) == multiset(b)
    ensures PacketTotal(l, a) == PacketTotal(l, b)
    decreases |a|
  {
    if a == [] {
      assert |multiset(b)| == 0;
    } else {
      var x := a[|a| - 1];
      assert a == a[..|a| - 1] + [x];
      assert x in multiset(b);
      var i :| 0 <= i < |b| && b[i] == x;
      var rest := b[..i] + b[i + 1..];
      assert b == b[..i] + [x] + b[i + 1..];
      assert multiset(a) == multiset(a[..|a| - 1]) + multiset{x};
      assert multiset(b) == multiset(rest) + multiset{x};
      assert multiset(a[..|a| - 1]) == multiset(a) - multiset{x};
      TotalPermutes(l, a[..|a| - 1], rest);
      TotalSplits(l, b[..i] + [x], b[i + 1..]);
      TotalSplits(l, b[..i], b[i + 1..]);
      assert (b[..i] + [x])[..i] == b[..i];
    }
  }

  /** All places together account for every accepted packet. */
  lemma PacketsConserved(l: Ledger)
    requires Homed(l) && Partition(l)
    ensures PacketTotal(l, l.open) + PacketTotal(l, l.pending) + PacketTotal(l, l.out)
            + PacketTotal(l, l.shed) + PacketTotal(l, l.lost) == |l.accepted|
  {
    var a := l.open + l.pending;
    var b := a + l.out;
    var c := b + l.shed;
    TotalSplits(l, l.open, l.pending);
    TotalSplits(l, a, l.out);
    TotalSplits(l, b, l.shed);
    TotalSplits(l, c, l.lost);
    TotalPermutes(l, c + l.lost, Range(l.flows));
    RangeTotal(l, l.flows);
  }

  ghost function CountPackets(states: seq<FlowState>): nat {
    if states == [] then 0 else CountPackets(states[..|states| - 1]) + states[|states| - 1].packetCount
  }

  /** The packet counters of handed-out states are the packets of their flows. */
  lemma {:induction false} CountersAreTotals(l: Ledger, ids: seq<nat>, states: seq<FlowState>)
    requires Homed(l) && States(l, ids, states)
    ensures CountPackets(states) == PacketTotal(l, ids)
  {
    if ids != [] {
      var n := |ids| - 1;
      CountersAreTotals(l, ids[..n], states[..n]);
      DirectionsPartition(PacketsOf(l.accepted, l.home, ids[n]));
    }
  }
}
