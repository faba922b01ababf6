/** The native engine: the aggregator's operations over the linked slab. */
module FlowEngine {
  import opened Prelude
  import opened OrderedDict
  import opened Frames
  import opened NativeParser
  import opened Flows
  import opened FlowLedger
  import opened LruTables
  import opened A = Aggregator

  class Engine {
    const table: LruTable<FlowKey, FlowState>
    const config: Config
    var completed: seq<FlowState>
    var newFlows: seq<NewFlow>
    var tls: seq<TlsCandidate>
    var packetsSeen: nat
    var packetsMalformed: nat
    var maxPendingCompleted: nat
    var maxPendingNewFlows: nat
    var completedShed: nat
    var newFlowsShed: nat
    var flowsLostToPanics: nat
    /** The operations since the engine was made. */
    ghost var ops: seq<Op>

    ghost predicate Valid()
      reads this, table
    {
      table.Valid() && table.max == config.maxFlows
    }

    /** The state of the pure machine that this object stands for. */
    ghost function View(): A.State
      requires Valid()
      reads this, table
    {
      A.State(table.Contents(), completed, newFlows, tls, packetsSeen, packetsMalformed,
              maxPendingCompleted, maxPendingNewFlows, completedShed, newFlowsShed, flowsLostToPanics)
    }

    /** The engine is where its operations lead; only a panic that tore the table breaks this. */
    ghost predicate Traced()
      reads this, table
    {
      Valid() && View() == A.Run(config, ops)
    }

    constructor (config: Config)
      ensures Traced() && fresh(table) && this.config == config && ops == []
      ensures View() == INITIAL
    {
      table := new LruTable(config.maxFlows);
      this.config := config;
      completed, newFlows, tls := [], [], [];
      packetsSeen, packetsMalformed := 0, 0;
      maxPendingCompleted, maxPendingNewFlows := USIZE_MAX, USIZE_MAX;
      completedShed, newFlowsShed, flowsLostToPanics := 0, 0, 0;
      ops := [];
    }

    method SetPendingLimits(completedLimit: nat, newFlowsLimit: nat)
      requires Valid()
      modifies this`maxPendingCompleted, this`maxPendingNewFlows, this`ops
      ensures Valid() && View() == A.Step(config, old(View()), OpLimits(completedLimit, newFlowsLimit))
      ensures ops == old(ops) + [OpLimits(completedLimit, newFlowsLimit)] && (old(Traced()) ==> Traced())
    {
      RunAppend(config, ops, OpLimits(completedLimit, newFlowsLimit));
      maxPendingCompleted, maxPendingNewFlows := completedLimit, newFlowsLimit;
      ops := ops + [OpLimits(completedLimit, newFlowsLimit)];
    }

    method PushCompleted(state: FlowState)
      requires Valid()
      modifies this`completed, this`completedShed
      ensures Valid() && View() == A.PushCompleted(old(View()), state)
    {
      if |completed| < maxPendingCompleted {
        completed := completed + [state];
      } else {
        completedShed := completedShed + 1;
      }
    }

    /** One captured frame; its flow ends exactly when the flow's packets say it is due. */
    method Feed(raw: seq<Byte>, tsUs: int)
      requires Valid()
      modifies this, table
      ensures Valid() && View() == A.Step(config, old(View()), OpFeed(raw, tsUs))
      ensures ops == old(ops) + [OpFeed(raw, tsUs)] && (old(Traced()) ==> Traced())
      ensures old(Traced()) && Timeouts(config) && Admitted(config, raw, tsUs) != [] ==>
        var p := Admitted(config, raw, tsUs)[0];
        EndsWhenDue(config, ops, p, Has(table.Contents(), KeyOf(p)))
    {
      RunAppend(config, ops, OpFeed(raw, tsUs));
      if Traced() && Timeouts(config) && Admitted(config, raw, tsUs) != [] {
        FeedExact(config, ops, raw, tsUs);
      }
      FeedFrame(raw, tsUs);
      ops := ops + [OpFeed(raw, tsUs)];
    }

    method FeedFrame(raw: seq<Byte>, tsUs: int)
      requires Valid()
      modifies this, table
      ensures Valid() && View() == A.Feed(config, old(View()), raw, tsUs) && ops == old(ops)
    {
      var parsed := Parse(raw, tsUs);
      FeedParsed(raw, parsed);
    }

    method FeedParsed(raw: seq<Byte>, parsed: Result<Packet>)
      requires Valid()
      modifies this, table
      ensures Valid() && View() == A.FeedParsed(config, old(View()), raw, parsed) && ops == old(ops)
    {
      CountFrame(parsed.Err?);
      if parsed.Ok? {
        FeedPacket(raw, parsed.value);
      }
    }

    method CountFrame(malformed: bool)
      requires Valid()
      modifies this`packetsSeen, this`packetsMalformed
      ensures Valid() && View() == A.CountFrame(old(View()), malformed)
    {
      packetsSeen := packetsSeen + 1;
      if malformed {
        packetsMalformed := packetsMalformed + 1;
      }
    }

    method FeedPacket(raw: seq<Byte>, packet: Packet)
      requires Valid()
      modifies this, table
      ensures Valid() && View() == A.FeedPacket(config, old(View()), raw, packet) && ops == old(ops)
    {
      OfferTls(raw, packet);
      if !packet.ipv4 || !Routable(config, packet.src) || !Routable(config, packet.dst) {
        return;
      }
      Aggregate(packet);
    }

    /** Hand a TLS payload to the structural detectors. */
    method OfferTls(raw: seq<Byte>, packet: Packet)
      modifies this`tls
      ensures tls == old(tls) + OfferedTls(config, raw, packet)
    {
      if packet.proto == Tcp && (packet.sport == Some(config.tlsPort) || packet.dport == Some(config.tlsPort))
          && packet.ipv4 {
        var payload := TcpPayload(raw, packet);
        if payload.Some? && TlsPrefilter.Interesting(payload.value) {
          tls := tls + [TlsCandidate(packet.src, packet.dst, packet.sport, packet.dport, packet.tsUs, payload.value)];
        }
      }
    }

    method Aggregate(packet: Packet)
      requires Valid()
      modifies this, table
      ensures Valid() && View() == A.Aggregate(config, old(View()), packet) && ops == old(ops)
    {
      var state := Absorb(packet);
      if state.ShouldClose(packet.tsUs, config.activeS, config.inactiveS) {
        Close(KeyOf(packet));
      }
    }

    method Absorb(packet: Packet) returns (state: FlowState)
      requires Valid()
      modifies this, table
      ensures Valid() && View() == A.Absorb(config, old(View()), packet) && ops == old(ops)
      ensures state == A.Current(old(View()), packet)
    {
      var slot := table.GetMut(KeyOf(packet));
      if slot.Some? {
        state := Observe(slot.value, packet, old(table.Contents()), KeyOf(packet));
      } else {
        state := Start(packet);
      }
    }

    /** Open a flow for a packet that has none. */
    method Start(packet: Packet) returns (state: FlowState)
      requires Valid() && !Has(table.Contents(), KeyOf(packet))
      modifies this, table
      ensures Valid() && View() == A.Start(config, old(View()), packet) && state == Opening(packet) && ops == old(ops)
    {
      state := Opening(packet);
      Signal(packet, state);
      var evicted := table.Insert(KeyOf(packet), state);
      if evicted.Some? {
        PushCompleted(evicted.value);
      }
    }

    /** Observe a packet through the reference the lookup returned, its key having been moved to the end of `d`. */
    method Observe(
      slot: nat, packet: Packet, ghost d: Dict<FlowKey, FlowState>, ghost key: FlowKey) returns (state: FlowState)
      requires Valid() && table.order != [] && slot == table.order[|table.order| - 1]
      requires Lookup(d, key).Some? && table.Contents() == PutLast(d, key, Lookup(d, key).value)
      modifies table
      ensures Valid() && state == Lookup(d, key).value.Observe(packet) && table.Contents() == PutLast(d, key, state)
    {
      state := table.nodes[slot].value.state.Observe(packet);
      ObserveLast(d, key, Lookup(d, key).value, state);
      table.Store(slot, state, |table.order| - 1);
    }

    method Signal(packet: Packet, state: FlowState)
      requires Valid() && state == Opening(packet)
      modifies this`newFlows, this`newFlowsShed
      ensures Valid() && View() == A.Signal(old(View()), packet)
    {
      if !state.initiated {
      } else if |newFlows| < maxPendingNewFlows {
        newFlows := newFlows + [NewFlow(packet.src, packet.dst, packet.srcMac, packet.dstMac, packet.dport,
                                        packet.proto, packet.tsUs)];
      } else {
        newFlowsShed := newFlowsShed + 1;
      }
    }

    method Close(key: FlowKey)
      requires Valid()
      modifies this`completed, this`completedShed, table
      ensures Valid() && View() == A.Close(old(View()), key)
    {
      ghost var d := table.Contents();
      var state := table.Pop(key);
      if state.Some? {
        PushCompleted(state.value);
      } else {
        LookupAbsent(d, key);
        DeleteAbsent(d, key);
      }
    }

    /** Take everything produced since the last drain. */
    method Drain() returns (flows: seq<FlowState>, signals: seq<NewFlow>, candidates: seq<TlsCandidate>)
      requires Valid()
      modifies this`completed, this`newFlows, this`tls, this`ops
      ensures Valid() && View() == A.Step(config, old(View()), OpDrain)
      ensures flows == Returned(config, old(View()), OpDrain)
      ensures signals == old(newFlows) && candidates == old(tls)
      ensures ops == old(ops) + [OpDrain] && (old(Traced()) ==> Traced())
    {
      RunAppend(config, ops, OpDrain);
      ops := ops + [OpDrain];
      flows, signals, candidates := completed, newFlows, tls;
      completed, newFlows, tls := [], [], [];
    }

    /** Close every flow whose packets say it is due, and no other, oldest use first. */
    method Sweep(nowUs: int) returns (out: seq<FlowState>)
      requires Valid()
      modifies table, this`ops
      ensures Valid() && View() == A.Step(config, old(View()), OpSweep(nowUs))
      ensures out == Returned(config, old(View()), OpSweep(nowUs))
      ensures ops == old(ops) + [OpSweep(nowUs)] && (old(Traced()) ==> Traced())
      ensures old(Traced()) && Timeouts(config) ==>
        && (forall f :: f in out ==> Judged(config, old(ops), f, nowUs, true))
        && (forall f :: f in Values(table.Contents()) ==> Judged(config, old(ops), f, nowUs, false))
    {
      RunAppend(config, ops, OpSweep(nowUs));
      if Traced() && Timeouts(config) {
        SweepExact(config, ops, nowUs);
      }
      ghost var d := table.Contents();
      var slots := table.Slots();
      var closing := ClosingKeys(table.nodes, slots, config, nowUs, d);
      PopFiltered(d, TimedOut(config, nowUs));
      out := PopKeys(closing);
      ops := ops + [OpSweep(nowUs)];
    }

    method PopKeys(keys: seq<FlowKey>) returns (out: seq<FlowState>)
      requires Valid()
      modifies table
      ensures Valid()
      ensures table.Contents() == DeleteAll(old(table.Contents()), keys)
      ensures out == PopAll(old(table.Contents()), keys)
    {
      out := [];
      var i := 0;
      while i < |keys|
        invariant Valid() && 0 <= i <= |keys|
        invariant DeleteAll(table.Contents(), keys[i..]) == DeleteAll(old(table.Contents()), keys)
        invariant out + PopAll(table.Contents(), keys[i..]) == PopAll(old(table.Contents()), keys)
      {
        assert keys[i..][1..] == keys[i + 1..];
        var state := table.Pop(keys[i]);
        if state.Some? {
          out := out + [state.value];
        }
        i := i + 1;
      }
    }

    /**
     Close every open flow. From then on, if nothing was shed or lost, the flows pending and handed out count
     every frame ever fed that parsed as IPv4 with both ends routable.
     */
    method Flush() returns (out: seq<FlowState>)
      requires Valid()
      modifies table, this`ops
      ensures Valid() && View() == A.Step(config, old(View()), OpFlush)
      ensures out == Returned(config, old(View()), OpFlush)
      ensures ops == old(ops) + [OpFlush] && (old(Traced()) ==> Traced())
      ensures Traced() && completedShed == 0 && flowsLostToPanics == 0 ==>
        CountPackets(completed) + CountPackets(HandedOut(config, ops)) == |AllAdmitted(config, ops)|
    {
      RunAppend(config, ops, OpFlush);
      var slots := table.Slots();
      out := CloneStates(table.nodes, slots, table.Contents());
      table.Clear();
      ops := ops + [OpFlush];
      if Traced() && completedShed == 0 && flowsLostToPanics == 0 {
        RunConservesPackets(config, ops);
      }
    }

    /**
     After a caught panic every indexed flow is discarded and counted. The links may be half-updated, so nothing
     is asked of the table; everything else is kept.
     */
    method Recover()
      requires table.max == config.maxFlows
      modifies this`flowsLostToPanics, this`ops, table
      ensures Valid() && View().entries == [] && flowsLostToPanics == old(flowsLostToPanics) + |old(table.index)|
      ensures old(Valid()) ==> View() == A.Step(config, old(View()), OpRecover)
      ensures ops == old(ops) + [OpRecover] && (old(Traced()) ==> Traced())
    {
      RunAppend(config, ops, OpRecover);
      flowsLostToPanics := flowsLostToPanics + |table.index|;
      table.Clear();
      ops := ops + [OpRecover];
    }

    // -------------------------------------------------------------------------- reads

    /** The open flows. Every flow ever opened is one of them, pending, handed out, shed or lost. */
    method OpenFlows() returns (n: nat)
      requires Traced()
      ensures n <= config.maxFlows
      ensures FlowsOpened(config, ops) == n + |completed| + |HandedOut(config, ops)| + completedShed + flowsLostToPanics
    {
      RunConservesFlows(config, ops);
      n := |table.index|;
    }
  }

  /** Writing through the last entry of a moved key is putting the new value last. */
  lemma ObserveLast(d: Dict<FlowKey, FlowState>, key: FlowKey, flow: FlowState, after: FlowState)
    ensures
      var moved := PutLast(d, key, flow);
      moved[|moved| - 1].0 == key && moved[|moved| - 1 := (key, after)] == PutLast(d, key, after)
  {
  }

  /** The slots hold exactly the dictionary's pairs, in order. */
  ghost predicate Holds(nodes: Slab<FlowKey, FlowState>, slots: seq<nat>, d: Dict<FlowKey, FlowState>) {
    |slots| == |d| && forall i :: 0 <= i < |slots| ==> Live(nodes, slots[i]) && Pair(nodes, slots[i]) == d[i]
  }

  /** The keys of the flows to close, in slot order. */
  method ClosingKeys(
    nodes: Slab<FlowKey, FlowState>, slots: seq<nat>, config: Config, nowUs: int, ghost d: Dict<FlowKey, FlowState>)
    returns (closing: seq<FlowKey>)
    requires Holds(nodes, slots, d)
    ensures closing == Keys(Filter(d, TimedOut(config, nowUs), true))
  {
    closing := [];
    var i := 0;
    while i < |slots|
      invariant 0 <= i <= |slots|
      invariant closing + Keys(Filter(d[i..], TimedOut(config, nowUs), true))
          == Keys(Filter(d, TimedOut(config, nowUs), true))
    {
      FilterFrom(d, i, TimedOut(config, nowUs));
      var node := nodes[slots[i]].value;
      if node.state.ShouldClose(nowUs, config.activeS, config.inactiveS) {
        closing := closing + [node.key];
      }
      i := i + 1;
    }
  }

  method CloneStates(nodes: Slab<FlowKey, FlowState>, slots: seq<nat>, ghost d: Dict<FlowKey, FlowState>)
    returns (out: seq<FlowState>)
    requires Holds(nodes, slots, d)
    ensures out == Values(d)
  {
    out := [];
    var i := 0;
    while i < |slots|
      invariant 0 <= i <= |slots|
      invariant out + Values(d[i..]) == Values(d)
    {
      FilterFrom(d, i, (f: FlowState) => true);
      out := out + [nodes[slots[i]].value.state];
      i := i + 1;
    }
  }
}
