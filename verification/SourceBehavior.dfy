/** The object that keeps one source's behaviour, and what its reads say about its history. */
module SourceBehavior {
  import opened Prelude
  import opened Indexes
  import opened Behavior
  import opened BehaviorHistory
  import W = Windows

  // ------------------------------------------------------------------ the state object

  class SourceBehaviorState {
    const config: Config
    var lastSeen: int
    var events: seq<Event>
    var failures: seq<Failure>
    var destinationCounts: Index<Addr>
    var ports: Index<nat>
    var portsPerDestination: Nested<Addr, nat>
    var connectionsPerDestination: Index<(Addr, Option<nat>)>
    var failuresPerDestination: Index<Addr>
    var recentPerDestination: Times
    /** When the source was first seen, and everything that happened to it since. */
    ghost const firstSeen: int
    ghost var ops: seq<Op>

    /** The object is where its history leads. */
    ghost predicate Valid()
      reads this
    {
      View() == Run(config, firstSeen, ops)
    }

    ghost function Window(): LiveWindow
      reads this
    {
      LiveWindow(events, Counts(destinationCounts, ports, portsPerDestination, connectionsPerDestination), failures,
                 failuresPerDestination)
    }

    /** The state of the machine that this object stands for. */
    ghost function View(): State
      reads this
    {
      State(lastSeen, Window(), recentPerDestination)
    }

    constructor (firstSeen: int, config: Config)
      ensures Valid() && ops == [] && this.config == config && this.firstSeen == firstSeen
      ensures View() == Initial(firstSeen)
    {
      this.config, this.firstSeen, ops := config, firstSeen, [];
      lastSeen, events, failures, recentPerDestination := firstSeen, [], [], map[];
      destinationCounts, ports, portsPerDestination := map[], map[], map[];
      connectionsPerDestination, failuresPerDestination := map[], map[];
    }

    method ExpireEvent()
      requires events != []
      modifies this`events, this`destinationCounts, this`ports, this`portsPerDestination, this`connectionsPerDestination
      ensures Window() == old(Window()).ExpireEvent()
    {
      var e := events[0];
      events := events[1..];
      if e.destTracked {
        destinationCounts := Decrement(destinationCounts, e.dest);
      }
      if e.port.Some? {
        if e.globalTracked {
          ports := Decrement(ports, e.port.value);
        }
        if e.portTracked {
          var here := Decrement(Inner(portsPerDestination, e.dest), e.port.value);
          portsPerDestination := Put(portsPerDestination, e.dest, here);
        }
      }
      if e.pairTracked {
        connectionsPerDestination := Decrement(connectionsPerDestination, (e.dest, e.port));
      }
    }

    method ExpireFailure()
      requires failures != []
      modifies this`failures, this`failuresPerDestination
      ensures Window() == old(Window()).ExpireFailure()
    {
      if failures[0].tracked {
        failuresPerDestination := Decrement(failuresPerDestination, failures[0].dest);
      }
      failures := failures[1..];
    }

    /** Expires everything older than the windows as of `at`. */
    method Prune(at: int)
      requires Valid()
      modifies this
      ensures Valid() && ops == old(ops) + [Pruned(at)]
    {
      AfterAppend(config, Initial(firstSeen), ops, Pruned(at));
      AdvanceTo(at);
      ops := ops + [Pruned(at)];
    }

    /** Moves the clock forward, never back, and expires what has left the windows. */
    method AdvanceTo(at: int)
      modifies this
      ensures View() == After(config, old(View()), [Pruned(at)]) && ops == old(ops)
    {
      AfterOne(config, View(), Pruned(at));
      if at > lastSeen {
        lastSeen := at;
      }
      ExpireStale(WindowStart(config, lastSeen));
      recentPerDestination := Current(recentPerDestination, lastSeen - config.floodWindow);
    }

    method ExpireStale(horizon: int)
      modifies this`events, this`destinationCounts, this`ports, this`portsPerDestination,
               this`connectionsPerDestination,
               this`failures, this`failuresPerDestination
      ensures Window() == old(Window()).Expire(horizon)
    {
      ghost var goal := Window().StaleEventsOut(horizon);
      while events != [] && events[0].at < horizon
        invariant Window().StaleEventsOut(horizon) == goal
        decreases |events|
      {
        ExpireEvent();
      }
      ghost var last := Window().StaleFailuresOut(horizon);
      while failures != [] && failures[0].at < horizon
        invariant Window().StaleFailuresOut(horizon) == last
        decreases |failures|
      {
        ExpireFailure();
      }
    }

    method ObserveNewConnection(dest: Addr, port: Option<nat>, at: int)
      requires Valid()
      modifies this
      ensures Valid() && ops == old(ops) + [Opened(dest, port, at)]
    {
      AfterAppend(config, Initial(firstSeen), ops, Opened(dest, port, at));
      Connect(dest, port, at);
      ops := ops + [Opened(dest, port, at)];
    }

    method Connect(dest: Addr, port: Option<nat>, at: int)
      modifies this
      ensures View() == After(config, old(View()), [Opened(dest, port, at)]) && ops == old(ops)
    {
      StepOpened(config, View(), dest, port, at);
      AfterOne(config, View(), Pruned(at));
      AfterOne(config, View(), Opened(dest, port, at));
      AdvanceTo(at);
      IndexConnection(dest, port, at);
      KeepTime(dest, at);
    }

    method KeepTime(dest: Addr, at: int)
      modifies this`recentPerDestination
      ensures recentPerDestination == Remembered(config, old(recentPerDestination), dest, at)
    {
      if dest in recentPerDestination || |recentPerDestination| < config.limits.destinations {
        var times := W.Push(TimesOf(recentPerDestination, dest), config.maxFloodEntries, at);
        recentPerDestination := recentPerDestination[dest := times];
      }
    }

    method IndexConnection(dest: Addr, port: Option<nat>, at: int)
      modifies this`events, this`destinationCounts, this`ports, this`portsPerDestination, this`connectionsPerDestination
      ensures Window() == old(Window()).EventRoom(config.limits.events).AdmitEvent(config.limits, dest, port, at)
    {
      if |events| >= config.limits.events {
        ExpireEvent();
      }
      Index(dest, port, at);
    }

    /** Counts a connection in the indexes that know its keys or have room for them. */
    method Index(dest: Addr, port: Option<nat>, at: int)
      modifies this`events, this`destinationCounts, this`ports, this`portsPerDestination, this`connectionsPerDestination
      ensures Window() == old(Window()).AdmitEvent(config.limits, dest, port, at)
    {
      var e := Flags(dest, port, at);
      destinationCounts := Added(destinationCounts, DestMark(e));
      ports := Added(ports, PortMark(e));
      portsPerDestination := NestedAdded(portsPerDestination, HostPortMark(e));
      connectionsPerDestination := Added(connectionsPerDestination, PairMark(e));
      events := events + [e];
    }

    /** Which indexes take the connection. */
    method Flags(dest: Addr, port: Option<nat>, at: int) returns (e: Event)
      ensures e == Flagged(Window().counts, config.limits, dest, port, at)
    {
      var destTracked := dest in destinationCounts || |destinationCounts| < config.limits.destinations;
      var portTracked, globalTracked := false, false;
      if port.Some? {
        globalTracked := port.value in ports || |ports| < config.limits.ports;
        if destTracked {
          var here := Inner(portsPerDestination, dest);
          portTracked := port.value in here || |here| < config.limits.ports;
        }
      }
      var pairTracked := (dest, port) in connectionsPerDestination
          || |connectionsPerDestination| < config.limits.destinations;
      e := Entry(at, dest, port, destTracked, portTracked, globalTracked, pairTracked);
    }

    method ObserveCompletion(failed: bool, dest: Addr, at: int)
      requires Valid()
      modifies this
      ensures Valid() && ops == old(ops) + [Ended(failed, dest, at)]
    {
      AfterAppend(config, Initial(firstSeen), ops, Ended(failed, dest, at));
      Complete(failed, dest, at);
      ops := ops + [Ended(failed, dest, at)];
    }

    method Complete(failed: bool, dest: Addr, at: int)
      modifies this
      ensures View() == After(config, old(View()), [Ended(failed, dest, at)]) && ops == old(ops)
    {
      AfterOne(config, View(), Pruned(at));
      AfterOne(config, View(), Ended(failed, dest, at));
      AdvanceTo(at);
      if failed {
        IndexFailure(dest, at);
      }
    }

    method IndexFailure(dest: Addr, at: int)
      modifies this`failures, this`failuresPerDestination
      ensures Window() == old(Window()).FailureRoom(config.limits.events).AdmitFailure(config.limits, dest, at)
    {
      if |failures| >= config.limits.events {
        ExpireFailure();
      }
      var tracked := dest in failuresPerDestination || |failuresPerDestination| < config.limits.destinations;
      if tracked {
        failuresPerDestination := Increment(failuresPerDestination, dest);
      }
      failures := failures + [Failure(at, dest, tracked)];
    }

    // -------------------------------------------------------------------------- reads

    /** Times in order, and never more in the window than the caps hold. */
    ghost predicate Roomy()
      reads this
    {
      Timely(firstSeen, ops) && Ample(config, ops)
    }

    /**
     Whether the FLOOD pattern fires. With connection times in order and no destination turned away, that is
     exactly when some destination got that many connections in the flood window, counting every one of them; and
     none is turned away while the flood window holds no more hosts than the cap.
     */
    method IsFlooding(threshold: real) returns (flooding: bool)
      requires Valid() && threshold > 0.0
      ensures flooding <==> Floods(config, View(), threshold)
      ensures Orderly(ops) && NoneTurnedAway(config, firstSeen, ops) && threshold < config.maxFloodEntries as real ==>
        (flooding <==> Flooded(ops, lastSeen - config.floodWindow, threshold))
      ensures Timely(firstSeen, ops) && HostsFit(config, ops) && threshold < config.maxFloodEntries as real ==>
        (flooding <==> exists d :: Hammered(ops, d, FloodHorizon(config, firstSeen, ops), threshold))
    {
      var best := MostRecent(recentPerDestination, lastSeen - config.floodWindow);
      flooding := best as real >= threshold;
      MostDecides(recentPerDestination, lastSeen - config.floodWindow, best, threshold);
      if Orderly(ops) && NoneTurnedAway(config, firstSeen, ops) && threshold < config.maxFloodEntries as real {
        FloodVerdictExact(config, firstSeen, ops, threshold);
      }
      if Timely(firstSeen, ops) && HostsFit(config, ops) && threshold < config.maxFloodEntries as real {
        FloodFromHistory(config, firstSeen, ops, threshold, FloodHorizon(config, firstSeen, ops));
      }
    }

    /**
     The most unanswered attempts among the live ones that are counted against any one destination: with room, the
     most that any destination got inside the window.
     */
    method MaxFailuresToSingleDestination() returns (most: nat)
      requires Valid()
      ensures IsMostCounted(Marks(failures, FailureMark), most)
      ensures Roomy() ==> IsMostFailed(ops, Horizon(config, firstSeen, ops), most)
    {
      IndexesAreRecounts(config, firstSeen, ops);
      most := LargestCount(failuresPerDestination);
      LargestIsCounted(failuresPerDestination, Marks(failures, FailureMark), most);
      if Roomy() {
        IndexesCountHistory(config, firstSeen, ops);
        LargestFailed(failuresPerDestination, ops, Horizon(config, firstSeen, ops), most);
      }
    }

    /**
     The most live connections counted against any one destination and port: with room, the most that any destination
     got on one port, or without one, inside the window.
     */
    method MaxConnectionsToSingleDestination() returns (most: nat)
      requires Valid()
      ensures IsMostCounted(Marks(events, PairMark), most)
      ensures Roomy() ==> IsMostOpened(ops, Horizon(config, firstSeen, ops), most)
    {
      IndexesAreRecounts(config, firstSeen, ops);
      most := LargestCount(connectionsPerDestination);
      LargestIsCounted(connectionsPerDestination, Marks(events, PairMark), most);
      if Roomy() {
        IndexesCountHistory(config, firstSeen, ops);
        LargestOpened(connectionsPerDestination, ops, Horizon(config, firstSeen, ops), most);
      }
    }

    /** The most ports counted on any one destination: with room, the most it was reached on inside the window. */
    method ScannedPortBreadth() returns (most: nat)
      requires Valid()
      ensures forall d :: |Inner(portsPerDestination, d)| <= most
      ensures most > 0 ==> exists d :: |Inner(portsPerDestination, d)| == most
      ensures Roomy() ==> IsWidest(Since(ops, IsOpen, Horizon(config, firstSeen, ops)), most)
    {
      most := LargestInner(portsPerDestination);
      if Roomy() {
        var opens := Since(ops, IsOpen, Horizon(config, firstSeen, ops));
        forall d ensures |Inner(portsPerDestination, d)| == |PortsAt(opens, d)| {
          PortsAtAreKeys(config, firstSeen, ops, d);
          assert |Inner(portsPerDestination, d)| == |Inner(portsPerDestination, d).Keys|;
        }
      }
    }

    /**
     How many destinations the live connections are counted for, never more than the cap: with room, how many were
     reached inside the window.
     */
    method DestinationDiversity() returns (n: nat)
      requires Valid()
      ensures n == |set d | d in destinationCounts| <= config.limits.destinations
      ensures forall d :: d in destinationCounts <==> Count(Marks(events, DestMark), d) > 0
      ensures Roomy() ==> n == |Hosts(Since(ops, IsOpen, Horizon(config, firstSeen, ops)))|
    {
      if Roomy() {
        HostsAreKeys(config, firstSeen, ops);
      }
      IndexesAreRecounts(config, firstSeen, ops);
      assert (set d | d in destinationCounts) == destinationCounts.Keys;
      assert forall d :: Get(destinationCounts, d) == Count(Marks(events, DestMark), d);
      n := |destinationCounts|;
    }
  }

  /** The most unanswered attempts of any destination since the horizon. */
  ghost predicate IsMostFailed(ops: seq<Op>, horizon: int, most: nat) {
    && (forall d :: Tally(ops, FailTo(d, horizon)) <= most)
    && (most > 0 ==> exists d :: Tally(ops, FailTo(d, horizon)) == most)
  }

  lemma LargestFailed(m: Index<Addr>, ops: seq<Op>, horizon: int, most: nat)
    requires forall d :: Get(m, d) == Tally(ops, FailTo(d, horizon))
    requires forall k :: k in m ==> m[k] <= most
    requires most > 0 ==> exists k :: k in m && m[k] == most
    ensures IsMostFailed(ops, horizon, most)
  {
    forall d ensures Tally(ops, FailTo(d, horizon)) <= most {
      assert Get(m, d) <= most;
    }
    if most > 0 {
      var k :| k in m && m[k] == most;
      assert Get(m, k) == most;
    }
  }

  /** The most connections of any destination on one port, or without one, since the horizon. */
  ghost predicate IsMostOpened(ops: seq<Op>, horizon: int, most: nat) {
    && (forall d, p :: Tally(ops, OpenAt(d, p, horizon)) <= most)
    && (most > 0 ==> exists d, p :: Tally(ops, OpenAt(d, p, horizon)) == most)
  }

  lemma LargestOpened(m: Index<(Addr, Option<nat>)>, ops: seq<Op>, horizon: int, most: nat)
    requires forall d, p :: Get(m, (d, p)) == Tally(ops, OpenAt(d, p, horizon))
    requires forall k :: k in m ==> m[k] <= most
    requires most > 0 ==> exists k :: k in m && m[k] == most
    ensures IsMostOpened(ops, horizon, most)
  {
    forall d, p ensures Tally(ops, OpenAt(d, p, horizon)) <= most {
      assert Get(m, (d, p)) <= most;
    }
    if most > 0 {
      var k :| k in m && m[k] == most;
      assert Get(m, (k.0, k.1)) == most;
    }
  }

  /** The most ports that any one destination was reached on. */
  ghost predicate IsWidest(opens: seq<Op>, most: nat) {
    && (forall d :: |PortsAt(opens, d)| <= most)
    && (most > 0 ==> exists d :: |PortsAt(opens, d)| == most)
  }

  method LargestInner(m: Nested<Addr, nat>) returns (most: nat)
    ensures forall d :: |Inner(m, d)| <= most
    ensures most > 0 ==> exists d :: |Inner(m, d)| == most
  {
    most := 0;
    var left := m.Keys;
    while left != {}
      invariant left <= m.Keys
      invariant forall d :: d in m && d !in left ==> |Inner(m, d)| <= most
      invariant most > 0 ==> exists d :: |Inner(m, d)| == most
    {
      var d :| d in left;
      assert |Inner(m, d)| == |m[d]|;
      most := Max(most, |m[d]|);
      left := left - {d};
    }
  }

  /** The largest number of times at or after the horizon on any destination. */
  ghost predicate IsMost(recent: Times, horizon: int, best: nat) {
    && (forall d :: d in recent ==> W.CountAfter(recent[d], horizon - 1) <= best)
    && (best > 0 ==> exists d :: d in recent && W.CountAfter(recent[d], horizon - 1) == best)
  }

  lemma MostDecides(recent: Times, horizon: int, best: nat, threshold: real)
    requires IsMost(recent, horizon, best) && threshold > 0.0
    ensures best as real >= threshold <==> exists d :: Reaches(TimesOf(recent, d), horizon, threshold)
  {
    if best as real >= threshold {
      var d :| d in recent && W.CountAfter(recent[d], horizon - 1) == best;
      assert Reaches(TimesOf(recent, d), horizon, threshold);
    }
    if exists d :: Reaches(TimesOf(recent, d), horizon, threshold) {
      var d :| Reaches(TimesOf(recent, d), horizon, threshold);
      assert d in recent && W.CountAfter(recent[d], horizon - 1) <= best;
    }
  }

  method MostRecent(recent: Times, horizon: int) returns (best: nat)
    ensures IsMost(recent, horizon, best)
  {
    best := 0;
    var left := recent.Keys;
    while left != {}
      invariant left <= recent.Keys
      invariant forall d :: d in recent && d !in left ==> W.CountAfter(recent[d], horizon - 1) <= best
      invariant best > 0 ==> exists d :: d in recent && W.CountAfter(recent[d], horizon - 1) == best
    {
      var d :| d in left;
      var count := CountSince(recent[d], horizon);
      best := Max(best, count);
      left := left - {d};
    }
  }

  method CountSince(times: seq<int>, horizon: int) returns (count: nat)
    ensures count == W.CountAfter(times, horizon - 1)
  {
    count := 0;
    for i := 0 to |times|
      invariant count == W.CountAfter(times[..i], horizon - 1)
    {
      assert times[..i + 1] == times[..i] + [times[i]];
      W.CountConcat(times[..i], [times[i]], horizon - 1);
      if times[i] >= horizon {
        count := count + 1;
      }
    }
    assert times[..|times|] == times;
  }
}
