/** A dictionary of counts kept beside a queue: always the recount of the queue's marks. */
module Indexes {
  import opened Prelude

  type Index<K> = map<K, nat>

  function Get<K>(m: Index<K>, key: K): nat {
    if key in m then m[key] else 0
  }

  function Increment<K>(m: Index<K>, key: K): Index<K> {
    m[key := Get(m, key) + 1]
  }

  /** A count that reaches zero is removed. */
  function Decrement<K>(m: Index<K>, key: K): Index<K> {
    if Get(m, key) - 1 > 0 then m[key := Get(m, key) - 1] else m - {key}
  }

  /** A known key is always counted, a new one only below the cap. */
  predicate Admits<K>(m: Index<K>, key: K, cap: nat) {
    key in m || |m| < cap
  }

  /** How many marks name the key; entries that are not tracked have no mark. */
  ghost function Count<K>(marks: seq<Option<K>>, key: K): nat {
    if marks == [] then 0 else (if marks[0] == Some(key) then 1 else 0) + Count(marks[1..], key)
  }

  /** The index holds exactly the keys that are named, each with its count, and no zeros. */
  ghost predicate Recounts<K(!new)>(m: Index<K>, marks: seq<Option<K>>) {
    forall key :: Get(m, key) == Count(marks, key) && (key in m ==> m[key] > 0)
  }

  function Added<K>(m: Index<K>, mark: Option<K>): Index<K> {
    if mark.Some? then Increment(m, mark.value) else m
  }

  function Removed<K>(m: Index<K>, mark: Option<K>): Index<K> {
    if mark.Some? then Decrement(m, mark.value) else m
  }

  lemma {:induction false} CountLast<K>(marks: seq<Option<K>>, mark: Option<K>, key: K)
    ensures Count(marks + [mark], key) == Count(marks, key) + if mark == Some(key) then 1 else 0
  {
    if marks == [] {
      assert marks + [mark] == [mark];
    } else {
      assert (marks + [mark])[1..] == marks[1..] + [mark];
      CountLast(marks[1..], mark, key);
    }
  }

  lemma RecountsPush<K(!new)>(m: Index<K>, marks: seq<Option<K>>, mark: Option<K>)
    requires Recounts(m, marks)
    ensures Recounts(Added(m, mark), marks + [mark])
  {
    forall key ensures Count(marks + [mark], key) == Get(Added(m, mark), key) {
      CountLast(marks, mark, key);
      assert Get(m, key) == Count(marks, key);
    }
  }

  lemma RecountsPop<K(!new)>(m: Index<K>, marks: seq<Option<K>>)
    requires marks != [] && Recounts(m, marks)
    ensures Recounts(Removed(m, marks[0]), marks[1..])
  {
    var after := Removed(m, marks[0]);
    forall key ensures Get(after, key) == Count(marks[1..], key) && (key in after ==> after[key] > 0) {
      assert Get(m, key) == Count(marks, key);
    }
  }

  lemma AddedSize<K>(m: Index<K>, mark: Option<K>, cap: nat)
    requires |m| <= cap && (mark.Some? ==> Admits(m, mark.value, cap))
    ensures |Added(m, mark)| <= cap
  {
    if mark.Some? {
      assert Added(m, mark).Keys == m.Keys + {mark.value};
    }
  }

  lemma RemovedSize<K>(m: Index<K>, mark: Option<K>, cap: nat)
    requires |m| <= cap
    ensures |Removed(m, mark)| <= cap
  {
    if mark.Some? {
      var after := Removed(m, mark);
      assert after.Keys <= m.Keys;
      SubsetSize(after.Keys, m.Keys);
    }
  }

  /** The largest count of any key. */
  ghost predicate IsMostCounted<K(!new)>(marks: seq<Option<K>>, most: nat) {
    && (forall key :: Count(marks, key) <= most)
    && (most > 0 ==> exists key :: Count(marks, key) == most)
  }

  method LargestCount<K>(m: Index<K>) returns (most: nat)
    ensures forall k :: k in m ==> m[k] <= most
    ensures most > 0 ==> exists k :: k in m && m[k] == most
  {
    most := 0;
    var left := m.Keys;
    while left != {}
      invariant left <= m.Keys && forall k :: k in m && k !in left ==> m[k] <= most
      invariant most > 0 ==> exists k :: k in m && m[k] == most
    {
      var k :| k in left;
      most := Max(most, m[k]);
      left := left - {k};
    }
  }

  lemma LargestIsCounted<K(!new)>(m: Index<K>, marks: seq<Option<K>>, most: nat)
    requires Recounts(m, marks) && (forall k :: k in m ==> m[k] <= most)
    requires most > 0 ==> exists k :: k in m && m[k] == most
    ensures IsMostCounted(marks, most)
  {
    forall key ensures Count(marks, key) <= most {
      assert Get(m, key) == Count(marks, key);
    }
    if most > 0 {
      var k :| k in m && m[k] == most;
      assert Get(m, k) == Count(marks, k);
    }
  }

  // -------------------------------------------------------------- two-level indexes

  type Nested<D, P> = map<D, Index<P>>

  function Inner<D, P>(m: Nested<D, P>, d: D): Index<P> {
    if d in m then m[d] else map[]
  }

  /** No inner index is empty or holds a zero, and each pair is counted exactly. */
  ghost predicate NestedRecounts<D(!new), P(!new)>(m: Nested<D, P>, marks: seq<Option<(D, P)>>) {
    && (forall d :: d in m ==> m[d] != map[])
    && (forall d, p :: Get(Inner(m, d), p) == Count(marks, (d, p)))
    && (forall d, p :: p in Inner(m, d) ==> Inner(m, d)[p] > 0)
  }

  function Put<D, P>(m: Nested<D, P>, d: D, inner: Index<P>): Nested<D, P> {
    if inner == map[] then m - {d} else m[d := inner]
  }

  function NestedAdded<D, P>(m: Nested<D, P>, mark: Option<(D, P)>): Nested<D, P> {
    if mark.Some? then Put(m, mark.value.0, Increment(Inner(m, mark.value.0), mark.value.1)) else m
  }

  function NestedRemoved<D, P>(m: Nested<D, P>, mark: Option<(D, P)>): Nested<D, P> {
    if mark.Some? then Put(m, mark.value.0, Decrement(Inner(m, mark.value.0), mark.value.1)) else m
  }

  ghost predicate InnerWithin<D, P>(m: Nested<D, P>, cap: nat) {
    forall d :: d in m ==> |m[d]| <= cap
  }

  lemma PutWithin<D, P>(m: Nested<D, P>, d: D, inner: Index<P>, cap: nat)
    requires InnerWithin(m, cap) && |inner| <= cap
    ensures InnerWithin(Put(m, d, inner), cap)
  {
  }

  lemma NestedPush<D(!new), P(!new)>(m: Nested<D, P>, marks: seq<Option<(D, P)>>, mark: Option<(D, P)>)
    requires NestedRecounts(m, marks)
    ensures NestedRecounts(NestedAdded(m, mark), marks + [mark])
  {
    var after := NestedAdded(m, mark);
    forall d, p ensures Get(Inner(after, d), p) == Count(marks + [mark], (d, p))
        && (p in Inner(after, d) ==> Inner(after, d)[p] > 0) {
      CountLast(marks, mark, (d, p));
      assert Get(Inner(m, d), p) == Count(marks, (d, p));
    }
  }

  lemma NestedPop<D(!new), P(!new)>(m: Nested<D, P>, marks: seq<Option<(D, P)>>)
    requires marks != [] && NestedRecounts(m, marks)
    ensures NestedRecounts(NestedRemoved(m, marks[0]), marks[1..])
  {
    var after := NestedRemoved(m, marks[0]);
    forall d, p ensures Get(Inner(after, d), p) == Count(marks[1..], (d, p))
        && (p in Inner(after, d) ==> Inner(after, d)[p] > 0) {
      assert Get(Inner(m, d), p) == Count(marks, (d, p));
    }
  }
}

/** Per-source behaviour: a window of connections with indexes over it, and the flood counters. */
module Behavior {
  import opened Prelude
  import opened Indexes
  import W = Windows

  type Addr = nat

  /** One live connection, with what it was counted in. */
  datatype Entry = Entry(
    at: int, dest: Addr, port: Option<nat>,
    destTracked: bool, portTracked: bool, globalTracked: bool, pairTracked: bool)

  type Event = e: Entry | (e.portTracked ==> e.destTracked && e.port.Some?) && (e.globalTracked ==> e.port.Some?)
    witness Entry(0, 0, None, false, false, false, false)

  function DestMark(e: Event): Option<Addr> { if e.destTracked then Some(e.dest) else None }

  function PortMark(e: Event): Option<nat> { if e.globalTracked then e.port else None }

  function HostPortMark(e: Event): Option<(Addr, nat)> { if e.portTracked then Some((e.dest, e.port.value)) else None }

  function PairMark(e: Event): Option<(Addr, Option<nat>)> { if e.pairTracked then Some((e.dest, e.port)) else None }

  ghost function Marks<E, K>(queue: seq<E>, mark: E -> Option<K>): (r: seq<Option<K>>)
    ensures |r| == |queue|
  {
    seq(|queue|, i requires 0 <= i < |queue| => mark(queue[i]))
  }

  lemma MarksPush<E, K>(queue: seq<E>, e: E, mark: E -> Option<K>)
    ensures Marks(queue + [e], mark) == Marks(queue, mark) + [mark(e)]
  {
  }

  lemma MarksPop<E, K>(queue: seq<E>, mark: E -> Option<K>)
    requires queue != []
    ensures Marks(queue, mark)[0] == mark(queue[0]) && Marks(queue, mark)[1..] == Marks(queue[1..], mark)
  {
  }

  datatype Limits = Limits(destinations: nat, ports: nat, events: nat)

  datatype Counts = Counts(
    dests: Index<Addr>, ports: Index<nat>, hostPorts: Nested<Addr, nat>, pairs: Index<(Addr, Option<nat>)>)

  /** Every index is the recount of the live events that carry its flag. */
  ghost predicate Exact(c: Counts, events: seq<Event>) {
    && Recounts(c.dests, Marks(events, DestMark))
    && Recounts(c.ports, Marks(events, PortMark))
    && NestedRecounts(c.hostPorts, Marks(events, HostPortMark))
    && Recounts(c.pairs, Marks(events, PairMark))
  }

  ghost predicate WithinCaps(c: Counts, limits: Limits) {
    && |c.dests| <= limits.destinations && |c.ports| <= limits.ports && |c.pairs| <= limits.destinations
    && InnerWithin(c.hostPorts, limits.ports)
  }

  /** A connection leaves the window. */
  function Expired(c: Counts, e: Event): Counts {
    Counts(Removed(c.dests, DestMark(e)), Removed(c.ports, PortMark(e)), NestedRemoved(c.hostPorts, HostPortMark(e)),
           Removed(c.pairs, PairMark(e)))
  }

  /** What a new connection will be counted in: a new key is refused once its index is full. */
  function Flagged(c: Counts, limits: Limits, dest: Addr, port: Option<nat>, at: int): Event {
    var destTracked := Admits(c.dests, dest, limits.destinations);
    Entry(at, dest, port, destTracked,
          port.Some? && destTracked && Admits(Inner(c.hostPorts, dest), port.value, limits.ports),
          port.Some? && Admits(c.ports, port.value, limits.ports),
          Admits(c.pairs, (dest, port), limits.destinations))
  }

  function Admitted(c: Counts, e: Event): Counts {
    Counts(Added(c.dests, DestMark(e)), Added(c.ports, PortMark(e)), NestedAdded(c.hostPorts, HostPortMark(e)),
           Added(c.pairs, PairMark(e)))
  }

  lemma ExpiredExact(c: Counts, events: seq<Event>)
    requires events != [] && Exact(c, events)
    ensures Exact(Expired(c, events[0]), events[1..])
  {
    MarksPop(events, DestMark);
    MarksPop(events, PortMark);
    MarksPop(events, HostPortMark);
    MarksPop(events, PairMark);
    RecountsPop(c.dests, Marks(events, DestMark));
    RecountsPop(c.ports, Marks(events, PortMark));
    NestedPop(c.hostPorts, Marks(events, HostPortMark));
    RecountsPop(c.pairs, Marks(events, PairMark));
  }

  lemma AdmittedExact(c: Counts, events: seq<Event>, e: Event)
    requires Exact(c, events)
    ensures Exact(Admitted(c, e), events + [e])
  {
    MarksPush(events, e, DestMark);
    MarksPush(events, e, PortMark);
    MarksPush(events, e, HostPortMark);
    MarksPush(events, e, PairMark);
    RecountsPush(c.dests, Marks(events, DestMark), DestMark(e));
    RecountsPush(c.ports, Marks(events, PortMark), PortMark(e));
    NestedPush(c.hostPorts, Marks(events, HostPortMark), HostPortMark(e));
    RecountsPush(c.pairs, Marks(events, PairMark), PairMark(e));
  }

  lemma ExpiredWithin(c: Counts, limits: Limits, e: Event)
    requires WithinCaps(c, limits)
    ensures WithinCaps(Expired(c, e), limits)
  {
    RemovedSize(c.dests, DestMark(e), limits.destinations);
    RemovedSize(c.ports, PortMark(e), limits.ports);
    RemovedSize(c.pairs, PairMark(e), limits.destinations);
    if e.portTracked {
      RemovedSize(Inner(c.hostPorts, e.dest), e.port, limits.ports);
      PutWithin(c.hostPorts, e.dest, Decrement(Inner(c.hostPorts, e.dest), e.port.value), limits.ports);
    }
  }

  lemma AdmittedWithin(c: Counts, limits: Limits, dest: Addr, port: Option<nat>, at: int)
    requires WithinCaps(c, limits)
    ensures WithinCaps(Admitted(c, Flagged(c, limits, dest, port, at)), limits)
  {
    var e := Flagged(c, limits, dest, port, at);
    AddedSize(c.dests, DestMark(e), limits.destinations);
    AddedSize(c.ports, PortMark(e), limits.ports);
    AddedSize(c.pairs, PairMark(e), limits.destinations);
    if e.portTracked {
      AddedSize(Inner(c.hostPorts, dest), port, limits.ports);
      PutWithin(c.hostPorts, dest, Increment(Inner(c.hostPorts, dest), port.value), limits.ports);
    }
  }

  /** A connection counted by port on a host is counted for the host. */
  lemma {:induction false} HostCounted(events: seq<Event>, d: Addr, p: nat)
    ensures Count(Marks(events, HostPortMark), (d, p)) <= Count(Marks(events, DestMark), d)
  {
    if events != [] {
      MarksPop(events, HostPortMark);
      MarksPop(events, DestMark);
      HostCounted(events[1..], d, p);
    }
  }

  /** The hosts with ports are among the destinations, so their number has the same cap. */
  lemma HostsAmongDestinations(c: Counts, events: seq<Event>)
    requires Exact(c, events)
    ensures c.hostPorts.Keys <= c.dests.Keys && |c.hostPorts| <= |c.dests|
  {
    forall d | d in c.hostPorts ensures d in c.dests {
      var inner := c.hostPorts[d];
      assert inner != map[];
      var p :| p in inner;
      assert p in Inner(c.hostPorts, d) && Get(Inner(c.hostPorts, d), p) > 0;
      HostCounted(events, d, p);
      assert Get(c.dests, d) > 0;
    }
    SubsetSize(c.hostPorts.Keys, c.dests.Keys);
  }

  // ------------------------------------------------------------------------- floods

  type Times = map<Addr, seq<int>>

  function TimesOf(m: Times, d: Addr): seq<int> {
    if d in m then m[d] else []
  }

  /** The kept connection times of one destination tell all that counts after the horizon. */
  ghost predicate Kept(queue: seq<int>, log: seq<int>, cap: nat, horizon: int) {
    W.Ascending(log) && W.Tracks(queue, log, cap, horizon - 1)
  }

  /** One destination's queue beside the log of all its connections. */
  datatype Book = Book(queue: seq<int>, log: seq<int>, cap: nat, horizon: int)

  type KeptBook = b: Book | Kept(b.queue, b.log, b.cap, b.horizon) ghost witness Book([], [], 0, 0)

  /** A cap above the threshold loses nothing: kept and full counts agree on reaching it. */
  lemma CapLosesNothing(b: KeptBook, threshold: real)
    requires b.cap as real > threshold
    ensures Reaches(b.queue, b.horizon, threshold) <==> Reaches(b.log, b.horizon, threshold)
  {
    var n := |b.log| - |b.queue|;
    var older := b.log[..n];
    assert b.log == older + b.queue && b.log[n..] == b.queue;
    W.CountConcat(older, b.queue, b.horizon - 1);
    if exists i :: 0 <= i < n && older[i] >= b.horizon {
      var i :| 0 <= i < n && older[i] >= b.horizon;
      assert |b.queue| == b.cap;
      AllNewer(b.log, n, i, b.horizon);
      W.CountAll(b.queue, b.horizon - 1);
    } else {
      W.CountAll(older, b.horizon - 1);
    }
  }

  lemma AllNewer(log: seq<int>, n: nat, i: nat, horizon: int)
    requires W.Ascending(log) && i < n <= |log| && log[i] >= horizon
    ensures forall j :: 0 <= j < |log| - n ==> log[n..][j] >= horizon
  {
  }

  lemma KeptLonger(b: KeptBook, later: int) returns (b': KeptBook)
    requires b.horizon <= later
    ensures b' == b.(horizon := later)
  {
    b' := b.(horizon := later);
  }

  /** Forgetting a queue whose newest entry is stale. */
  lemma KeptForgotten(b: KeptBook) returns (b': KeptBook)
    requires b.queue != [] && Newest(b.queue) < b.horizon
    ensures b' == b.(queue := [])
  {
    forall i | 0 <= i < |b.log| ensures b.log[i] <= b.horizon - 1 {
      assert b.log[|b.log| - 1] == b.queue[|b.queue| - 1];
    }
    b' := b.(queue := []);
  }

  lemma KeptAppended(b: KeptBook, at: int) returns (b': KeptBook)
    requires b.cap >= 1 && (b.log != [] ==> Newest(b.log) <= at)
    ensures b' == b.(queue := W.Push(b.queue, b.cap, at), log := b.log + [at])
  {
    W.Pushed(b.queue, b.log, b.cap, b.horizon - 1, at);
    AscendingAppended(b.log, at);
    b' := b.(queue := W.Push(b.queue, b.cap, at), log := b.log + [at]);
  }

  lemma AscendingAppended(log: seq<int>, at: int)
    requires W.Ascending(log) && (log != [] ==> Newest(log) <= at)
    ensures W.Ascending(log + [at])
  {
    forall i, j | 0 <= i < j < |log + [at]| ensures (log + [at])[i] <= (log + [at])[j] {
      if j == |log| {
        assert log[i] <= log[|log| - 1];
      }
    }
  }

  ghost predicate NoneEmpty(recent: Times) {
    forall d :: d in recent ==> recent[d] != []
  }

  function Newest(times: seq<int>): int {
    if times == [] then 0 else times[|times| - 1]
  }

  /** The queues whose newest entry is not stale. */
  function Current(recent: Times, horizon: int): Times {
    map d | d in recent && Newest(recent[d]) >= horizon :: recent[d]
  }

  lemma CurrentKept(recent: Times, b: KeptBook, later: int, d: Addr) returns (b': KeptBook)
    requires NoneEmpty(recent) && b.queue == TimesOf(recent, d) && b.horizon <= later
    ensures b' == b.(queue := TimesOf(Current(recent, later), d), horizon := later)
  {
    b' := KeptLonger(b, later);
    if d in recent && Newest(recent[d]) < later {
      b' := KeptForgotten(b');
    }
  }

  // -------------------------------------------------------------------------- state

  datatype Failure = Failure(at: int, dest: Addr, tracked: bool)

  function FailureMark(f: Failure): Option<Addr> { if f.tracked then Some(f.dest) else None }

  /** The live connections and failures with the indexes over them. */
  datatype LiveWindow = LiveWindow(
    events: seq<Event>, counts: Counts, failures: seq<Failure>, failureCounts: Index<Addr>)
  {
    function ExpireEvent(): LiveWindow
      requires events != []
    {
      this.(events := events[1..], counts := Expired(counts, events[0]))
    }

    function ExpireFailure(): LiveWindow
      requires failures != []
    {
      this.(failures := failures[1..], failureCounts := Removed(failureCounts, FailureMark(failures[0])))
    }

    function StaleEventsOut(horizon: int): LiveWindow
      decreases |events|
    {
      if events != [] && events[0].at < horizon then ExpireEvent().StaleEventsOut(horizon) else this
    }

    function StaleFailuresOut(horizon: int): LiveWindow
      decreases |failures|
    {
      if failures != [] && failures[0].at < horizon then ExpireFailure().StaleFailuresOut(horizon) else this
    }

    /** Stale connections and failures come off the front of their queues. */
    function Expire(horizon: int): LiveWindow {
      StaleEventsOut(horizon).StaleFailuresOut(horizon)
    }

    /** A full queue gives up its oldest entry. */
    function EventRoom(cap: nat): LiveWindow {
      if |events| >= cap && events != [] then ExpireEvent() else this
    }

    function FailureRoom(cap: nat): LiveWindow {
      if |failures| >= cap && failures != [] then ExpireFailure() else this
    }

    function AdmitEvent(limits: Limits, dest: Addr, port: Option<nat>, at: int): LiveWindow {
      var e := Flagged(counts, limits, dest, port, at);
      this.(events := events + [e], counts := Admitted(counts, e))
    }

    function AdmitFailure(limits: Limits, dest: Addr, at: int): LiveWindow {
      var f := Failure(at, dest, Admits(failureCounts, dest, limits.destinations));
      this.(failures := failures + [f], failureCounts := Added(failureCounts, FailureMark(f)))
    }
  }

  datatype Settings = Settings(limits: Limits, window: int, floodWindow: int, maxFloodEntries: nat)

  type Config = c: Settings | c.limits.events >= 1 && c.limits.ports >= 1 && c.maxFloodEntries >= 1
    witness Settings(Limits(1, 1, 1), 0, 0, 1)

  datatype State = State(lastSeen: int, live: LiveWindow, recent: Times)

  function Initial(firstSeen: int): State {
    State(firstSeen, LiveWindow([], Counts(map[], map[], map[], map[]), [], map[]), map[])
  }

  datatype Op =
    Opened(dest: Addr, port: Option<nat>, at: int) | Ended(failed: bool, dest: Addr, at: int) | Pruned(at: int)

  /** A new connection, or a flow that ended unanswered, is added, the oldest making room. */
  function Apply(c: Config, live: LiveWindow, op: Op): LiveWindow {
    match op
    case Opened(dest, port, at) => live.EventRoom(c.limits.events).AdmitEvent(c.limits, dest, port, at)
    case Ended(failed, dest, at) =>
      if failed then live.FailureRoom(c.limits.events).AdmitFailure(c.limits, dest, at) else live
    case Pruned(_) => live
  }

  /** What is older has left the window. */
  function WindowStart(c: Config, now: int): int { now - c.window }

  function StepLive(c: Config, live: LiveWindow, now: int, op: Op): LiveWindow {
    Apply(c, live.Expire(WindowStart(c, now)), op)
  }

  /** Whether a new connection's time is kept: its destination is known or there is room. */
  predicate Keeps(recent: Times, destinations: nat, dest: Addr) {
    dest in recent || |recent| < destinations
  }

  function Remembered(c: Config, recent: Times, dest: Addr, at: int): Times {
    if Keeps(recent, c.limits.destinations, dest)
    then recent[dest := W.Push(TimesOf(recent, dest), c.maxFloodEntries, at)] else recent
  }

  function StepRecent(c: Config, recent: Times, now: int, op: Op): Times {
    var left := Current(recent, now - c.floodWindow);
    if op.Opened? then Remembered(c, left, op.dest, op.at) else left
  }

  /** The clock moves forward, never back. */
  function Step(c: Config, s: State, op: Op): State {
    var now := Max(s.lastSeen, op.at);
    State(now, StepLive(c, s.live, now, op), StepRecent(c, s.recent, now, op))
  }

  /** The state some operations lead to. */
  ghost function After(c: Config, s: State, ops: seq<Op>): State
    decreases |ops|, 1
  {
    if ops == [] then s else AfterLast(c, s, ops)
  }

  ghost function AfterLast(c: Config, s: State, ops: seq<Op>): State
    requires ops != []
    decreases |ops|, 0
  {
    Step(c, After(c, s, ops[..|ops| - 1]), ops[|ops| - 1])
  }

  ghost function Run(c: Config, firstSeen: int, ops: seq<Op>): State {
    After(c, Initial(firstSeen), ops)
  }

  lemma AfterOne(c: Config, s: State, op: Op)
    ensures After(c, s, [op]) == Step(c, s, op)
  {
    assert After(c, s, [op]) == AfterLast(c, s, [op]);
    assert After(c, s, [op][..0]) == s;
  }

  lemma AfterAppend(c: Config, s: State, ops: seq<Op>, op: Op)
    ensures After(c, s, ops + [op]) == After(c, After(c, s, ops), [op])
  {
    assert (ops + [op])[..|ops|] == ops;
    assert After(c, s, ops + [op]) == AfterLast(c, s, ops + [op]);
    AfterOne(c, After(c, s, ops), op);
  }

  /** A new connection first does what pruning would. */
  lemma StepOpened(c: Config, s: State, dest: Addr, port: Option<nat>, at: int)
    ensures
      var pruned := Step(c, s, Pruned(at));
      Step(c, s, Opened(dest, port, at)) ==
        State(pruned.lastSeen, pruned.live.EventRoom(c.limits.events).AdmitEvent(c.limits, dest, port, at),
              Remembered(c, pruned.recent, dest, at))
  {
  }

  // -------------------------------------------------------------- indexes over every run

  /** Every index equals the recount of the live entries that carry its flag, within its cap. */
  datatype Bench = Bench(limits: Limits, live: LiveWindow)
  {
    ghost predicate Sound() {
      && Exact(live.counts, live.events) && WithinCaps(live.counts, limits) && |live.events| <= limits.events
      && Recounts(live.failureCounts, Marks(live.failures, FailureMark))
      && |live.failureCounts| <= limits.destinations && |live.failures| <= limits.events
    }
  }

  type SoundBench = b: Bench | b.Sound()
    ghost witness Bench(Limits(0, 0, 0), LiveWindow([], Counts(map[], map[], map[], map[]), [], map[]))

  lemma ExpireEventSound(b: SoundBench) returns (b': SoundBench)
    requires b.live.events != []
    ensures b' == b.(live := b.live.ExpireEvent())
  {
    ExpiredExact(b.live.counts, b.live.events);
    ExpiredWithin(b.live.counts, b.limits, b.live.events[0]);
    b' := b.(live := b.live.ExpireEvent());
  }

  lemma ExpireFailureSound(b: SoundBench) returns (b': SoundBench)
    requires b.live.failures != []
    ensures b' == b.(live := b.live.ExpireFailure())
  {
    MarksPop(b.live.failures, FailureMark);
    RecountsPop(b.live.failureCounts, Marks(b.live.failures, FailureMark));
    RemovedSize(b.live.failureCounts, FailureMark(b.live.failures[0]), b.limits.destinations);
    b' := b.(live := b.live.ExpireFailure());
  }

  lemma {:induction false} StaleEventsSound(b: SoundBench, horizon: int) returns (b': SoundBench)
    ensures b' == b.(live := b.live.StaleEventsOut(horizon))
    decreases |b.live.events|
  {
    b' := b;
    if b.live.events != [] && b.live.events[0].at < horizon {
      b' := ExpireEventSound(b);
      b' := StaleEventsSound(b', horizon);
    }
  }

  lemma {:induction false} StaleFailuresSound(b: SoundBench, horizon: int) returns (b': SoundBench)
    ensures b' == b.(live := b.live.StaleFailuresOut(horizon))
    decreases |b.live.failures|
  {
    b' := b;
    if b.live.failures != [] && b.live.failures[0].at < horizon {
      b' := ExpireFailureSound(b);
      b' := StaleFailuresSound(b', horizon);
    }
  }

  lemma AdmitEventSound(b: SoundBench, dest: Addr, port: Option<nat>, at: int) returns (b': SoundBench)
    requires |b.live.events| < b.limits.events
    ensures b' == b.(live := b.live.AdmitEvent(b.limits, dest, port, at))
  {
    AdmittedExact(b.live.counts, b.live.events, Flagged(b.live.counts, b.limits, dest, port, at));
    AdmittedWithin(b.live.counts, b.limits, dest, port, at);
    b' := b.(live := b.live.AdmitEvent(b.limits, dest, port, at));
  }

  lemma AdmitFailureSound(b: SoundBench, dest: Addr, at: int) returns (b': SoundBench)
    requires |b.live.failures| < b.limits.events
    ensures b' == b.(live := b.live.AdmitFailure(b.limits, dest, at))
  {
    var f := Failure(at, dest, Admits(b.live.failureCounts, dest, b.limits.destinations));
    MarksPush(b.live.failures, f, FailureMark);
    RecountsPush(b.live.failureCounts, Marks(b.live.failures, FailureMark), FailureMark(f));
    AddedSize(b.live.failureCounts, FailureMark(f), b.limits.destinations);
    b' := b.(live := b.live.AdmitFailure(b.limits, dest, at));
  }

  lemma ExpireSound(b: SoundBench, horizon: int) returns (b': SoundBench)
    ensures b' == b.(live := b.live.Expire(horizon))
  {
    var one := StaleEventsSound(b, horizon);
    b' := StaleFailuresSound(one, horizon);
  }

  lemma OpenedSound(b: SoundBench, dest: Addr, port: Option<nat>, at: int) returns (b': SoundBench)
    requires b.limits.events >= 1
    ensures b' == b.(live := b.live.EventRoom(b.limits.events).AdmitEvent(b.limits, dest, port, at))
  {
    var room := b;
    if |b.live.events| >= b.limits.events {
      room := ExpireEventSound(b);
    }
    b' := AdmitEventSound(room, dest, port, at);
  }

  lemma FailedSound(b: SoundBench, dest: Addr, at: int) returns (b': SoundBench)
    requires b.limits.events >= 1
    ensures b' == b.(live := b.live.FailureRoom(b.limits.events).AdmitFailure(b.limits, dest, at))
  {
    var room := b;
    if |b.live.failures| >= b.limits.events {
      room := ExpireFailureSound(b);
    }
    b' := AdmitFailureSound(room, dest, at);
  }

  lemma ApplySound(c: Config, b: SoundBench, op: Op) returns (b': SoundBench)
    requires b.limits == c.limits
    ensures b' == b.(live := Apply(c, b.live, op))
  {
    b' := b;
    if op.Opened? {
      b' := OpenedSound(b, op.dest, op.port, op.at);
    } else if op.Ended? && op.failed {
      b' := FailedSound(b, op.dest, op.at);
    }
  }

  lemma StepSound(c: Config, b: SoundBench, horizon: int, op: Op) returns (b': SoundBench)
    requires b.limits == c.limits
    ensures b' == b.(live := Apply(c, b.live.Expire(horizon), op))
  {
    var left := ExpireSound(b, horizon);
    b' := ApplySound(c, left, op);
  }

  lemma {:induction false} RunBench(c: Config, firstSeen: int, ops: seq<Op>) returns (b: SoundBench)
    ensures b == Bench(c.limits, Run(c, firstSeen, ops).live)
  {
    if ops == [] {
      b := Bench(c.limits, Initial(firstSeen).live);
    } else {
      assert Run(c, firstSeen, ops) == AfterLast(c, Initial(firstSeen), ops);
      b := RunBench(c, firstSeen, ops[..|ops| - 1]);
      var now := Max(Run(c, firstSeen, ops[..|ops| - 1]).lastSeen, ops[|ops| - 1].at);
      b := StepSound(c, b, WindowStart(c, now), ops[|ops| - 1]);
    }
  }

  /**
   After every run, each index holds exactly the keys of the live entries that carry its flag, each with
   their number, never a zero or an empty entry, and stays within its cap, however often keys are refused,
   expire and are admitted again.
   */
  lemma IndexesAreRecounts(c: Config, firstSeen: int, ops: seq<Op>)
    ensures
      var l := Run(c, firstSeen, ops).live;
      && Exact(l.counts, l.events) && WithinCaps(l.counts, c.limits) && |l.counts.hostPorts| <= c.limits.destinations
      && |l.events| <= c.limits.events && |l.failures| <= c.limits.events
      && Recounts(l.failureCounts, Marks(l.failures, FailureMark)) && |l.failureCounts| <= c.limits.destinations
  {
    var b := RunBench(c, firstSeen, ops);
    HostsAmongDestinations(b.live.counts, b.live.events);
  }

  // --------------------------------------------------------------- floods over every run

  /** The times of every connection to a destination, in the order they came. */
  ghost function LogOf(ops: seq<Op>, dest: Addr): seq<int> {
    if ops == [] then []
    else
      var last := ops[|ops| - 1];
      LogOf(ops[..|ops| - 1], dest) + if last.Opened? && last.dest == dest then [last.at] else []
  }

  /** Connection times never go back. */
  ghost predicate Orderly(ops: seq<Op>) {
    forall i, j :: 0 <= i < j < |ops| && ops[i].Opened? && ops[j].Opened? ==> ops[i].at <= ops[j].at
  }

  ghost predicate Admitting(c: Config, s: State, op: Op)
    requires op.Opened?
  {
    Keeps(Current(s.recent, Max(s.lastSeen, op.at) - c.floodWindow), c.limits.destinations, op.dest)
  }

  /** No connection found the flood table full. */
  ghost predicate NoneTurnedAway(c: Config, firstSeen: int, ops: seq<Op>) {
    ops == []
    || (var before, last := ops[..|ops| - 1], ops[|ops| - 1];
        && NoneTurnedAway(c, firstSeen, before)
        && (last.Opened? ==> Admitting(c, Run(c, firstSeen, before), last)))
  }

  /** A destination's queue after a run, beside the log of all its connections. */
  ghost function BookOf(c: Config, s: State, ops: seq<Op>, d: Addr): Book {
    Book(TimesOf(s.recent, d), LogOf(ops, d), c.maxFloodEntries, s.lastSeen - c.floodWindow)
  }

  lemma {:induction false} LogBefore(ops: seq<Op>, dest: Addr, at: int)
    requires forall i :: 0 <= i < |ops| && ops[i].Opened? ==> ops[i].at <= at
    ensures forall i :: 0 <= i < |LogOf(ops, dest)| ==> LogOf(ops, dest)[i] <= at
  {
    if ops != [] {
      LogBefore(ops[..|ops| - 1], dest, at);
    }
  }

  lemma OrderlyLog(ops: seq<Op>, op: Op, d: Addr)
    requires op.Opened? && Orderly(ops + [op])
    ensures LogOf(ops, d) != [] ==> Newest(LogOf(ops, d)) <= op.at
  {
    var all := ops + [op];
    forall i | 0 <= i < |ops| && ops[i].Opened? ensures ops[i].at <= op.at {
      assert all[i] == ops[i] && all[|ops|] == op;
    }
    LogBefore(ops, d, op.at);
  }

  /** What an operation does to one destination's queue and log. */
  ghost function NextQueue(queue: seq<int>, cap: nat, op: Op, d: Addr): seq<int>
    requires cap >= 1
  {
    if op.Opened? && op.dest == d then W.Push(queue, cap, op.at) else queue
  }

  ghost function NextLog(log: seq<int>, op: Op, d: Addr): seq<int> {
    if op.Opened? && op.dest == d then log + [op.at] else log
  }

  lemma StepLog(ops: seq<Op>, op: Op, d: Addr)
    ensures LogOf(ops + [op], d) == NextLog(LogOf(ops, d), op, d)
  {
    assert (ops + [op])[..|ops|] == ops;
  }

  lemma StepTimes(c: Config, recent: Times, now: int, op: Op, d: Addr)
    requires op.Opened? ==> Keeps(Current(recent, now - c.floodWindow), c.limits.destinations, op.dest)
    ensures TimesOf(StepRecent(c, recent, now, op), d)
        == NextQueue(TimesOf(Current(recent, now - c.floodWindow), d), c.maxFloodEntries, op, d)
  {
  }

  lemma {:induction false} RunNoneEmpty(c: Config, firstSeen: int, ops: seq<Op>)
    ensures NoneEmpty(Run(c, firstSeen, ops).recent)
  {
    if ops != [] {
      assert Run(c, firstSeen, ops) == AfterLast(c, Initial(firstSeen), ops);
      RunNoneEmpty(c, firstSeen, ops[..|ops| - 1]);
    }
  }

  lemma {:induction false} RunBook(c: Config, firstSeen: int, ops: seq<Op>, d: Addr) returns (b: KeptBook)
    requires Orderly(ops) && NoneTurnedAway(c, firstSeen, ops)
    ensures b == BookOf(c, Run(c, firstSeen, ops), ops, d)
  {
    if ops == [] {
      b := Book([], [], c.maxFloodEntries, firstSeen - c.floodWindow);
    } else {
      var before, op := ops[..|ops| - 1], ops[|ops| - 1];
      assert ops == before + [op] && Run(c, firstSeen, ops) == AfterLast(c, Initial(firstSeen), ops);
      b := RunBook(c, firstSeen, before, d);
      RunNoneEmpty(c, firstSeen, before);
      if op.Opened? {
        OrderlyLog(before, op, d);
      }
      b := StepBookOf(c, Run(c, firstSeen, before), before, op, b, d);
    }
  }

  lemma StepBookOf(c: Config, s: State, ops: seq<Op>, op: Op, b: KeptBook, d: Addr) returns (b': KeptBook)
    requires NoneEmpty(s.recent) && b == BookOf(c, s, ops, d) && (op.Opened? ==> Admitting(c, s, op))
    requires op.Opened? && b.log != [] ==> Newest(b.log) <= op.at
    ensures b' == BookOf(c, Step(c, s, op), ops + [op], d)
  {
    StepLog(ops, op, d);
    StepTimes(c, s.recent, Max(s.lastSeen, op.at), op, d);
    b' := StepBook(s.recent, b, op, Max(s.lastSeen, op.at) - c.floodWindow, d);
  }

  lemma StepBook(recent: Times, b: KeptBook, op: Op, horizon: int, d: Addr) returns (b': KeptBook)
    requires NoneEmpty(recent) && b.queue == TimesOf(recent, d) && b.cap >= 1 && b.horizon <= horizon
    requires op.Opened? && b.log != [] ==> Newest(b.log) <= op.at
    ensures b' == Book(NextQueue(TimesOf(Current(recent, horizon), d), b.cap, op, d), NextLog(b.log, op, d), b.cap,
                       horizon)
  {
    b' := CurrentKept(recent, b, horizon, d);
    if op.Opened? && op.dest == d {
      b' := KeptAppended(b', op.at);
    }
  }

  /** At least so many times at or after the horizon. */
  ghost predicate Reaches(times: seq<int>, horizon: int, threshold: real) {
    W.CountAfter(times, horizon - 1) as real >= threshold
  }

  /** The flood pattern as the kept queues decide it. */
  ghost predicate Floods(c: Config, s: State, threshold: real) {
    exists d :: Reaches(TimesOf(s.recent, d), s.lastSeen - c.floodWindow, threshold)
  }

  /** Some destination received that many connections since the horizon, counting every one of them. */
  ghost predicate Flooded(ops: seq<Op>, horizon: int, threshold: real) {
    exists d :: Reaches(LogOf(ops, d), horizon, threshold)
  }

  /**
   With connection times in order and no destination turned away, the flood pattern fires exactly when some
   destination received that many connections inside the flood window, counting every one of them.
   */
  lemma FloodVerdictExact(c: Config, firstSeen: int, ops: seq<Op>, threshold: real)
    requires Orderly(ops) && NoneTurnedAway(c, firstSeen, ops) && 0.0 < threshold < c.maxFloodEntries as real
    ensures
      var s := Run(c, firstSeen, ops);
      Floods(c, s, threshold) <==> Flooded(ops, s.lastSeen - c.floodWindow, threshold)
  {
    var s := Run(c, firstSeen, ops);
    forall d ensures Reaches(TimesOf(s.recent, d), s.lastSeen - c.floodWindow, threshold)
                <==> Reaches(LogOf(ops, d), s.lastSeen - c.floodWindow, threshold) {
      VerdictAt(c, firstSeen, ops, threshold, d);
    }
  }

  /** The least integer that is not below `x`. */
  function Ceil(x: real): int { -(-x).Floor }

  /** The detector builds its queues one longer than the threshold, so the verdict is exact for all it builds. */
  lemma FloodVerdictAsBuilt(c: Config, firstSeen: int, ops: seq<Op>, threshold: real)
    requires 0.0 < threshold && c.maxFloodEntries == Ceil(threshold) + 1
    requires Orderly(ops) && NoneTurnedAway(c, firstSeen, ops)
    ensures
      var s := Run(c, firstSeen, ops);
      Floods(c, s, threshold) <==> Flooded(ops, s.lastSeen - c.floodWindow, threshold)
  {
    FloodVerdictExact(c, firstSeen, ops, threshold);
  }

  lemma VerdictAt(c: Config, firstSeen: int, ops: seq<Op>, threshold: real, d: Addr)
    requires Orderly(ops) && NoneTurnedAway(c, firstSeen, ops) && threshold < c.maxFloodEntries as real
    ensures
      var s := Run(c, firstSeen, ops);
      Reaches(TimesOf(s.recent, d), s.lastSeen - c.floodWindow, threshold)
      <==> Reaches(LogOf(ops, d), s.lastSeen - c.floodWindow, threshold)
  {
    var b := RunBook(c, firstSeen, ops, d);
    CapLosesNothing(b, threshold);
  }
}
